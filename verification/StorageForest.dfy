// Which storage configurations are accepted, said of their items directly.
module StorageForest {
  import opened Sequences
  import opened Wrappers
  import opened StorageTree
  import opened StorageLaws

  // ------------------------------------------------------------ the conditions

  predicate HasPartition(parts: seq<Partition>, id: string) {
    exists k :: 0 <= k < |parts| && parts[k].id == id
  }

  predicate HasVerity(vs: seq<Verity>, id: string) {
    exists k :: 0 <= k < |vs| && vs[k].id == id
  }

  // A verity item names both of its devices by id, or neither.
  predicate ByIds(v: Verity) {
    v.dataDeviceId != "" && v.hashDeviceId != "" && !v.hasDataDevice && !v.hasHashDevice
  }

  predicate ByDevices(v: Verity) {
    v.dataDeviceId == "" && v.hashDeviceId == "" && v.hasDataDevice && v.hasHashDevice
  }

  // All verity items do the same, and ids, like file systems, need a disk.
  predicate ItemsFit(disks: seq<seq<Partition>>, vs: seq<Verity>, fss: seq<FileSystem>) {
    && |disks| <= 1
    && (forall i :: 0 <= i < |vs| ==> vs[i].id != "" && (if disks == [] then ByDevices(vs[i]) else ByIds(vs[i])))
    && (forall k :: 0 <= k < |fss| ==> disks != [] && fss[k].deviceId != "" && (fss[k].subvolumes == [] || fss[k].mountPoint.None?))
  }

  // All ids differ.
  predicate IdsDiffer(parts: seq<Partition>, vs: seq<Verity>) {
    && (forall i, j :: 0 <= i < j < |parts| ==> parts[i].id != parts[j].id)
    && (forall i, j :: 0 <= i < j < |vs| ==> vs[i].id != vs[j].id)
    && forall i, j :: 0 <= i < |parts| && 0 <= j < |vs| ==> parts[i].id != vs[j].id
  }

  // What uses a device.
  predicate IsUser(vs: seq<Verity>, fss: seq<FileSystem>, u: Parent, id: string) {
    match u
    case ByVerity(i) => i < |vs| && id != "" && (vs[i].dataDeviceId == id || vs[i].hashDeviceId == id)
    case ByFileSystem(k) => k < |fss| && fss[k].deviceId == id
  }

  // Each device has one user, verity items use partitions, and file systems use
  // partitions or verity items.
  ghost predicate UsersFit(parts: seq<Partition>, vs: seq<Verity>, fss: seq<FileSystem>) {
    && (forall u, w, id :: IsUser(vs, fss, u, id) && IsUser(vs, fss, w, id) ==> u == w)
    && (forall i, id :: IsUser(vs, fss, ByVerity(i), id) ==> HasPartition(parts, id))
    && forall k :: 0 <= k < |fss| ==> HasPartition(parts, fss[k].deviceId) || HasVerity(vs, fss[k].deviceId)
  }

  // The mount points of a file system: its own, and those of its subvolumes.
  function MountAt(fs: FileSystem, site: nat): Option<MountPoint> {
    if site == 0 then fs.mountPoint else if site <= |fs.subvolumes| then fs.subvolumes[site - 1].mountPoint else None
  }

  predicate IsMountedOn(fs: FileSystem, site: nat, path: string) {
    MountAt(fs, site).Some? && MountAt(fs, site).value.path == path
  }

  predicate HasIdType(fs: FileSystem, site: nat, idType: IdType) {
    MountAt(fs, site).Some? && MountAt(fs, site).value.idType == idType
  }

  // No two mount points have the same path.
  ghost predicate PathsDiffer(fss: seq<FileSystem>) {
    forall j, k, a: nat, b: nat, path :: 0 <= j < |fss| && 0 <= k < |fss| && IsMountedOn(fss[j], a, path) && IsMountedOn(fss[k], b, path) ==>
      j == k && a == b
  }

  predicate IsOnlyLabel(parts: seq<Partition>, i: nat)
    requires i < |parts|
  {
    parts[i].name != "" && forall j :: 0 <= j < |parts| && parts[j].name == parts[i].name ==> j == i
  }

  // A label that is used to mount a partition is not empty, and no other
  // partition has it. Verity items are mounted by default only.
  ghost predicate LabelsFit(parts: seq<Partition>, vs: seq<Verity>, fs: FileSystem) {
    && (forall i, site: nat :: 0 <= i < |parts| && parts[i].id == fs.deviceId && HasIdType(fs, site, PartLabel) ==> IsOnlyLabel(parts, i))
    && (HasVerity(vs, fs.deviceId) ==> forall site: nat :: MountAt(fs, site).Some? ==> MountAt(fs, site).value.idType == DefaultId)
  }

  // ---------------------------------------------------------------- the items

  lemma ItemsAre(disks: seq<seq<Partition>>, vs: seq<Verity>, fss: seq<FileSystem>)
    ensures IsConsistent(disks, vs, fss) ==> ItemsFit(disks, vs, fss)
    ensures ItemsFit(disks, vs, fss) ==> IsConsistent(disks, vs, fss)
  {
    if IsConsistent(disks, vs, fss) {
      forall i | 0 <= i < |vs| ensures if disks == [] then ByDevices(vs[i]) else ByIds(vs[i]) {
        assert IsValidVerity(vs[i]);
      }
      forall k | 0 <= k < |fss| ensures fss[k].deviceId != "" && (fss[k].subvolumes == [] || fss[k].mountPoint.None?) {
        assert IsValidFileSystem(fss[k]);
      }
    }
    if ItemsFit(disks, vs, fss) {
      forall k | 0 <= k < |vs| ensures IsValidVerity(vs[k]) {
      }
      forall k | 0 <= k < |fss| ensures IsValidFileSystem(fss[k]) {
      }
      assert fss != [] ==> fss[0].deviceId != "";
      assert disks == [] ==> !UsesConfig(vs);
      assert disks != [] ==> !UsesExisting(vs);
    }
  }

  lemma IdsAre(parts: seq<Partition>, vs: seq<Verity>)
    ensures NoDuplicates(PartitionIds(parts) + VerityIds(vs)) <==> IdsDiffer(parts, vs)
  {
    var a, b := PartitionIds(parts), VerityIds(vs);
    AppendDistinct(a, b);
    if AreDisjoint(a, b) {
      forall i, j | 0 <= i < |parts| && 0 <= j < |vs| ensures parts[i].id != vs[j].id {
        assert a[i] !in b && b[j] in b;
      }
    }
  }

  // With different ids there is a device for each.
  lemma {:induction false} PartitionDevices(parts: seq<Partition>) returns (m: map<string, Device>)
    requires forall i, j :: 0 <= i < j < |parts| ==> parts[i].id != parts[j].id
    ensures IsDeviceMap(m, parts, [])
  {
    if parts == [] {
      m := map[];
    } else {
      var n := |parts| - 1;
      m := PartitionDevices(parts[..n]);
      OnePartitionMore(m, parts, n);
      m := m[parts[n].id := PartitionDevice(parts[n])];
    }
  }

  lemma OnePartitionMore(m: map<string, Device>, parts: seq<Partition>, n: nat)
    requires |parts| == n + 1 && IsDeviceMap(m, parts[..n], [])
    requires forall i, j :: 0 <= i < j < |parts| ==> parts[i].id != parts[j].id
    ensures IsDeviceMap(m[parts[n].id := PartitionDevice(parts[n])], parts, [])
  {
    assert parts == parts[..n] + [parts[n]];
    assert PartitionIds(parts) == PartitionIds(parts[..n]) + [parts[n].id];
  }

  lemma {:induction false} Devices(parts: seq<Partition>, vs: seq<Verity>, i: nat) returns (m: map<string, Device>)
    requires i <= |vs| && IdsDiffer(parts, vs)
    ensures IsDeviceMap(m, parts, vs[..i])
  {
    if i == 0 {
      m := PartitionDevices(parts);
      assert vs[..0] == [];
    } else {
      m := Devices(parts, vs, i - 1);
      OneVerityMore(m, parts, vs, i - 1);
      m := m[vs[i - 1].id := VerityDevice(vs[i - 1])];
    }
  }

  lemma OneVerityMore(m: map<string, Device>, parts: seq<Partition>, vs: seq<Verity>, n: nat)
    requires n < |vs| && IsDeviceMap(m, parts, vs[..n]) && IdsDiffer(parts, vs)
    ensures IsDeviceMap(m[vs[n].id := VerityDevice(vs[n])], parts, vs[..n + 1])
  {
    assert vs[..n + 1] == vs[..n] + [vs[n]];
    assert VerityIds(vs[..n + 1]) == VerityIds(vs[..n]) + [vs[n].id];
  }

  lemma DeviceIs(devices: map<string, Device>, parts: seq<Partition>, vs: seq<Verity>, id: string)
    requires IsDeviceMap(devices, parts, vs) && IdsDiffer(parts, vs)
    ensures id in devices <==> HasPartition(parts, id) || HasVerity(vs, id)
    ensures id in devices ==> (devices[id].PartitionDevice? <==> HasPartition(parts, id))
    ensures id in devices ==> (devices[id].VerityDevice? <==> HasVerity(vs, id))
  {
    if HasPartition(parts, id) {
      var k :| 0 <= k < |parts| && parts[k].id == id;
      assert PartitionIds(parts)[k] == id && devices[parts[k].id] == PartitionDevice(parts[k]);
    }
    if HasVerity(vs, id) {
      var k :| 0 <= k < |vs| && vs[k].id == id;
      assert VerityIds(vs)[k] == id && devices[vs[k].id] == VerityDevice(vs[k]);
    }
  }

  // ----------------------------------------------------------------- the users

  lemma {:induction false} VerityUseIs(vs: seq<Verity>, i: nat, id: string)
    ensures Use(id, ByVerity(i)) in VerityUses(vs) <==> IsUser(vs, [], ByVerity(i), id)
    decreases |vs|
  {
    if vs == [] {
    } else {
      var n := |vs| - 1;
      VerityUseIs(vs[..n], i, id);
      var last := DataUse(vs[n], n) + HashUse(vs[n], n);
      InBoth(VerityUses(vs[..n]), last, Use(id, ByVerity(i)));
      LastUses(vs[n], n, i, id);
    }
  }

  lemma InBoth(a: seq<Use>, b: seq<Use>, u: Use)
    ensures u in a + b <==> u in a || u in b
  {
  }

  lemma LastUses(v: Verity, n: nat, i: nat, id: string)
    ensures Use(id, ByVerity(i)) in DataUse(v, n) + HashUse(v, n) <==> i == n && id != "" && (v.dataDeviceId == id || v.hashDeviceId == id)
  {
    InBoth(DataUse(v, n), HashUse(v, n), Use(id, ByVerity(i)));
  }

  lemma OnlyVerity(vs: seq<Verity>, u: Use)
    requires u in VerityUses(vs)
    ensures u.parent.ByVerity?
  {
    var k :| 0 <= k < |VerityUses(vs)| && VerityUses(vs)[k] == u;
    OnlyVerityUses(vs, k);
  }

  lemma UseIs(vs: seq<Verity>, fss: seq<FileSystem>, u: Use)
    ensures u in Uses(vs, fss) <==> IsUser(vs, fss, u.parent, u.id)
  {
    hide VerityUses;
    InBoth(VerityUses(vs), FileSystemUses(fss), u);
    match u.parent {
      case ByVerity(i) =>
        VerityUseIs(vs, i, u.id);
        assert u == Use(u.id, ByVerity(i));
      case ByFileSystem(k) =>
        if u in VerityUses(vs) {
          OnlyVerity(vs, u);
        }
        if k < |fss| {
          assert FileSystemUses(fss)[k] == Use(fss[k].deviceId, ByFileSystem(k));
        }
    }
  }

  // Each use is listed once.
  lemma {:induction false} VerityUsesDiffer(vs: seq<Verity>, p: nat, q: nat)
    requires p < q < |VerityUses(vs)|
    ensures VerityUses(vs)[p] != VerityUses(vs)[q]
    decreases |vs|
  {
    var n := |vs| - 1;
    var before, last := VerityUses(vs[..n]), DataUse(vs[n], n) + HashUse(vs[n], n);
    if q < |before| {
      VerityUsesDiffer(vs[..n], p, q);
    } else if p < |before| {
      OnlyVerityUses(vs[..n], p);
      assert VerityUses(vs)[p] == before[p] && VerityUses(vs)[q] == last[q - |before|];
    } else {
      assert VerityUses(vs)[p] == last[p - |before|] && VerityUses(vs)[q] == last[q - |before|];
    }
  }

  lemma UsesDiffer(vs: seq<Verity>, fss: seq<FileSystem>, p: nat, q: nat)
    requires p < q < |Uses(vs, fss)|
    ensures Uses(vs, fss)[p] != Uses(vs, fss)[q]
  {
    hide VerityUses;
    var n := |VerityUses(vs)|;
    if q < n {
      VerityUsesDiffer(vs, p, q);
    } else if p < n {
      OnlyVerityUses(vs, p);
    }
  }

  // No device is listed twice exactly when each has one user.
  lemma OneUserEach(vs: seq<Verity>, fss: seq<FileSystem>)
    ensures (forall p, q :: 0 <= p < q < |Uses(vs, fss)| ==> Uses(vs, fss)[p].id != Uses(vs, fss)[q].id) <==>
      (forall u, w, id :: IsUser(vs, fss, u, id) && IsUser(vs, fss, w, id) ==> u == w)
  {
    hide *;
    var uses := Uses(vs, fss);
    if forall u, w, id :: IsUser(vs, fss, u, id) && IsUser(vs, fss, w, id) ==> u == w {
      forall p, q | 0 <= p < q < |uses| ensures uses[p].id != uses[q].id {
        UseIs(vs, fss, uses[p]);
        UseIs(vs, fss, uses[q]);
        UsesDiffer(vs, fss, p, q);
      }
    }
    if forall p, q :: 0 <= p < q < |uses| ==> uses[p].id != uses[q].id {
      forall u, w, id | IsUser(vs, fss, u, id) && IsUser(vs, fss, w, id) ensures u == w {
        UseIs(vs, fss, Use(id, u));
        UseIs(vs, fss, Use(id, w));
        var p :| 0 <= p < |uses| && uses[p] == Use(id, u);
        var q :| 0 <= q < |uses| && uses[q] == Use(id, w);
      }
    }
  }

  lemma UsersAre(devices: map<string, Device>, parts: seq<Partition>, vs: seq<Verity>, fss: seq<FileSystem>)
    requires IsDeviceMap(devices, parts, vs) && IdsDiffer(parts, vs)
    ensures (&& Addable(devices, map[], Uses(vs, fss)) && ArePartitions(devices, VerityUses(vs))) <==> UsersFit(parts, vs, fss)
  {
    AddableMeans(devices, map[], Uses(vs, fss));
    OneUserEach(vs, fss);
    hide Addable, IsDeviceMap, HasPartition, HasVerity, IsUser, Uses, VerityUses, IdsDiffer;
    if UsesAreSound(devices, map[], Uses(vs, fss)) && ArePartitions(devices, VerityUses(vs)) {
      forall i, id | IsUser(vs, fss, ByVerity(i), id) ensures HasPartition(parts, id) {
        VerityIsPartition(devices, parts, vs, fss, i, id);
      }
      forall k | 0 <= k < |fss| ensures HasPartition(parts, fss[k].deviceId) || HasVerity(vs, fss[k].deviceId) {
        FileSystemIsUser(vs, fss, k);
        DeviceIs(devices, parts, vs, fss[k].deviceId);
        var p :| 0 <= p < |Uses(vs, fss)| && Uses(vs, fss)[p] == Use(fss[k].deviceId, ByFileSystem(k));
      }
    }
    if UsersFit(parts, vs, fss) {
      forall p | 0 <= p < |Uses(vs, fss)| ensures Uses(vs, fss)[p].id in devices {
        UserIsDevice(devices, parts, vs, fss, Uses(vs, fss)[p]);
      }
      forall p | 0 <= p < |VerityUses(vs)| ensures VerityUses(vs)[p].id in devices && devices[VerityUses(vs)[p].id].PartitionDevice? {
        VerityUserIsPartition(devices, parts, vs, fss, p);
      }
    }
  }

  lemma VerityIsPartition(devices: map<string, Device>, parts: seq<Partition>, vs: seq<Verity>, fss: seq<FileSystem>, i: nat, id: string)
    requires IsDeviceMap(devices, parts, vs) && IdsDiffer(parts, vs) && ArePartitions(devices, VerityUses(vs))
    requires IsUser(vs, fss, ByVerity(i), id)
    ensures HasPartition(parts, id)
  {
    hide VerityUses, IsDeviceMap, HasPartition, IdsDiffer;
    VerityUseIs(vs, i, id);
    var p :| 0 <= p < |VerityUses(vs)| && VerityUses(vs)[p] == Use(id, ByVerity(i));
    DeviceIs(devices, parts, vs, id);
  }

  lemma UserIsDevice(devices: map<string, Device>, parts: seq<Partition>, vs: seq<Verity>, fss: seq<FileSystem>, u: Use)
    requires IsDeviceMap(devices, parts, vs) && IdsDiffer(parts, vs) && UsersFit(parts, vs, fss) && u in Uses(vs, fss)
    ensures u.id in devices
  {
    hide Uses, IsDeviceMap, HasPartition, IdsDiffer, HasVerity;
    UseIs(vs, fss, u);
    DeviceIs(devices, parts, vs, u.id);
  }

  lemma VerityUserIsPartition(devices: map<string, Device>, parts: seq<Partition>, vs: seq<Verity>, fss: seq<FileSystem>, p: nat)
    requires IsDeviceMap(devices, parts, vs) && IdsDiffer(parts, vs) && UsersFit(parts, vs, fss) && p < |VerityUses(vs)|
    ensures VerityUses(vs)[p].id in devices && devices[VerityUses(vs)[p].id].PartitionDevice?
  {
    hide VerityUses, IsDeviceMap, HasPartition, IdsDiffer, HasVerity;
    var u := VerityUses(vs)[p];
    OnlyVerity(vs, u);
    InBoth(VerityUses(vs), FileSystemUses(fss), u);
    UseIs(vs, fss, u);
    DeviceIs(devices, parts, vs, u.id);
  }

  // ----------------------------------------------------------- the mount points

  lemma FileSystemPathIn(fs: FileSystem, path: string)
    ensures path in FileSystemPaths(fs) <==> exists site: nat :: IsMountedOn(fs, site, path)
  {
    SubvolumePathIn(fs.subvolumes, path);
    OwnSite(fs, path);
    InAppended(OwnPath(fs.mountPoint), SubvolumePaths(fs.subvolumes), path);
    FileSystemPathsFrom(fs);
    hide *;
    if k :| 0 <= k < |fs.subvolumes| && MountsOn(fs.subvolumes, k, path) {
      SubvolumeSite(fs, k, path);
      assert IsMountedOn(fs, k + 1, path);
    }
    if site: nat :| IsMountedOn(fs, site, path) {
      if site > 0 {
        SubvolumeSite(fs, site - 1, path);
      }
    }
  }

  // A site is the file system itself or one of its subvolumes.
  lemma OwnSite(fs: FileSystem, path: string)
    ensures IsMountedOn(fs, 0, path) <==> path in OwnPath(fs.mountPoint)
    ensures IsMountedOn(fs, 0, path) <==> fs.mountPoint.Some? && fs.mountPoint.value.path == path
  {
  }

  lemma SubvolumeSite(fs: FileSystem, k: nat, path: string)
    ensures IsMountedOn(fs, k + 1, path) <==> k < |fs.subvolumes| && MountsOn(fs.subvolumes, k, path)
  {
  }

  // Within one file system.
  ghost predicate OwnPathsDiffer(fs: FileSystem) {
    forall a: nat, b: nat, path :: IsMountedOn(fs, a, path) && IsMountedOn(fs, b, path) ==> a == b
  }

  lemma OwnPathsAre(fs: FileSystem)
    ensures NoDuplicates(FileSystemPaths(fs)) <==> OwnPathsDiffer(fs)
  {
    DistinctWithin(fs);
    hide NoDuplicates, FileSystemPaths, SubvolumesDiffer, MountsOn, IsMountedOn;
    if NoDuplicates(FileSystemPaths(fs)) {
      forall a: nat, b: nat, path | IsMountedOn(fs, a, path) && IsMountedOn(fs, b, path) ensures a == b {
        SitesAreOne(fs, a, b, path);
        SitesAreOne(fs, b, a, path);
      }
    }
    if OwnPathsDiffer(fs) {
      SubvolumesApart(fs);
    }
  }

  lemma SubvolumesApart(fs: FileSystem)
    requires OwnPathsDiffer(fs)
    ensures SubvolumesDiffer(fs.subvolumes)
    ensures fs.mountPoint.Some? ==> forall k :: 0 <= k < |fs.subvolumes| ==> !MountsOn(fs.subvolumes, k, fs.mountPoint.value.path)
  {
    hide IsMountedOn, MountsOn;
    forall k, path | 0 <= k < |fs.subvolumes| && MountsOn(fs.subvolumes, k, path) ensures IsMountedOn(fs, k + 1, path) {
      SubvolumeSite(fs, k, path);
    }
    if fs.mountPoint.Some? {
      OwnSite(fs, fs.mountPoint.value.path);
    }
  }

  lemma SitesAreOne(fs: FileSystem, a: nat, b: nat, path: string)
    requires SubvolumesDiffer(fs.subvolumes)
    requires fs.mountPoint.Some? ==> forall k :: 0 <= k < |fs.subvolumes| ==> !MountsOn(fs.subvolumes, k, fs.mountPoint.value.path)
    requires IsMountedOn(fs, a, path) && IsMountedOn(fs, b, path)
    ensures a >= b
  {
    if b > 0 {
      assert MountsOn(fs.subvolumes, b - 1, path);
      if a > 0 {
        assert MountsOn(fs.subvolumes, a - 1, path);
      }
    }
  }

  lemma PathsAre(fss: seq<FileSystem>)
    ensures NoDuplicates(MountPaths(fss)) <==> PathsDiffer(fss)
  {
    DistinctPaths(fss);
    hide *;
    forall k | 0 <= k < |fss| ensures NoDuplicates(FileSystemPaths(fss[k])) <==> OwnPathsDiffer(fss[k]) {
      OwnPathsAre(fss[k]);
    }
    forall j, k | 0 <= j < |fss| && 0 <= k < |fss| ensures AreDisjoint(FileSystemPaths(fss[j]), FileSystemPaths(fss[k])) <==> ApartIn(fss[j], fss[k]) {
      DisjointIs(fss[j], fss[k]);
    }
    Pairwise(fss);
  }

  ghost predicate ApartIn(x: FileSystem, y: FileSystem) {
    forall a: nat, b: nat, path :: IsMountedOn(x, a, path) ==> !IsMountedOn(y, b, path)
  }

  lemma Pairwise(fss: seq<FileSystem>)
    ensures PathsDiffer(fss) <==>
      && (forall k :: 0 <= k < |fss| ==> OwnPathsDiffer(fss[k]))
      && forall j, k :: 0 <= j < k < |fss| ==> ApartIn(fss[j], fss[k])
  {
    hide IsMountedOn;
    if PathsDiffer(fss) {
      forall k | 0 <= k < |fss| ensures OwnPathsDiffer(fss[k]) {
      }
    }
    if (forall k :: 0 <= k < |fss| ==> OwnPathsDiffer(fss[k])) && forall j, k :: 0 <= j < k < |fss| ==> ApartIn(fss[j], fss[k]) {
      forall j, k, a: nat, b: nat, path | 0 <= j < |fss| && 0 <= k < |fss| && IsMountedOn(fss[j], a, path) && IsMountedOn(fss[k], b, path)
        ensures j == k && a == b
      {
        assert !ApartIn(fss[j], fss[k]) && !ApartIn(fss[k], fss[j]);
        assert OwnPathsDiffer(fss[k]);
      }
    }
  }

  lemma DisjointIs(x: FileSystem, y: FileSystem)
    ensures AreDisjoint(FileSystemPaths(x), FileSystemPaths(y)) <==> ApartIn(x, y)
  {
    hide FileSystemPaths, IsMountedOn;
    var p, q := FileSystemPaths(x), FileSystemPaths(y);
    forall path ensures path in p <==> exists site: nat :: IsMountedOn(x, site, path) {
      FileSystemPathIn(x, path);
    }
    forall path ensures path in q <==> exists site: nat :: IsMountedOn(y, site, path) {
      FileSystemPathIn(y, path);
    }
    if AreDisjoint(p, q) {
      forall a: nat, b: nat, path | IsMountedOn(x, a, path) ensures !IsMountedOn(y, b, path) {
        assert path in p;
      }
    }
    if ApartIn(x, y) {
      forall k | 0 <= k < |p| ensures p[k] !in q {
        assert p[k] in p;
      }
    }
  }

  // ---------------------------------------------------------------- the labels

  lemma {:induction false} LabelCountIs(parts: seq<Partition>, name: string)
    ensures LabelCount(parts, name) == 0 <==> forall k :: 0 <= k < |parts| ==> parts[k].name != name
    ensures LabelCount(parts, name) <= 1 <==> forall i, j :: 0 <= i < j < |parts| ==> parts[i].name != name || parts[j].name != name
  {
    if parts == [] {
    } else {
      var n := |parts| - 1;
      LabelCountIs(parts[..n], name);
      assert forall k :: 0 <= k < n ==> parts[..n][k] == parts[k];
      if parts[n].name == name {
        assert LabelCount(parts, name) == LabelCount(parts[..n], name) + 1;
      }
    }
  }

  lemma MountTypes(fs: FileSystem)
    ensures MountsByLabel(fs) <==> exists site: nat :: HasIdType(fs, site, PartLabel)
    ensures MountsByDefault(fs) <==> forall site: nat :: MountAt(fs, site).Some? ==> MountAt(fs, site).value.idType == DefaultId
  {
    if MountsByLabel(fs) {
      if fs.mountPoint.Some? && fs.mountPoint.value.idType.PartLabel? {
        assert HasIdType(fs, 0, PartLabel);
      } else {
        var k :| 0 <= k < |fs.subvolumes| && SubvolumeHasType(fs.subvolumes[k], PartLabel);
        assert HasIdType(fs, k + 1, PartLabel);
      }
    }
    if exists site: nat :: HasIdType(fs, site, PartLabel) {
      var site: nat :| HasIdType(fs, site, PartLabel);
      assert site == 0 || SubvolumeHasType(fs.subvolumes[site - 1], PartLabel);
    }
    if forall site: nat :: MountAt(fs, site).Some? ==> MountAt(fs, site).value.idType == DefaultId {
      assert MountAt(fs, 0) == fs.mountPoint;
      forall k | 0 <= k < |fs.subvolumes| ensures fs.subvolumes[k].mountPoint.None? || SubvolumeHasType(fs.subvolumes[k], DefaultId) {
        assert MountAt(fs, k + 1) == fs.subvolumes[k].mountPoint;
      }
    }
    if MountsByDefault(fs) {
      forall site: nat | MountAt(fs, site).Some? ensures MountAt(fs, site).value.idType == DefaultId {
        assert site == 0 || SubvolumeHasType(fs.subvolumes[site - 1], DefaultId);
      }
    }
  }

  lemma LabelsAre(devices: map<string, Device>, parts: seq<Partition>, vs: seq<Verity>, fs: FileSystem)
    requires IsDeviceMap(devices, parts, vs) && IdsDiffer(parts, vs) && fs.deviceId in devices
    ensures IdTypesFit(fs, devices[fs.deviceId], parts) <==> LabelsFit(parts, vs, fs)
  {
    DeviceIs(devices, parts, vs, fs.deviceId);
    DeviceHasId(devices, parts, vs, fs.deviceId);
    MountTypes(fs);
    match devices[fs.deviceId] {
      case PartitionDevice(p) =>
        var i := PositionOf(parts, fs.deviceId, p);
        OtherLabels(parts, i);
        hide LabelCount, MountsByLabel, HasIdType, IsDeviceMap, HasVerity, IsOnlyLabel;
        OnlyLabelled(parts, vs, fs, i);
      case VerityDevice(_) =>
        hide MountsByDefault, HasIdType, IsDeviceMap;
    }
  }

  lemma OnlyLabelled(parts: seq<Partition>, vs: seq<Verity>, fs: FileSystem, i: nat)
    requires i < |parts| && (forall j :: 0 <= j < |parts| && parts[j].id == fs.deviceId <==> j == i) && !HasVerity(vs, fs.deviceId)
    ensures LabelsFit(parts, vs, fs) <==> ((exists site: nat :: HasIdType(fs, site, PartLabel)) ==> IsOnlyLabel(parts, i))
  {
    hide HasIdType, IsOnlyLabel, HasVerity;
  }

  lemma PositionOf(parts: seq<Partition>, id: string, p: Partition) returns (i: nat)
    requires p in parts && p.id == id
    requires forall i, j :: 0 <= i < j < |parts| ==> parts[i].id != parts[j].id
    ensures i < |parts| && parts[i] == p && forall j :: 0 <= j < |parts| && parts[j].id == id <==> j == i
  {
    i :| i < |parts| && parts[i] == p;
  }

  lemma OtherLabels(parts: seq<Partition>, i: nat)
    requires i < |parts|
    ensures IsOnlyLabel(parts, i) <==> parts[i].name != "" && LabelCount(parts, parts[i].name) <= 1
  {
    LabelCountIs(parts, parts[i].name);
  }

  // ------------------------------------------------------------ the main result

  // A storage configuration is accepted exactly when its items fit, all ids
  // differ, each device has one user of the right kind, no path is mounted on
  // twice, and labels identify what is mounted by them.
  lemma ForestMeans(disks: seq<seq<Partition>>, vs: seq<Verity>, fss: seq<FileSystem>)
    ensures IsForest(disks, vs, fss) <==>
      var parts := if disks == [] then [] else disks[0];
      && ItemsFit(disks, vs, fss) && IdsDiffer(parts, vs) && UsersFit(parts, vs, fss) && PathsDiffer(fss)
      && forall k :: 0 <= k < |fss| ==> LabelsFit(parts, vs, fss[k])
  {
    hide *;
    ForestIs(disks, vs, fss);
    ItemsAre(disks, vs, fss);
    if IsConsistent(disks, vs, fss) {
      OneDisk(disks, vs, fss);
      var parts := if disks == [] then [] else disks[0];
      IdsAre(parts, vs);
      if IdsDiffer(parts, vs) {
        var devices := Devices(parts, vs, |vs|);
        assert vs[..|vs|] == vs;
        TheDeviceMap(devices, disks, vs, fss);
        TreeMeans(devices, parts, vs, fss);
      }
    }
  }

  lemma OneDisk(disks: seq<seq<Partition>>, vs: seq<Verity>, fss: seq<FileSystem>)
    requires IsConsistent(disks, vs, fss)
    ensures AllPartitions(disks) == if disks == [] then [] else disks[0]
  {
    if disks != [] {
      assert AllPartitions(disks[..0]) == [] && [] + disks[0] == disks[0];
    }
  }

  lemma TreeMeans(devices: map<string, Device>, parts: seq<Partition>, vs: seq<Verity>, fss: seq<FileSystem>)
    requires IsDeviceMap(devices, parts, vs) && IdsDiffer(parts, vs)
    ensures IsTree(devices, parts, vs, fss) <==>
      UsersFit(parts, vs, fss) && PathsDiffer(fss) && forall k :: 0 <= k < |fss| ==> LabelsFit(parts, vs, fss[k])
  {
    hide *;
    TreeIs(devices, parts, vs, fss);
    UsersAre(devices, parts, vs, fss);
    PathsAre(fss);
    forall k | 0 <= k < |fss| && fss[k].deviceId in devices
      ensures IdTypesFit(fss[k], devices[fss[k].deviceId], parts) <==> LabelsFit(parts, vs, fss[k])
    {
      LabelsAre(devices, parts, vs, fss[k]);
    }
    if UsersFit(parts, vs, fss) {
      forall k | 0 <= k < |fss| ensures fss[k].deviceId in devices {
        FileSystemIsUser(vs, fss, k);
        UserIsDevice(devices, parts, vs, fss, Use(fss[k].deviceId, ByFileSystem(k)));
      }
    }
  }

  lemma TreeIs(devices: map<string, Device>, parts: seq<Partition>, vs: seq<Verity>, fss: seq<FileSystem>)
    ensures IsTree(devices, parts, vs, fss) <==>
      && Addable(devices, map[], Uses(vs, fss)) && ArePartitions(devices, VerityUses(vs)) && NoDuplicates(MountPaths(fss))
      && forall k :: 0 <= k < |fss| ==> fss[k].deviceId in devices && IdTypesFit(fss[k], devices[fss[k].deviceId], parts)
  {
    hide Addable, ArePartitions, MountPaths, IdTypesFit;
  }
}
