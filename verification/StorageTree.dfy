// The tree of block devices that a storage configuration describes
// (toolkit/tools/imagecustomizerapi/storage.go:318-513), and the checks before
// it that it relies on (storage.go:52-130).
module StorageTree {
  import opened Sequences
  import opened Wrappers

  datatype Partition = Partition(id: string, name: string)

  // What a device reference that is not an id stands for is irrelevant here.
  datatype Verity = Verity(id: string, dataDeviceId: string, hasDataDevice: bool, hashDeviceId: string, hasHashDevice: bool)

  datatype IdType = DefaultId | PartLabel | OtherId

  datatype MountPoint = MountPoint(path: string, idType: IdType)

  datatype Subvolume = Subvolume(path: string, mountPoint: Option<MountPoint>)

  datatype FileSystem = FileSystem(deviceId: string, mountPoint: Option<MountPoint>, subvolumes: seq<Subvolume>, partitionId: string)

  datatype Device = PartitionDevice(partition: Partition) | VerityDevice(verity: Verity)

  // What uses a device: an item of the verity or of the file system list.
  datatype Parent = ByVerity(index: nat) | ByFileSystem(index: nat)

  // --------------------------------------------------------------- devices

  function AllPartitions(disks: seq<seq<Partition>>): seq<Partition> {
    if disks == [] then [] else AllPartitions(disks[..|disks| - 1]) + disks[|disks| - 1]
  }

  function PartitionIds(parts: seq<Partition>): (r: seq<string>)
    ensures |r| == |parts| && forall k :: 0 <= k < |r| ==> r[k] == parts[k].id
  {
    seq(|parts|, k requires 0 <= k < |parts| => parts[k].id)
  }

  function VerityIds(vs: seq<Verity>): (r: seq<string>)
    ensures |r| == |vs| && forall k :: 0 <= k < |r| ==> r[k] == vs[k].id
  {
    seq(|vs|, k requires 0 <= k < |vs| => vs[k].id)
  }

  // Every id stands for the device that has it.
  ghost predicate IsDeviceMap(m: map<string, Device>, parts: seq<Partition>, vs: seq<Verity>) {
    && (forall id :: id in m <==> id in PartitionIds(parts) || id in VerityIds(vs))
    && (forall k :: 0 <= k < |parts| ==> parts[k].id in m && m[parts[k].id] == PartitionDevice(parts[k]))
    && (forall k :: 0 <= k < |vs| ==> vs[k].id in m && m[vs[k].id] == VerityDevice(vs[k]))
  }

  // How many partitions have that label.
  function LabelCount(parts: seq<Partition>, name: string): nat {
    if parts == [] then 0
    else LabelCount(parts[..|parts| - 1], name) + if parts[|parts| - 1].name == name then 1 else 0
  }

  ghost predicate IsLabelCounts(m: map<string, nat>, parts: seq<Partition>) {
    forall name :: (if name in m then m[name] else 0) == LabelCount(parts, name)
  }

  // ------------------------------------------------------------------ uses

  datatype Use = Use(id: string, parent: Parent)

  predicate IsInline(v: Verity) {
    v.dataDeviceId != "" && v.dataDeviceId == v.hashDeviceId
  }

  function DataUse(v: Verity, i: nat): seq<Use> {
    if v.dataDeviceId != "" then [Use(v.dataDeviceId, ByVerity(i))] else []
  }

  function HashUse(v: Verity, i: nat): seq<Use> {
    if v.hashDeviceId != "" && !IsInline(v) then [Use(v.hashDeviceId, ByVerity(i))] else []
  }

  function VerityUses(vs: seq<Verity>): seq<Use> {
    if vs == [] then []
    else
      var n := |vs| - 1;
      VerityUses(vs[..n]) + (DataUse(vs[n], n) + HashUse(vs[n], n))
  }

  function FileSystemUses(fss: seq<FileSystem>): (r: seq<Use>)
    ensures |r| == |fss| && forall k :: 0 <= k < |r| ==> r[k] == Use(fss[k].deviceId, ByFileSystem(k))
  {
    seq(|fss|, k requires 0 <= k < |fss| => Use(fss[k].deviceId, ByFileSystem(k)))
  }

  // The devices can be given these parents, one after the other.
  predicate Addable(devices: map<string, Device>, parents: map<string, Parent>, uses: seq<Use>)
    decreases |uses|
  {
    uses == [] ||
    (uses[0].id in devices && uses[0].id !in parents && Addable(devices, parents[uses[0].id := uses[0].parent], uses[1..]))
  }

  function AddAll(parents: map<string, Parent>, uses: seq<Use>): map<string, Parent>
    decreases |uses|
  {
    if uses == [] then parents else AddAll(parents[uses[0].id := uses[0].parent], uses[1..])
  }

  lemma {:induction false} AddableAppend(devices: map<string, Device>, parents: map<string, Parent>, a: seq<Use>, b: seq<Use>)
    ensures Addable(devices, parents, a + b) <==> Addable(devices, parents, a) && Addable(devices, AddAll(parents, a), b)
    ensures AddAll(parents, a + b) == AddAll(AddAll(parents, a), b)
    decreases |a|
  {
    if a == [] {
      assert a + b == b;
    } else {
      assert (a + b)[1..] == a[1..] + b;
      AddableAppend(devices, parents[a[0].id := a[0].parent], a[1..], b);
    }
  }

  predicate ArePartitions(devices: map<string, Device>, uses: seq<Use>) {
    forall k :: 0 <= k < |uses| ==> uses[k].id in devices && devices[uses[k].id].PartitionDevice?
  }

  // ----------------------------------------------------------- mount points

  function OwnPath(mount: Option<MountPoint>): seq<string> {
    if mount.Some? then [mount.value.path] else []
  }

  function SubvolumePaths(subvolumes: seq<Subvolume>): seq<string> {
    if subvolumes == [] then []
    else SubvolumePaths(subvolumes[..|subvolumes| - 1]) + OwnPath(subvolumes[|subvolumes| - 1].mountPoint)
  }

  function FileSystemPaths(fs: FileSystem): seq<string> {
    OwnPath(fs.mountPoint) + SubvolumePaths(fs.subvolumes)
  }

  function MountPaths(fss: seq<FileSystem>): seq<string> {
    if fss == [] then [] else MountPaths(fss[..|fss| - 1]) + FileSystemPaths(fss[|fss| - 1])
  }

  // The file system, or one of its subvolumes, is mounted by partition label.
  predicate MountsByLabel(fs: FileSystem) {
    || (fs.mountPoint.Some? && fs.mountPoint.value.idType.PartLabel?)
    || exists k :: 0 <= k < |fs.subvolumes| && SubvolumeHasType(fs.subvolumes[k], PartLabel)
  }

  predicate SubvolumeHasType(subvolume: Subvolume, idType: IdType) {
    subvolume.mountPoint.Some? && subvolume.mountPoint.value.idType == idType
  }

  predicate MountsByDefault(fs: FileSystem) {
    && (fs.mountPoint.Some? ==> fs.mountPoint.value.idType.DefaultId?)
    && forall k :: 0 <= k < |fs.subvolumes| ==> fs.subvolumes[k].mountPoint.None? || SubvolumeHasType(fs.subvolumes[k], DefaultId)
  }

  // A label identifies a partition; a verity device has no other identifier.
  predicate IdTypesFit(fs: FileSystem, device: Device, parts: seq<Partition>) {
    match device
    case PartitionDevice(p) => MountsByLabel(fs) ==> p.name != "" && LabelCount(parts, p.name) <= 1
    case VerityDevice(_) => MountsByDefault(fs)
  }

  // The partition under a device.
  function PartitionOf(device: Device): string {
    match device
    case PartitionDevice(p) => p.id
    case VerityDevice(v) => v.dataDeviceId
  }

  // ------------------------------------------------------ what is accepted

  predicate IsTree(devices: map<string, Device>, parts: seq<Partition>, vs: seq<Verity>, fss: seq<FileSystem>) {
    && Addable(devices, map[], VerityUses(vs) + FileSystemUses(fss))
    && ArePartitions(devices, VerityUses(vs))
    && NoDuplicates(MountPaths(fss))
    && forall k :: 0 <= k < |fss| ==> fss[k].deviceId in devices && IdTypesFit(fss[k], devices[fss[k].deviceId], parts)
  }

  // The partition that a file system ends up on.
  function Resolved(fs: FileSystem, devices: map<string, Device>): FileSystem {
    if fs.deviceId in devices then fs.(partitionId := PartitionOf(devices[fs.deviceId])) else fs
  }

  // The same file systems, some or all of them resolved.
  predicate PartlyResolved(was: seq<FileSystem>, now: seq<FileSystem>, devices: map<string, Device>) {
    |now| == |was| && forall k :: 0 <= k < |was| ==> now[k] == was[k] || now[k] == Resolved(was[k], devices)
  }

  predicate AllResolved(was: seq<FileSystem>, now: seq<FileSystem>, devices: map<string, Device>) {
    |now| == |was| && forall k :: 0 <= k < |was| ==> now[k] == Resolved(was[k], devices)
  }

  // A file system on a partition has got that partition, and one on a verity item
  // the data device of the item; nothing else of it has changed.
  ghost predicate OnItsPartition(parts: seq<Partition>, vs: seq<Verity>, was: FileSystem, now: FileSystem) {
    && (forall i :: 0 <= i < |parts| && parts[i].id == was.deviceId ==> now == was.(partitionId := parts[i].id))
    && (forall i :: 0 <= i < |vs| && vs[i].id == was.deviceId ==> now == was.(partitionId := vs[i].dataDeviceId))
  }

  lemma ResolvedIsOnPartition(devices: map<string, Device>, parts: seq<Partition>, vs: seq<Verity>, fs: FileSystem)
    requires IsDeviceMap(devices, parts, vs)
    ensures OnItsPartition(parts, vs, fs, Resolved(fs, devices))
  {
    forall i | 0 <= i < |parts| && parts[i].id == fs.deviceId ensures devices[fs.deviceId] == PartitionDevice(parts[i]) {
    }
    forall i | 0 <= i < |vs| && vs[i].id == fs.deviceId ensures devices[fs.deviceId] == VerityDevice(vs[i]) {
    }
  }

  lemma AllOnPartitions(devices: map<string, Device>, parts: seq<Partition>, vs: seq<Verity>, was: seq<FileSystem>, now: seq<FileSystem>)
    requires IsDeviceMap(devices, parts, vs) && AllResolved(was, now, devices)
    ensures |now| == |was| && forall k :: 0 <= k < |was| ==> OnItsPartition(parts, vs, was[k], now[k])
  {
    hide IsDeviceMap, Resolved, OnItsPartition;
    forall k | 0 <= k < |was| ensures OnItsPartition(parts, vs, was[k], now[k]) {
      ResolvedIsOnPartition(devices, parts, vs, was[k]);
    }
  }

  predicate UsesConfig(vs: seq<Verity>) {
    exists k :: 0 <= k < |vs| && (vs[k].dataDeviceId != "" || vs[k].hashDeviceId != "")
  }

  predicate UsesExisting(vs: seq<Verity>) {
    exists k :: 0 <= k < |vs| && (vs[k].hasDataDevice || vs[k].hasHashDevice)
  }

  predicate IsValidVerity(v: Verity) {
    && v.id != ""
    && (v.dataDeviceId == "" <==> v.hasDataDevice)
    && (v.hashDeviceId == "" <==> v.hasHashDevice)
    && !((v.hashDeviceId != "" || v.dataDeviceId != "") && (v.hasHashDevice || v.hasDataDevice))
  }

  predicate IsValidFileSystem(fs: FileSystem) {
    fs.deviceId != "" && !(|fs.subvolumes| > 0 && fs.mountPoint.Some?)
  }

  // The checks of the single items, and of what is given together.
  predicate IsConsistent(disks: seq<seq<Partition>>, vs: seq<Verity>, fss: seq<FileSystem>) {
    && |disks| <= 1
    && (forall k :: 0 <= k < |vs| ==> IsValidVerity(vs[k]))
    && !(UsesConfig(vs) && UsesExisting(vs))
    && (forall k :: 0 <= k < |fss| ==> IsValidFileSystem(fss[k]))
    && (fss != [] ==> disks != [])
    && (UsesConfig(vs) ==> disks != [])
    && (UsesExisting(vs) ==> disks == [])
  }

  // The storage configurations that pass all of these checks.
  ghost predicate IsForest(disks: seq<seq<Partition>>, vs: seq<Verity>, fss: seq<FileSystem>) {
    var parts := AllPartitions(disks);
    && IsConsistent(disks, vs, fss)
    && NoDuplicates(PartitionIds(parts) + VerityIds(vs))
    && exists devices :: IsDeviceMap(devices, parts, vs) && IsTree(devices, parts, vs, fss)
  }

  // --------------------------------------------------------- the algorithm

  class Storage {
    const disks: seq<seq<Partition>>
    const verity: seq<Verity>
    const fileSystems: array<FileSystem>

    // Filled in while the configuration is checked.
    var deviceMap: map<string, Device>
    var partitionLabelCounts: map<string, nat>
    var deviceParents: map<string, Parent>
    var mountPaths: set<string>

    constructor (disks: seq<seq<Partition>>, verity: seq<Verity>, fileSystems: array<FileSystem>)
      ensures this.disks == disks && this.verity == verity && this.fileSystems == fileSystems
    {
      this.disks, this.verity, this.fileSystems := disks, verity, fileSystems;
      deviceMap, partitionLabelCounts, deviceParents, mountPaths := map[], map[], map[], {};
    }

    // The device map, unless two devices have the same id.
    method BuildDeviceMap() returns (ok: bool)
      modifies this`deviceMap, this`partitionLabelCounts
      ensures ok <==> NoDuplicates(PartitionIds(AllPartitions(disks)) + VerityIds(verity))
      ensures ok ==> IsDeviceMap(deviceMap, AllPartitions(disks), verity)
      ensures ok ==> IsLabelCounts(partitionLabelCounts, AllPartitions(disks))
    {
      hide IsDeviceMap, IsLabelCounts, AllPartitions, NoDuplicates;
      deviceMap := map[];
      partitionLabelCounts := map[];
      ghost var parts: seq<Partition> := [];
      NoDevices();
      for i := 0 to |disks|
        invariant parts == AllPartitions(disks[..i])
        invariant IsDeviceMap(deviceMap, parts, []) && IsLabelCounts(partitionLabelCounts, parts)
        invariant NoDuplicates(PartitionIds(parts))
      {
        NextDisk(disks, i);
        ghost var before := parts;
        assert before + disks[i][..0] == before;
        for j := 0 to |disks[i]|
          invariant parts == before + disks[i][..j]
          invariant IsDeviceMap(deviceMap, parts, []) && IsLabelCounts(partitionLabelCounts, parts)
          invariant NoDuplicates(PartitionIds(parts))
        {
          var partition := disks[i][j];
          assert before + disks[i][..j + 1] == parts + [partition];
          OneMorePartition(deviceMap, partitionLabelCounts, parts, partition);
          if partition.id in deviceMap {
            DuplicateWithin(before, disks[i], j + 1);
            DuplicateStays(disks, i + 1, verity);
            return false;
          }
          deviceMap := deviceMap[partition.id := PartitionDevice(partition)];
          var count := if partition.name in partitionLabelCounts then partitionLabelCounts[partition.name] else 0;
          partitionLabelCounts := partitionLabelCounts[partition.name := count + 1];
          parts := parts + [partition];
        }
        assert disks[i][..|disks[i]|] == disks[i];
      }
      assert disks[..|disks|] == disks;
      assert PartitionIds(parts) + VerityIds(verity[..0]) == PartitionIds(parts);
      assert verity[..0] == [];
      for i := 0 to |verity|
        invariant IsDeviceMap(deviceMap, parts, verity[..i]) && IsLabelCounts(partitionLabelCounts, parts)
        invariant NoDuplicates(PartitionIds(parts) + VerityIds(verity[..i]))
      {
        OneMoreVerity(deviceMap, parts, verity, i);
        if verity[i].id in deviceMap {
          DuplicateVerity(parts, verity, i + 1);
          return false;
        }
        deviceMap := deviceMap[verity[i].id := VerityDevice(verity[i])];
      }
      assert verity[..|verity|] == verity;
      return true;
    }

    // Makes parent the only user of a device.
    method AddParentToDevice(deviceId: string, parent: Parent) returns (device: Option<Device>)
      modifies this`deviceParents
      ensures device.Some? <==> deviceId in deviceMap && deviceId !in old(deviceParents)
      ensures device.Some? ==> device.value == deviceMap[deviceId]
      ensures deviceParents == if device.Some? then old(deviceParents)[deviceId := parent] else old(deviceParents)
    {
      if deviceId !in deviceMap {
        return None;
      }
      if deviceId in deviceParents {
        return None;
      }
      deviceParents := deviceParents[deviceId := parent];
      return Some(deviceMap[deviceId]);
    }

    method AddVerityParentToDevice(deviceId: string, i: nat) returns (ok: bool)
      modifies this`deviceParents
      ensures var use := [Use(deviceId, ByVerity(i))];
        && (ok <==> Addable(deviceMap, old(deviceParents), use) && ArePartitions(deviceMap, use))
        && (ok ==> deviceParents == AddAll(old(deviceParents), use))
    {
      var device := AddParentToDevice(deviceId, ByVerity(i));
      assert [Use(deviceId, ByVerity(i))][1..] == [];
      if device.None? {
        return false;
      }
      match device.value
      case PartitionDevice(_) => return true;
      case VerityDevice(_) => return false;
    }

    method CheckVerityItem(i: nat) returns (ok: bool)
      requires i < |verity|
      modifies this`deviceParents
      ensures var uses := DataUse(verity[i], i) + HashUse(verity[i], i);
        && (ok <==> Addable(deviceMap, old(deviceParents), uses) && ArePartitions(deviceMap, uses))
        && (ok ==> deviceParents == AddAll(old(deviceParents), uses))
    {
      hide Addable, AddAll, ArePartitions;
      var v := verity[i];
      AddableAppend(deviceMap, deviceParents, DataUse(v, i), HashUse(v, i));
      ArePartitionsAppend(deviceMap, DataUse(v, i), HashUse(v, i));
      NothingToAdd(deviceMap, deviceParents);
      if v.dataDeviceId != "" {
        ok := AddVerityParentToDevice(v.dataDeviceId, i);
        if !ok {
          return false;
        }
      }
      NothingToAdd(deviceMap, deviceParents);
      if v.hashDeviceId != "" && !IsInline(v) {
        ok := AddVerityParentToDevice(v.hashDeviceId, i);
        if !ok {
          return false;
        }
      }
      return true;
    }

    // Notes a mount path, unless it is taken.
    method AddMountPath(mount: Option<MountPoint>) returns (ok: bool)
      modifies this`mountPaths
      ensures ok <==> forall k :: 0 <= k < |OwnPath(mount)| ==> OwnPath(mount)[k] !in old(mountPaths)
      ensures ok ==> mountPaths == old(mountPaths) + set p | p in OwnPath(mount)
    {
      if mount.Some? {
        if mount.value.path in mountPaths {
          assert OwnPath(mount)[0] in mountPaths;
          return false;
        }
        mountPaths := mountPaths + {mount.value.path};
      }
      return true;
    }

    method AddMountPaths(fs: FileSystem, ghost before: seq<string>) returns (ok: bool)
      requires NoDuplicates(before) && mountPaths == Elements(before)
      modifies this`mountPaths
      ensures ok <==> NoDuplicates(before + FileSystemPaths(fs))
      ensures ok ==> mountPaths == Elements(before + FileSystemPaths(fs))
    {
      hide NoDuplicates, Elements, OwnPath, SubvolumePaths;
      OneMorePath(before, fs.mountPoint);
      FileSystemPathsFrom(fs);
      ok := AddMountPath(fs.mountPoint);
      if !ok {
        DuplicateRemains(before, OwnPath(fs.mountPoint), SubvolumePaths(fs.subvolumes));
        return;
      }
      ghost var own := before + OwnPath(fs.mountPoint);
      NoSubvolumes(own);
      assert fs.subvolumes[..0] == [];
      for i := 0 to |fs.subvolumes|
        invariant NoDuplicates(own + SubvolumePaths(fs.subvolumes[..i]))
        invariant mountPaths == Elements(own + SubvolumePaths(fs.subvolumes[..i]))
      {
        ghost var seen := own + SubvolumePaths(fs.subvolumes[..i]);
        SubvolumePathsStep(fs.subvolumes, i, own);
        OneMorePath(seen, fs.subvolumes[i].mountPoint);
        ok := AddMountPath(fs.subvolumes[i].mountPoint);
        if !ok {
          DuplicateAmongSubvolumes(own, fs.subvolumes, i + 1);
          Reassociate(before, OwnPath(fs.mountPoint), SubvolumePaths(fs.subvolumes));
          return;
        }
      }
      assert fs.subvolumes[..|fs.subvolumes|] == fs.subvolumes;
      Reassociate(before, OwnPath(fs.mountPoint), SubvolumePaths(fs.subvolumes));
      return true;
    }

    // Whether the mount points may identify their device the way they do.
    method CheckIdTypes(fs: FileSystem, device: Device) returns (ok: bool)
      requires IsLabelCounts(partitionLabelCounts, AllPartitions(disks))
      ensures ok <==> IdTypesFit(fs, device, AllPartitions(disks))
    {
      hide LabelCount, AllPartitions;
      match device
      case PartitionDevice(p) =>
        var checkDeviceLabelCount := false;
        if fs.mountPoint.Some? && fs.mountPoint.value.idType.PartLabel? {
          checkDeviceLabelCount := true;
          if p.name == "" {
            return false;
          }
        }
        for i := 0 to |fs.subvolumes|
          invariant checkDeviceLabelCount ==> MountsByLabel(fs) && p.name != ""
          invariant fs.mountPoint.Some? && fs.mountPoint.value.idType.PartLabel? ==> checkDeviceLabelCount
          invariant forall k :: 0 <= k < i && SubvolumeHasType(fs.subvolumes[k], PartLabel) ==> checkDeviceLabelCount
        {
          if SubvolumeHasType(fs.subvolumes[i], PartLabel) {
            checkDeviceLabelCount := true;
            if p.name == "" {
              return false;
            }
          }
        }
        var count := if p.name in partitionLabelCounts then partitionLabelCounts[p.name] else 0;
        return !(checkDeviceLabelCount && count > 1);
      case VerityDevice(_) =>
        if fs.mountPoint.Some? && !fs.mountPoint.value.idType.DefaultId? {
          return false;
        }
        for i := 0 to |fs.subvolumes|
          invariant forall k :: 0 <= k < i ==> fs.subvolumes[k].mountPoint.None? || SubvolumeHasType(fs.subvolumes[k], DefaultId)
        {
          if fs.subvolumes[i].mountPoint.Some? && !fs.subvolumes[i].mountPoint.value.idType.DefaultId? {
            return false;
          }
        }
        return true;
    }

    method CheckFileSystemItem(i: nat, ghost before: seq<string>) returns (ok: bool)
      requires i < fileSystems.Length
      requires IsDeviceMap(deviceMap, AllPartitions(disks), verity)
      requires IsLabelCounts(partitionLabelCounts, AllPartitions(disks))
      requires NoDuplicates(before) && mountPaths == Elements(before)
      modifies this`deviceParents, this`mountPaths, fileSystems
      ensures var fs, use := old(fileSystems[i]), [Use(old(fileSystems[i]).deviceId, ByFileSystem(i))];
        && (ok <==>
              && Addable(deviceMap, old(deviceParents), use)
              && NoDuplicates(before + FileSystemPaths(fs))
              && fs.deviceId in deviceMap && IdTypesFit(fs, deviceMap[fs.deviceId], AllPartitions(disks)))
        && (ok ==> deviceParents == AddAll(old(deviceParents), use) && mountPaths == Elements(before + FileSystemPaths(fs)))
        && fileSystems[..] == old(fileSystems[..])[i := fileSystems[i]]
        && (fileSystems[i] == Resolved(fs, deviceMap) || (!ok && fileSystems[i] == fs))
      ensures ok ==> OnItsPartition(AllPartitions(disks), verity, old(fileSystems[i]), fileSystems[i])
    {
      hide NoDuplicates, Elements, FileSystemPaths, IdTypesFit, IsLabelCounts, AllPartitions, IsDeviceMap, OnItsPartition;
      var fs := fileSystems[i];
      ResolvedIsOnPartition(deviceMap, AllPartitions(disks), verity, fs);
      ghost var use := [Use(fs.deviceId, ByFileSystem(i))];
      assert use[1..] == [];
      var device := AddParentToDevice(fs.deviceId, ByFileSystem(i));
      if device.None? {
        return false;
      }
      var pathsOk := AddMountPaths(fs, before);
      if !pathsOk {
        return false;
      }
      DeviceHasId(deviceMap, AllPartitions(disks), verity, fs.deviceId);
      match device.value {
        case PartitionDevice(_) =>
          fileSystems[i] := fs.(partitionId := fs.deviceId);
        case VerityDevice(v) =>
          fileSystems[i] := fs.(partitionId := v.dataDeviceId);
      }
      ok := CheckIdTypes(fs, device.value);
    }

    method CheckVerity() returns (ok: bool)
      modifies this`deviceParents
      ensures ok <==> Addable(deviceMap, map[], VerityUses(verity)) && ArePartitions(deviceMap, VerityUses(verity))
      ensures ok ==> deviceParents == AddAll(map[], VerityUses(verity))
    {
      hide Addable, AddAll, ArePartitions, DataUse, HashUse, VerityUses;
      deviceParents := map[];
      NothingToAdd(deviceMap, map[]);
      NoUses();
      assert verity[..0] == [];
      for i := 0 to |verity|
        invariant Addable(deviceMap, map[], VerityUses(verity[..i])) && ArePartitions(deviceMap, VerityUses(verity[..i]))
        invariant deviceParents == AddAll(map[], VerityUses(verity[..i]))
      {
        ghost var uses, more := VerityUses(verity[..i]), DataUse(verity[i], i) + HashUse(verity[i], i);
        VerityUsesStep(verity, i);
        AddableAppend(deviceMap, map[], uses, more);
        ArePartitionsAppend(deviceMap, uses, more);
        ok := CheckVerityItem(i);
        if !ok {
          VerityUsesFrom(verity, i + 1, deviceMap);
          return;
        }
      }
      assert verity[..|verity|] == verity;
      return true;
    }

    method CheckDeviceTree() returns (ok: bool)
      requires IsDeviceMap(deviceMap, AllPartitions(disks), verity)
      requires IsLabelCounts(partitionLabelCounts, AllPartitions(disks))
      modifies this`deviceParents, this`mountPaths, fileSystems
      ensures ok <==> IsTree(deviceMap, AllPartitions(disks), verity, old(fileSystems[..]))
      ensures ok ==> deviceParents == AddAll(map[], VerityUses(verity) + FileSystemUses(old(fileSystems[..])))
      ensures ok ==> AllResolved(old(fileSystems[..]), fileSystems[..], deviceMap)
      ensures ok ==> forall k :: 0 <= k < fileSystems.Length ==>
        OnItsPartition(AllPartitions(disks), verity, old(fileSystems[k]), fileSystems[k])
      ensures PartlyResolved(old(fileSystems[..]), fileSystems[..], deviceMap)
    {
      hide *;
      ghost var fss := fileSystems[..];
      ghost var parts := AllPartitions(disks);
      NotResolved(fss, deviceMap);
      ok := CheckVerity();
      IsTreeIs(deviceMap, parts, verity, fss);
      AddableAppend(deviceMap, map[], VerityUses(verity), FileSystemUses(fss));
      if !ok {
        return;
      }
      mountPaths := {};
      TreeStart(deviceMap, parts, verity, fss);
      for i := 0 to fileSystems.Length
        invariant TreeSoFar(deviceMap, parts, verity, fss, i)
        invariant mountPaths == Elements(MountPaths(fss[..i]))
        invariant deviceParents == AddAll(map[], UsesSoFar(verity, fss, i))
        invariant ResolvedSoFar(fss, fileSystems[..], deviceMap, i)
      {
        ResolvedIs(fss, fileSystems[..], deviceMap, i);
        TreeSoFarIs(deviceMap, parts, verity, fss, i);
        TreeStep(deviceMap, parts, verity, fss, i);
        ghost var now := fileSystems[..];
        ok := CheckFileSystemItem(i, MountPaths(fss[..i]));
        ResolvedStep(fss, now, fileSystems[..], deviceMap, i);
        if !ok {
          TreeFrom(deviceMap, parts, verity, fss, i + 1);
          return;
        }
      }
      TreeEnd(deviceMap, parts, verity, fss);
      ResolvedEnd(fss, fileSystems[..], deviceMap);
      AllOnPartitions(deviceMap, parts, verity, fss, fileSystems[..]);
      return true;
    }

    // Accepts the storage configuration, and resolves its file systems.
    method IsValid() returns (ok: bool)
      modifies this, fileSystems
      ensures ok <==> IsForest(disks, verity, old(fileSystems[..]))
      ensures ok ==> IsDeviceMap(deviceMap, AllPartitions(disks), verity)
      ensures ok ==> deviceParents == AddAll(map[], VerityUses(verity) + FileSystemUses(old(fileSystems[..])))
      ensures ok ==> AllResolved(old(fileSystems[..]), fileSystems[..], deviceMap)
      ensures ok ==> forall k :: 0 <= k < fileSystems.Length ==>
        OnItsPartition(AllPartitions(disks), verity, old(fileSystems[k]), fileSystems[k])
      ensures fileSystems[..] == old(fileSystems[..]) || PartlyResolved(old(fileSystems[..]), fileSystems[..], deviceMap)
    {
      hide *;
      ghost var fss := fileSystems[..];
      ForestIs(disks, verity, fss);
      ok := CheckItems();
      if !ok {
        return;
      }
      ok := BuildDeviceMap();
      if !ok {
        return;
      }
      TheDeviceMap(deviceMap, disks, verity, fss);
      ok := CheckDeviceTree();
    }

    method CheckItems() returns (ok: bool)
      ensures ok <==> IsConsistent(disks, verity, fileSystems[..])
    {
      hide IsValidVerity, IsValidFileSystem;
      if |disks| > 1 {
        return false;
      }
      var usesConfig, usesExisting := false, false;
      for i := 0 to |verity|
        invariant forall k :: 0 <= k < i ==> IsValidVerity(verity[k])
        invariant usesConfig <==> UsesConfig(verity[..i])
        invariant usesExisting <==> UsesExisting(verity[..i])
      {
        if !IsValidVerity(verity[i]) {
          return false;
        }
        UsesStep(verity, i);
        if verity[i].dataDeviceId != "" || verity[i].hashDeviceId != "" {
          usesConfig := true;
        }
        if verity[i].hasDataDevice || verity[i].hasHashDevice {
          usesExisting := true;
        }
      }
      assert verity[..|verity|] == verity;
      if usesConfig && usesExisting {
        return false;
      }
      for i := 0 to fileSystems.Length
        invariant forall k :: 0 <= k < i ==> IsValidFileSystem(fileSystems[k])
      {
        if !IsValidFileSystem(fileSystems[i]) {
          assert !IsValidFileSystem(fileSystems[..][i]);
          return false;
        }
      }
      assert fileSystems[..] != [] <==> fileSystems.Length > 0;
      var hasDisks := |disks| > 0;
      return !(fileSystems.Length > 0 && !hasDisks) && !(usesConfig && !hasDisks) && !(usesExisting && hasDisks);
    }
  }

  // ------------------------------------------------------------ its steps

  lemma NoDevices()
    ensures IsDeviceMap(map[], [], []) && IsLabelCounts(map[], []) && NoDuplicates(PartitionIds([])) && AllPartitions([]) == []
  {
  }

  lemma NextDisk(disks: seq<seq<Partition>>, i: nat)
    requires i < |disks|
    ensures AllPartitions(disks[..i + 1]) == AllPartitions(disks[..i]) + disks[i]
  {
    assert disks[..i + 1][..i] == disks[..i];
  }

  lemma OneMorePartition(m: map<string, Device>, counts: map<string, nat>, parts: seq<Partition>, p: Partition)
    requires IsDeviceMap(m, parts, []) && IsLabelCounts(counts, parts) && NoDuplicates(PartitionIds(parts))
    ensures NoDuplicates(PartitionIds(parts + [p])) <==> p.id !in m
    ensures p.id !in m ==> IsDeviceMap(m[p.id := PartitionDevice(p)], parts + [p], [])
    ensures IsLabelCounts(counts[p.name := (if p.name in counts then counts[p.name] else 0) + 1], parts + [p])
  {
    hide LabelCount;
    OneMoreLabel(counts, parts, p);
    OneMoreId(PartitionIds(parts), p.id);
    assert PartitionIds(parts + [p]) == PartitionIds(parts) + [p.id];
  }

  lemma OneMoreId(ids: seq<string>, id: string)
    requires NoDuplicates(ids)
    ensures NoDuplicates(ids + [id]) <==> id !in ids
  {
    if id in ids {
      var k :| 0 <= k < |ids| && ids[k] == id;
      assert (ids + [id])[k] == (ids + [id])[|ids|];
    }
  }

  lemma OneMoreLabel(counts: map<string, nat>, parts: seq<Partition>, p: Partition)
    requires IsLabelCounts(counts, parts)
    ensures IsLabelCounts(counts[p.name := (if p.name in counts then counts[p.name] else 0) + 1], parts + [p])
  {
    var all := parts + [p];
    assert all[..|all| - 1] == parts;
    assert forall name :: LabelCount(all, name) == LabelCount(parts, name) + if p.name == name then 1 else 0;
  }

  lemma DuplicateWithin(before: seq<Partition>, disk: seq<Partition>, j: nat)
    requires j <= |disk| && !NoDuplicates(PartitionIds(before + disk[..j]))
    ensures !NoDuplicates(PartitionIds(before + disk))
  {
    SomeDuplicate(PartitionIds(before + disk[..j]), PartitionIds(before + disk));
  }

  // A longer list has the same duplicates.
  lemma SomeDuplicate(a: seq<string>, b: seq<string>)
    requires |a| <= |b| && (forall k :: 0 <= k < |a| ==> a[k] == b[k]) && !NoDuplicates(a)
    ensures !NoDuplicates(b)
  {
    var i, j :| 0 <= i < j < |a| && a[i] == a[j];
    assert b[i] == b[j];
  }

  lemma {:induction false} AllPartitionsFrom(disks: seq<seq<Partition>>, i: nat)
    requires i <= |disks|
    ensures AllPartitions(disks[..i]) <= AllPartitions(disks)
    decreases |disks| - i
  {
    if i == |disks| {
      assert disks[..i] == disks;
    } else {
      NextDisk(disks, i);
      AllPartitionsFrom(disks, i + 1);
    }
  }

  lemma DuplicateStays(disks: seq<seq<Partition>>, i: nat, vs: seq<Verity>)
    requires i <= |disks| && !NoDuplicates(PartitionIds(AllPartitions(disks[..i])))
    ensures !NoDuplicates(PartitionIds(AllPartitions(disks)) + VerityIds(vs))
  {
    hide AllPartitions, NoDuplicates;
    AllPartitionsFrom(disks, i);
    SomeDuplicate(PartitionIds(AllPartitions(disks[..i])), PartitionIds(AllPartitions(disks)) + VerityIds(vs));
  }

  lemma OneMoreVerity(m: map<string, Device>, parts: seq<Partition>, vs: seq<Verity>, i: nat)
    requires i < |vs| && IsDeviceMap(m, parts, vs[..i]) && NoDuplicates(PartitionIds(parts) + VerityIds(vs[..i]))
    ensures NoDuplicates(PartitionIds(parts) + VerityIds(vs[..i + 1])) <==> vs[i].id !in m
    ensures vs[i].id !in m ==> IsDeviceMap(m[vs[i].id := VerityDevice(vs[i])], parts, vs[..i + 1])
  {
    var ids := PartitionIds(parts) + VerityIds(vs[..i]);
    OneMoreId(ids, vs[i].id);
    assert vs[..i + 1] == vs[..i] + [vs[i]];
    assert VerityIds(vs[..i + 1]) == VerityIds(vs[..i]) + [vs[i].id];
    assert PartitionIds(parts) + VerityIds(vs[..i + 1]) == ids + [vs[i].id];
    hide NoDuplicates;
  }

  lemma DuplicateVerity(parts: seq<Partition>, vs: seq<Verity>, i: nat)
    requires i <= |vs| && !NoDuplicates(PartitionIds(parts) + VerityIds(vs[..i]))
    ensures !NoDuplicates(PartitionIds(parts) + VerityIds(vs))
  {
    hide NoDuplicates;
    SomeDuplicate(PartitionIds(parts) + VerityIds(vs[..i]), PartitionIds(parts) + VerityIds(vs));
  }

  lemma ArePartitionsAppend(devices: map<string, Device>, a: seq<Use>, b: seq<Use>)
    ensures ArePartitions(devices, a + b) <==> ArePartitions(devices, a) && ArePartitions(devices, b)
  {
    if ArePartitions(devices, a + b) {
      assert forall k :: 0 <= k < |a| ==> a[k] == (a + b)[k];
      assert forall k :: 0 <= k < |b| ==> b[k] == (a + b)[|a| + k];
    }
  }

  lemma NothingToAdd(devices: map<string, Device>, parents: map<string, Parent>)
    ensures Addable(devices, parents, []) && AddAll(parents, []) == parents && ArePartitions(devices, [])
  {
  }

  lemma OneMorePath(before: seq<string>, mount: Option<MountPoint>)
    requires NoDuplicates(before)
    ensures (forall k :: 0 <= k < |OwnPath(mount)| ==> OwnPath(mount)[k] !in Elements(before)) <==> NoDuplicates(before + OwnPath(mount))
    ensures Elements(before + OwnPath(mount)) == Elements(before) + set p | p in OwnPath(mount)
  {
    if mount.Some? {
      OneMoreId(before, mount.value.path);
      assert OwnPath(mount) == [mount.value.path];
      assert OwnPath(mount)[0] == mount.value.path;
    } else {
      assert before + [] == before;
    }
  }

  lemma FileSystemPathsFrom(fs: FileSystem)
    ensures FileSystemPaths(fs) == OwnPath(fs.mountPoint) + SubvolumePaths(fs.subvolumes)
  {
  }

  lemma DuplicateRemains(a: seq<string>, b: seq<string>, c: seq<string>)
    requires !NoDuplicates(a + b)
    ensures !NoDuplicates(a + (b + c))
  {
    hide NoDuplicates;
    SomeDuplicate(a + b, a + (b + c));
  }

  lemma NoSubvolumes(own: seq<string>)
    ensures own + SubvolumePaths([]) == own
  {
  }

  lemma SubvolumePathsStep(subvolumes: seq<Subvolume>, i: nat, own: seq<string>)
    requires i < |subvolumes|
    ensures own + SubvolumePaths(subvolumes[..i + 1]) == own + SubvolumePaths(subvolumes[..i]) + OwnPath(subvolumes[i].mountPoint)
  {
    hide OwnPath;
    assert subvolumes[..i + 1][..i] == subvolumes[..i];
  }

  lemma {:induction false} SubvolumePathsFrom(subvolumes: seq<Subvolume>, i: nat)
    requires i <= |subvolumes|
    ensures SubvolumePaths(subvolumes[..i]) <= SubvolumePaths(subvolumes)
    decreases |subvolumes| - i
  {
    hide OwnPath;
    if i == |subvolumes| {
      assert subvolumes[..i] == subvolumes;
    } else {
      assert subvolumes[..i + 1][..i] == subvolumes[..i];
      SubvolumePathsFrom(subvolumes, i + 1);
    }
  }

  lemma DuplicateAmongSubvolumes(own: seq<string>, subvolumes: seq<Subvolume>, i: nat)
    requires i <= |subvolumes| && !NoDuplicates(own + SubvolumePaths(subvolumes[..i]))
    ensures !NoDuplicates(own + SubvolumePaths(subvolumes))
  {
    hide NoDuplicates, SubvolumePaths;
    SubvolumePathsFrom(subvolumes, i);
    SomeDuplicate(own + SubvolumePaths(subvolumes[..i]), own + SubvolumePaths(subvolumes));
  }

  lemma Reassociate(a: seq<string>, b: seq<string>, c: seq<string>)
    ensures a + b + c == a + (b + c)
  {
  }

  lemma DeviceHasId(m: map<string, Device>, parts: seq<Partition>, vs: seq<Verity>, id: string)
    requires IsDeviceMap(m, parts, vs) && id in m
    ensures m[id].PartitionDevice? ==> m[id].partition.id == id && m[id].partition in parts
    ensures m[id].VerityDevice? ==> m[id].verity.id == id && m[id].verity in vs
  {
    if id in PartitionIds(parts) {
      var k :| 0 <= k < |parts| && PartitionIds(parts)[k] == id;
      assert m[parts[k].id] == PartitionDevice(parts[k]);
    } else {
      var k :| 0 <= k < |vs| && VerityIds(vs)[k] == id;
      assert m[vs[k].id] == VerityDevice(vs[k]);
    }
  }

  lemma NoUses()
    ensures VerityUses([]) == []
  {
  }

  lemma VerityUsesStep(vs: seq<Verity>, i: nat)
    requires i < |vs|
    ensures VerityUses(vs[..i + 1]) == VerityUses(vs[..i]) + (DataUse(vs[i], i) + HashUse(vs[i], i))
  {
    hide DataUse, HashUse;
    assert vs[..i + 1][..i] == vs[..i];
  }

  lemma {:induction false} VerityUsesFrom(vs: seq<Verity>, i: nat, devices: map<string, Device>)
    requires i <= |vs|
    ensures Addable(devices, map[], VerityUses(vs)) ==> Addable(devices, map[], VerityUses(vs[..i]))
    ensures ArePartitions(devices, VerityUses(vs)) ==> ArePartitions(devices, VerityUses(vs[..i]))
    decreases |vs| - i
  {
    hide Addable, AddAll, ArePartitions, DataUse, HashUse, VerityUses;
    if i == |vs| {
      assert vs[..i] == vs;
    } else {
      var more := DataUse(vs[i], i) + HashUse(vs[i], i);
      VerityUsesStep(vs, i);
      AddableAppend(devices, map[], VerityUses(vs[..i]), more);
      ArePartitionsAppend(devices, VerityUses(vs[..i]), more);
      VerityUsesFrom(vs, i + 1, devices);
    }
  }

  // What holds once the first i file systems are checked.
  function UsesSoFar(vs: seq<Verity>, fss: seq<FileSystem>, i: nat): seq<Use>
    requires i <= |fss|
  {
    VerityUses(vs) + FileSystemUses(fss[..i])
  }

  predicate TreeSoFar(devices: map<string, Device>, parts: seq<Partition>, vs: seq<Verity>, fss: seq<FileSystem>, i: nat) {
    && i <= |fss|
    && Addable(devices, map[], UsesSoFar(vs, fss, i))
    && NoDuplicates(MountPaths(fss[..i]))
    && forall k :: 0 <= k < i ==> fss[k].deviceId in devices && IdTypesFit(fss[k], devices[fss[k].deviceId], parts)
  }

  lemma TreeSoFarIs(devices: map<string, Device>, parts: seq<Partition>, vs: seq<Verity>, fss: seq<FileSystem>, i: nat)
    requires TreeSoFar(devices, parts, vs, fss, i)
    ensures NoDuplicates(MountPaths(fss[..i]))
  {
  }

  lemma IsTreeIs(devices: map<string, Device>, parts: seq<Partition>, vs: seq<Verity>, fss: seq<FileSystem>)
    ensures IsTree(devices, parts, vs, fss) ==>
      Addable(devices, map[], VerityUses(vs) + FileSystemUses(fss)) && ArePartitions(devices, VerityUses(vs))
  {
  }

  lemma TreeStart(devices: map<string, Device>, parts: seq<Partition>, vs: seq<Verity>, fss: seq<FileSystem>)
    requires Addable(devices, map[], VerityUses(vs))
    ensures TreeSoFar(devices, parts, vs, fss, 0)
    ensures UsesSoFar(vs, fss, 0) == VerityUses(vs) && Elements(MountPaths(fss[..0])) == {}
  {
    hide Addable, VerityUses;
    assert FileSystemUses(fss[..0]) == [] && VerityUses(vs) + [] == VerityUses(vs);
    assert MountPaths(fss[..0]) == [];
  }

  lemma TreeStep(devices: map<string, Device>, parts: seq<Partition>, vs: seq<Verity>, fss: seq<FileSystem>, i: nat)
    requires TreeSoFar(devices, parts, vs, fss, i) && i < |fss|
    ensures var use := [Use(fss[i].deviceId, ByFileSystem(i))];
      && UsesSoFar(vs, fss, i + 1) == UsesSoFar(vs, fss, i) + use
      && AddAll(map[], UsesSoFar(vs, fss, i + 1)) == AddAll(AddAll(map[], UsesSoFar(vs, fss, i)), use)
      && MountPaths(fss[..i + 1]) == MountPaths(fss[..i]) + FileSystemPaths(fss[i])
      && (TreeSoFar(devices, parts, vs, fss, i + 1) <==>
            && Addable(devices, AddAll(map[], UsesSoFar(vs, fss, i)), use)
            && NoDuplicates(MountPaths(fss[..i]) + FileSystemPaths(fss[i]))
            && fss[i].deviceId in devices && IdTypesFit(fss[i], devices[fss[i].deviceId], parts))
  {
    hide Addable, AddAll, VerityUses, NoDuplicates, IdTypesFit;
    UsesNext(vs, fss, i);
    PathsNext(fss, i);
    AddableAppend(devices, map[], UsesSoFar(vs, fss, i), [Use(fss[i].deviceId, ByFileSystem(i))]);
    hide UsesSoFar, FileSystemPaths, MountPaths;
  }

  lemma UsesNext(vs: seq<Verity>, fss: seq<FileSystem>, i: nat)
    requires i < |fss|
    ensures UsesSoFar(vs, fss, i + 1) == UsesSoFar(vs, fss, i) + [Use(fss[i].deviceId, ByFileSystem(i))]
  {
    hide VerityUses;
    assert FileSystemUses(fss[..i + 1]) == FileSystemUses(fss[..i]) + [Use(fss[i].deviceId, ByFileSystem(i))];
  }

  lemma PathsNext(fss: seq<FileSystem>, i: nat)
    requires i < |fss|
    ensures MountPaths(fss[..i + 1]) == MountPaths(fss[..i]) + FileSystemPaths(fss[i])
  {
    hide FileSystemPaths;
    assert fss[..i + 1][..i] == fss[..i];
  }

  lemma {:induction false} MountPathsFrom(fss: seq<FileSystem>, i: nat)
    requires i <= |fss|
    ensures MountPaths(fss[..i]) <= MountPaths(fss)
    decreases |fss| - i
  {
    hide FileSystemPaths, MountPaths;
    if i == |fss| {
      assert fss[..i] == fss;
    } else {
      PathsNext(fss, i);
      MountPathsFrom(fss, i + 1);
    }
  }

  // A tree is one all the way.
  lemma TreeFrom(devices: map<string, Device>, parts: seq<Partition>, vs: seq<Verity>, fss: seq<FileSystem>, i: nat)
    requires i <= |fss|
    ensures IsTree(devices, parts, vs, fss) ==> TreeSoFar(devices, parts, vs, fss, i)
  {
    hide Addable, AddAll, VerityUses, NoDuplicates, IdTypesFit, MountPaths;
    if IsTree(devices, parts, vs, fss) {
      var uses := FileSystemUses(fss);
      assert FileSystemUses(fss[..i]) == uses[..i];
      Reassemble(VerityUses(vs), uses, i);
      AddableAppend(devices, map[], UsesSoFar(vs, fss, i), uses[i..]);
      MountPathsFrom(fss, i);
      if !NoDuplicates(MountPaths(fss[..i])) {
        SomeDuplicate(MountPaths(fss[..i]), MountPaths(fss));
      }
    }
  }

  lemma Reassemble(a: seq<Use>, b: seq<Use>, i: nat)
    requires i <= |b|
    ensures a + b == a + b[..i] + b[i..]
  {
  }

  lemma TreeEnd(devices: map<string, Device>, parts: seq<Partition>, vs: seq<Verity>, fss: seq<FileSystem>)
    requires ArePartitions(devices, VerityUses(vs)) && TreeSoFar(devices, parts, vs, fss, |fss|)
    ensures IsTree(devices, parts, vs, fss) && UsesSoFar(vs, fss, |fss|) == VerityUses(vs) + FileSystemUses(fss)
  {
    hide Addable, VerityUses, NoDuplicates, IdTypesFit, MountPaths;
    assert fss[..|fss|] == fss;
  }

  predicate ResolvedSoFar(was: seq<FileSystem>, now: seq<FileSystem>, devices: map<string, Device>, i: nat) {
    && |now| == |was| && i <= |was|
    && (forall k :: 0 <= k < i ==> now[k] == Resolved(was[k], devices))
    && forall k :: i <= k < |was| ==> now[k] == was[k]
  }

  lemma NotResolved(fss: seq<FileSystem>, devices: map<string, Device>)
    ensures ResolvedSoFar(fss, fss, devices, 0) && PartlyResolved(fss, fss, devices)
  {
  }

  lemma ResolvedIs(was: seq<FileSystem>, now: seq<FileSystem>, devices: map<string, Device>, i: nat)
    requires ResolvedSoFar(was, now, devices, i) && i < |was|
    ensures |now| == |was| && now[i] == was[i]
  {
  }

  lemma ResolvedStep(was: seq<FileSystem>, now: seq<FileSystem>, next: seq<FileSystem>, devices: map<string, Device>, i: nat)
    requires ResolvedSoFar(was, now, devices, i) && i < |was| == |now| == |next| && next == now[i := next[i]]
    requires next[i] == was[i] || next[i] == Resolved(was[i], devices)
    ensures next[i] == Resolved(was[i], devices) ==> ResolvedSoFar(was, next, devices, i + 1)
    ensures PartlyResolved(was, next, devices)
  {
    hide Resolved;
  }

  lemma ResolvedEnd(was: seq<FileSystem>, now: seq<FileSystem>, devices: map<string, Device>)
    requires ResolvedSoFar(was, now, devices, |was|)
    ensures AllResolved(was, now, devices) && PartlyResolved(was, now, devices)
  {
    hide Resolved;
  }

  lemma ForestIs(disks: seq<seq<Partition>>, vs: seq<Verity>, fss: seq<FileSystem>)
    ensures IsForest(disks, vs, fss) ==>
      IsConsistent(disks, vs, fss) && NoDuplicates(PartitionIds(AllPartitions(disks)) + VerityIds(vs))
  {
  }

  lemma TheDeviceMap(m: map<string, Device>, disks: seq<seq<Partition>>, vs: seq<Verity>, fss: seq<FileSystem>)
    requires IsConsistent(disks, vs, fss) && NoDuplicates(PartitionIds(AllPartitions(disks)) + VerityIds(vs))
    requires IsDeviceMap(m, AllPartitions(disks), vs)
    ensures IsForest(disks, vs, fss) <==> IsTree(m, AllPartitions(disks), vs, fss)
  {
    hide IsTree, IsConsistent, NoDuplicates, AllPartitions, IsDeviceMap;
    var parts := AllPartitions(disks);
    if IsForest(disks, vs, fss) {
      var devices :| IsDeviceMap(devices, parts, vs) && IsTree(devices, parts, vs, fss);
      OneDeviceMap(m, devices, parts, vs);
    }
  }

  lemma OneDeviceMap(m: map<string, Device>, n: map<string, Device>, parts: seq<Partition>, vs: seq<Verity>)
    requires IsDeviceMap(m, parts, vs) && IsDeviceMap(n, parts, vs)
    ensures m == n
  {
    forall id | id in m ensures id in n && m[id] == n[id] {
      if id in PartitionIds(parts) {
        var k :| 0 <= k < |parts| && PartitionIds(parts)[k] == id;
        assert m[parts[k].id] == n[parts[k].id];
      } else {
        var k :| 0 <= k < |vs| && VerityIds(vs)[k] == id;
        assert m[vs[k].id] == n[vs[k].id];
      }
    }
    assert m.Keys == n.Keys;
  }

  lemma UsesStep(vs: seq<Verity>, i: nat)
    requires i < |vs|
    ensures UsesConfig(vs[..i + 1]) <==> UsesConfig(vs[..i]) || vs[i].dataDeviceId != "" || vs[i].hashDeviceId != ""
    ensures UsesExisting(vs[..i + 1]) <==> UsesExisting(vs[..i]) || vs[i].hasDataDevice || vs[i].hasHashDevice
  {
    var a, b := vs[..i], vs[..i + 1];
    assert b[i] == vs[i] && forall k :: 0 <= k < i ==> a[k] == b[k];
  }
}
