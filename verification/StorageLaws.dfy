// What an accepted storage configuration looks like.
module StorageLaws {
  import opened Sequences
  import opened Wrappers
  import opened StorageTree

  // All uses of devices, in the order in which they are noted.
  function Uses(vs: seq<Verity>, fss: seq<FileSystem>): seq<Use> {
    VerityUses(vs) + FileSystemUses(fss)
  }

  // Each use is of an existing device, and no device is used twice.
  ghost predicate UsesAreSound(devices: map<string, Device>, parents: map<string, Parent>, uses: seq<Use>) {
    && (forall k :: 0 <= k < |uses| ==> uses[k].id in devices && uses[k].id !in parents)
    && forall i, j :: 0 <= i < j < |uses| ==> uses[i].id != uses[j].id
  }

  // Parents can be added one after the other exactly when that is so.
  lemma {:induction false} AddableMeans(devices: map<string, Device>, parents: map<string, Parent>, uses: seq<Use>)
    ensures Addable(devices, parents, uses) <==> UsesAreSound(devices, parents, uses)
    decreases |uses|
  {
    if uses == [] {
    } else {
      var next := parents[uses[0].id := uses[0].parent];
      AddableMeans(devices, next, uses[1..]);
      assert forall k :: 0 < k < |uses| ==> uses[k] == uses[1..][k - 1];
      if UsesAreSound(devices, next, uses[1..]) && uses[0].id in devices && uses[0].id !in parents {
        forall k | 0 <= k < |uses| ensures uses[k].id in devices && uses[k].id !in parents {
          assert k > 0 ==> uses[1..][k - 1].id !in next;
        }
        forall i, j | 0 <= i < j < |uses| ensures uses[i].id != uses[j].id {
          assert uses[1..][j - 1].id !in next;
        }
      }
    }
  }

  // The parents are those that use the devices, and no others.
  lemma {:induction false} ParentsAreUses(parents: map<string, Parent>, uses: seq<Use>)
    requires forall i, j :: 0 <= i < j < |uses| ==> uses[i].id != uses[j].id
    ensures forall k :: 0 <= k < |uses| ==> uses[k].id in AddAll(parents, uses) && AddAll(parents, uses)[uses[k].id] == uses[k].parent
    ensures forall id :: id in AddAll(parents, uses) && id !in parents ==> exists k :: 0 <= k < |uses| && uses[k].id == id
    ensures forall id :: id in parents && (forall k :: 0 <= k < |uses| ==> uses[k].id != id) ==>
      id in AddAll(parents, uses) && AddAll(parents, uses)[id] == parents[id]
    decreases |uses|
  {
    if uses == [] {
    } else {
      var next := parents[uses[0].id := uses[0].parent];
      var rest := uses[1..];
      ParentsAreUses(next, rest);
      var all := AddAll(parents, uses);
      assert all == AddAll(next, rest);
      forall k | 0 <= k < |uses| ensures uses[k].id in all && all[uses[k].id] == uses[k].parent {
        if k > 0 {
          assert rest[k - 1] == uses[k];
        }
      }
      forall id | id in all && id !in parents ensures exists k :: 0 <= k < |uses| && uses[k].id == id {
        if id in next {
          assert uses[0].id == id;
        } else {
          var k :| 0 <= k < |rest| && rest[k].id == id;
          assert uses[k + 1].id == id;
        }
      }
      forall id | id in parents && (forall k :: 0 <= k < |uses| ==> uses[k].id != id) ensures id in all && all[id] == parents[id] {
        assert forall k :: 0 <= k < |rest| ==> rest[k] == uses[k + 1];
        assert uses[0].id != id;
      }
    }
  }

  // The devices of a verity item are used by it.
  lemma {:induction false} VerityIsUser(vs: seq<Verity>, i: nat)
    requires i < |vs|
    ensures vs[i].dataDeviceId != "" ==> Use(vs[i].dataDeviceId, ByVerity(i)) in VerityUses(vs)
    ensures vs[i].hashDeviceId != "" ==> Use(vs[i].hashDeviceId, ByVerity(i)) in VerityUses(vs)
    decreases |vs|
  {
    var n := |vs| - 1;
    if i < n {
      VerityIsUser(vs[..n], i);
    } else if vs[i].dataDeviceId != "" {
      assert DataUse(vs[i], i)[0] == Use(vs[i].dataDeviceId, ByVerity(i));
    }
    if i == n && vs[i].hashDeviceId != "" && !IsInline(vs[i]) {
      assert HashUse(vs[i], i)[0] == Use(vs[i].hashDeviceId, ByVerity(i));
    }
  }

  lemma {:induction false} OnlyVerityUses(vs: seq<Verity>, k: nat)
    requires k < |VerityUses(vs)|
    ensures VerityUses(vs)[k].parent.ByVerity? && VerityUses(vs)[k].parent.index < |vs|
    decreases |vs|
  {
    var n := |vs| - 1;
    var before := VerityUses(vs[..n]);
    if k < |before| {
      OnlyVerityUses(vs[..n], k);
    }
  }

  // No device has two parents: whatever uses it is the one thing that does, and
  // it is what the parent map says.
  lemma OneParent(devices: map<string, Device>, parts: seq<Partition>, vs: seq<Verity>, fss: seq<FileSystem>, u: Use, w: Use)
    requires IsTree(devices, parts, vs, fss) && u in Uses(vs, fss) && w in Uses(vs, fss) && u.id == w.id
    ensures u.parent == w.parent && u.id in devices
    ensures var parents := AddAll(map[], Uses(vs, fss)); u.id in parents && parents[u.id] == u.parent
  {
    hide IsTree, Addable, AddAll, VerityUses;
    var uses := Uses(vs, fss);
    TreeIsAddable(devices, parts, vs, fss);
    AddableMeans(devices, map[], uses);
    ParentsAreUses(map[], uses);
    var i :| 0 <= i < |uses| && uses[i] == u;
    var j :| 0 <= j < |uses| && uses[j] == w;
    assert i == j;
  }

  lemma TreeIsAddable(devices: map<string, Device>, parts: seq<Partition>, vs: seq<Verity>, fss: seq<FileSystem>)
    requires IsTree(devices, parts, vs, fss)
    ensures Addable(devices, map[], Uses(vs, fss)) && ArePartitions(devices, VerityUses(vs)) && NoDuplicates(MountPaths(fss))
    ensures forall k :: 0 <= k < |fss| ==> fss[k].deviceId in devices && IdTypesFit(fss[k], devices[fss[k].deviceId], parts)
  {
  }

  // The devices of a verity item are partitions.
  lemma VerityOnPartitions(devices: map<string, Device>, parts: seq<Partition>, vs: seq<Verity>, fss: seq<FileSystem>, i: nat)
    requires IsTree(devices, parts, vs, fss) && IsDeviceMap(devices, parts, vs) && i < |vs|
    ensures vs[i].dataDeviceId != "" ==> vs[i].dataDeviceId in PartitionIds(parts)
    ensures vs[i].hashDeviceId != "" ==> vs[i].hashDeviceId in PartitionIds(parts)
  {
    hide IsTree, Addable, VerityUses, IsDeviceMap;
    TreeIsAddable(devices, parts, vs, fss);
    VerityIsUser(vs, i);
    if vs[i].dataDeviceId != "" {
      UseIsPartition(devices, parts, vs, Use(vs[i].dataDeviceId, ByVerity(i)));
    }
    if vs[i].hashDeviceId != "" {
      UseIsPartition(devices, parts, vs, Use(vs[i].hashDeviceId, ByVerity(i)));
    }
  }

  lemma UseIsPartition(devices: map<string, Device>, parts: seq<Partition>, vs: seq<Verity>, u: Use)
    requires ArePartitions(devices, VerityUses(vs)) && IsDeviceMap(devices, parts, vs) && u in VerityUses(vs)
    ensures u.id in PartitionIds(parts)
  {
    hide VerityUses;
    var k :| 0 <= k < |VerityUses(vs)| && VerityUses(vs)[k] == u;
    DeviceHasId(devices, parts, vs, u.id);
    PartitionHasId(parts, devices[u.id].partition);
  }

  lemma PartitionHasId(parts: seq<Partition>, p: Partition)
    requires p in parts
    ensures p.id in PartitionIds(parts)
  {
    var k :| 0 <= k < |parts| && parts[k] == p;
    assert PartitionIds(parts)[k] == p.id;
  }

  // With file systems there are disks, so every verity item names its devices
  // by their ids.
  lemma VerityHasIds(disks: seq<seq<Partition>>, vs: seq<Verity>, fss: seq<FileSystem>, i: nat)
    requires IsConsistent(disks, vs, fss) && fss != [] && i < |vs|
    ensures vs[i].dataDeviceId != "" && vs[i].hashDeviceId != ""
  {
    assert IsValidVerity(vs[i]);
  }

  // The partition that a file system ends up on is a partition of the disk, and
  // is used by the file system itself or by the verity device that it is on.
  lemma OnPartition(disks: seq<seq<Partition>>, vs: seq<Verity>, fss: seq<FileSystem>, devices: map<string, Device>, k: nat)
    returns (user: Use)
    requires IsConsistent(disks, vs, fss) && IsDeviceMap(devices, AllPartitions(disks), vs)
    requires IsTree(devices, AllPartitions(disks), vs, fss) && k < |fss|
    ensures user in Uses(vs, fss) && user.id == Resolved(fss[k], devices).partitionId
    ensures user.id in PartitionIds(AllPartitions(disks))
    ensures user.parent == ByFileSystem(k) ||
      (user.parent.ByVerity? && user.parent.index < |vs| && vs[user.parent.index].id == fss[k].deviceId)
  {
    hide IsTree, IsConsistent, AllPartitions, Addable, VerityUses, IsDeviceMap;
    var parts := AllPartitions(disks);
    TreeIsAddable(devices, parts, vs, fss);
    var id := fss[k].deviceId;
    DeviceHasId(devices, parts, vs, id);
    match devices[id] {
      case PartitionDevice(p) =>
        user := Use(id, ByFileSystem(k));
        assert FileSystemUses(fss)[k] == user;
        PartitionHasId(parts, p);
      case VerityDevice(v) =>
        var i :| 0 <= i < |vs| && vs[i] == v;
        VerityHasIds(disks, vs, fss, i);
        VerityIsUser(vs, i);
        VerityOnPartitions(devices, parts, vs, fss, i);
        user := Use(v.dataDeviceId, ByVerity(i));
    }
  }

  // Two file systems never end up on the same partition, not even through
  // verity devices, and the partitions exist.
  lemma DistinctPartitions(disks: seq<seq<Partition>>, vs: seq<Verity>, fss: seq<FileSystem>, devices: map<string, Device>, j: nat, k: nat)
    requires IsForest(disks, vs, fss) && IsDeviceMap(devices, AllPartitions(disks), vs) && j < k < |fss|
    ensures Resolved(fss[j], devices).partitionId != Resolved(fss[k], devices).partitionId
    ensures Resolved(fss[j], devices).partitionId in PartitionIds(AllPartitions(disks))
    ensures Resolved(fss[k], devices).partitionId in PartitionIds(AllPartitions(disks))
  {
    hide *;
    var parts := AllPartitions(disks);
    ForestIs(disks, vs, fss);
    TheDeviceMap(devices, disks, vs, fss);
    var u := OnPartition(disks, vs, fss, devices, j);
    var w := OnPartition(disks, vs, fss, devices, k);
    if u.id == w.id {
      OneParent(devices, parts, vs, fss, u, w);
      FileSystemIsUser(vs, fss, j);
      FileSystemIsUser(vs, fss, k);
      if fss[j].deviceId == fss[k].deviceId {
        OneParent(devices, parts, vs, fss, Use(fss[j].deviceId, ByFileSystem(j)), Use(fss[k].deviceId, ByFileSystem(k)));
      }
    }
  }

  lemma FileSystemIsUser(vs: seq<Verity>, fss: seq<FileSystem>, k: nat)
    requires k < |fss|
    ensures Use(fss[k].deviceId, ByFileSystem(k)) in Uses(vs, fss)
  {
    hide VerityUses;
    assert Uses(vs, fss)[|VerityUses(vs)| + k] == Use(fss[k].deviceId, ByFileSystem(k));
  }

  predicate AreDisjoint(a: seq<string>, b: seq<string>) {
    forall k :: 0 <= k < |a| ==> a[k] !in b
  }

  lemma AppendDistinct(a: seq<string>, b: seq<string>)
    ensures NoDuplicates(a + b) <==> NoDuplicates(a) && NoDuplicates(b) && AreDisjoint(a, b)
  {
    assert forall k :: 0 <= k < |a| ==> (a + b)[k] == a[k];
    assert forall k :: 0 <= k < |b| ==> (a + b)[|a| + k] == b[k];
  }

  lemma AppendDisjoint(a: seq<string>, b: seq<string>, c: seq<string>)
    ensures AreDisjoint(a + b, c) <==> AreDisjoint(a, c) && AreDisjoint(b, c)
  {
    assert forall k :: 0 <= k < |a| ==> (a + b)[k] == a[k];
    assert forall k :: 0 <= k < |b| ==> (a + b)[|a| + k] == b[k];
  }

  lemma {:induction false} DisjointFromAll(fss: seq<FileSystem>, paths: seq<string>)
    ensures AreDisjoint(MountPaths(fss), paths) <==>
      forall j :: 0 <= j < |fss| ==> AreDisjoint(FileSystemPaths(fss[j]), paths)
    decreases |fss|
  {
    hide FileSystemPaths, AreDisjoint;
    if fss == [] {
      NoneDisjoint(paths);
    } else {
      var n := |fss| - 1;
      DisjointFromAll(fss[..n], paths);
      AppendDisjoint(MountPaths(fss[..n]), FileSystemPaths(fss[n]), paths);
    }
  }

  lemma NoneDisjoint(paths: seq<string>)
    ensures AreDisjoint([], paths)
  {
  }

  // No path is mounted on twice exactly when no file system mounts on a path
  // twice, and no two of them mount on the same one.
  lemma {:induction false} DistinctPaths(fss: seq<FileSystem>)
    ensures NoDuplicates(MountPaths(fss)) <==>
      (&& (forall k :: 0 <= k < |fss| ==> NoDuplicates(FileSystemPaths(fss[k])))
       && (forall j, k :: 0 <= j < k < |fss| ==> AreDisjoint(FileSystemPaths(fss[j]), FileSystemPaths(fss[k]))))
    decreases |fss|
  {
    hide FileSystemPaths, AreDisjoint, NoDuplicates;
    if fss == [] {
      NoneTwice();
    } else {
      var n := |fss| - 1;
      DistinctPaths(fss[..n]);
      AppendDistinct(MountPaths(fss[..n]), FileSystemPaths(fss[n]));
      DisjointFromAll(fss[..n], FileSystemPaths(fss[n]));
      assert forall j :: 0 <= j < n ==> fss[..n][j] == fss[j];
    }
  }

  lemma NoneTwice()
    ensures NoDuplicates([])
  {
  }

  // Whether a subvolume is mounted on the path.
  predicate MountsOn(subvolumes: seq<Subvolume>, k: nat, path: string)
    requires k < |subvolumes|
  {
    subvolumes[k].mountPoint.Some? && subvolumes[k].mountPoint.value.path == path
  }

  lemma {:induction false} SubvolumePathIn(subvolumes: seq<Subvolume>, path: string)
    ensures path in SubvolumePaths(subvolumes) <==> exists k :: 0 <= k < |subvolumes| && MountsOn(subvolumes, k, path)
    decreases |subvolumes|
  {
    if subvolumes == [] {
    } else {
      var n := |subvolumes| - 1;
      SubvolumePathIn(subvolumes[..n], path);
      SubvolumePathsLast(subvolumes, path);
      hide SubvolumePaths, MountsOn;
      forall k | 0 <= k < n ensures MountsOn(subvolumes[..n], k, path) == MountsOn(subvolumes, k, path) {
        MountsOnFront(subvolumes, k, path);
      }
      if path in SubvolumePaths(subvolumes[..n]) {
        var k :| 0 <= k < n && MountsOn(subvolumes[..n], k, path);
        assert MountsOn(subvolumes, k, path);
      }
    }
  }

  lemma MountsOnFront(subvolumes: seq<Subvolume>, k: nat, path: string)
    requires k < |subvolumes| - 1
    ensures MountsOn(subvolumes[..|subvolumes| - 1], k, path) == MountsOn(subvolumes, k, path)
  {
  }

  lemma SubvolumePathsLast(subvolumes: seq<Subvolume>, path: string)
    requires subvolumes != []
    ensures path in SubvolumePaths(subvolumes) <==>
      path in SubvolumePaths(subvolumes[..|subvolumes| - 1]) || MountsOn(subvolumes, |subvolumes| - 1, path)
  {
    var mount := subvolumes[|subvolumes| - 1].mountPoint;
    if mount.Some? {
      InAppended(SubvolumePaths(subvolumes[..|subvolumes| - 1]), [mount.value.path], path);
    }
  }

  lemma InAppended(a: seq<string>, b: seq<string>, path: string)
    ensures path in a + b <==> path in a || path in b
  {
  }

  lemma DisjointFromOwn(mount: Option<MountPoint>, paths: seq<string>)
    ensures NoDuplicates(OwnPath(mount))
    ensures AreDisjoint(paths, OwnPath(mount)) <==> (mount.Some? ==> mount.value.path !in paths)
    ensures AreDisjoint(OwnPath(mount), paths) <==> (mount.Some? ==> mount.value.path !in paths)
  {
  }

  ghost predicate SubvolumesDiffer(subvolumes: seq<Subvolume>) {
    forall j, k, path :: 0 <= j < k < |subvolumes| && MountsOn(subvolumes, j, path) ==> !MountsOn(subvolumes, k, path)
  }

  lemma DifferFromLast(subvolumes: seq<Subvolume>)
    requires subvolumes != []
    ensures var n := |subvolumes| - 1;
      var mount := subvolumes[n].mountPoint;
      SubvolumesDiffer(subvolumes) <==>
        (&& SubvolumesDiffer(subvolumes[..n])
         && (mount.Some? ==> forall k :: 0 <= k < n ==> !MountsOn(subvolumes[..n], k, mount.value.path)))
  {
    var n := |subvolumes| - 1;
    assert forall k, path :: 0 <= k < n ==> MountsOn(subvolumes[..n], k, path) == MountsOn(subvolumes, k, path);
    if subvolumes[n].mountPoint.Some? {
      assert MountsOn(subvolumes, n, subvolumes[n].mountPoint.value.path);
    }
  }

  // No two subvolumes are mounted on the same path.
  lemma {:induction false} DistinctSubvolumes(subvolumes: seq<Subvolume>)
    ensures NoDuplicates(SubvolumePaths(subvolumes)) <==> SubvolumesDiffer(subvolumes)
    decreases |subvolumes|
  {
    hide NoDuplicates, AreDisjoint, SubvolumesDiffer, OwnPath, MountsOn;
    if subvolumes == [] {
      NoneTwice();
      NoneDiffer();
    } else {
      var n := |subvolumes| - 1;
      var front, mount := subvolumes[..n], subvolumes[n].mountPoint;
      DistinctSubvolumes(front);
      AppendDistinct(SubvolumePaths(front), OwnPath(mount));
      DisjointFromOwn(mount, SubvolumePaths(front));
      DifferFromLast(subvolumes);
      if mount.Some? {
        SubvolumePathIn(front, mount.value.path);
      }
    }
  }

  lemma NoneDiffer()
    ensures SubvolumesDiffer([])
  {
  }

  // Within one file system, its mount point and those of its subvolumes are all
  // different.
  lemma DistinctWithin(fs: FileSystem)
    ensures NoDuplicates(FileSystemPaths(fs)) <==>
      (&& SubvolumesDiffer(fs.subvolumes)
       && (fs.mountPoint.Some? ==> forall k :: 0 <= k < |fs.subvolumes| ==> !MountsOn(fs.subvolumes, k, fs.mountPoint.value.path)))
  {
    hide NoDuplicates, AreDisjoint, SubvolumesDiffer, OwnPath, MountsOn, SubvolumePaths;
    AppendDistinct(OwnPath(fs.mountPoint), SubvolumePaths(fs.subvolumes));
    DistinctSubvolumes(fs.subvolumes);
    DisjointFromOwn(fs.mountPoint, SubvolumePaths(fs.subvolumes));
    if fs.mountPoint.Some? {
      SubvolumePathIn(fs.subvolumes, fs.mountPoint.value.path);
    }
  }
}
