// The life of chroots: their mounts, their directories and the list of those
// that are to be cleaned up on a signal
// (toolkit/tools/internal/safechroot/safechroot.go:148-266, :382-563).
module Chroots {
  datatype MountPoint = MountPoint(target: string, mountBeforeDefaults: bool, isMounted: bool)

  datatype Chroot = Chroot(rootDir: string, isExistingDir: bool, mountPoints: seq<MountPoint>)

  // Everything outside of the program: which path a target inside a root
  // directory has, which paths lie under a directory, which of its calls fail
  // (the n-th one, whatever it is), and what a failed removal leaves behind.
  datatype Env = Env(join: (string, string) -> string, under: (string, string) -> bool, fails: nat -> bool,
    survives: (nat, string) -> bool)

  // A mounted path, and the chroot that has mounted on it.
  datatype Mount = Mount(path: string, owner: int)

  // The mounts in the order of mounting, the existing directories, the chroots by
  // identity, the active ones in order of initialization, and the number of calls
  // made so far.
  datatype Sys = Sys(mounts: seq<Mount>, dirs: set<string>, chroots: map<int, Chroot>, active: seq<int>, now: nat)

  // A state, and whether the operation that led there succeeded.
  datatype Result = Result(s: Sys, ok: bool)

  function Tick(s: Sys): Sys {
    s.(now := s.now + 1)
  }

  function FullPath(env: Env, c: Chroot, m: MountPoint): string {
    env.join(c.rootDir, m.target)
  }

  // ----------------------------------------------------------- the kernel

  // The topmost mount on a path goes.
  function Unmounted(mounts: seq<Mount>, path: string): seq<Mount> {
    if mounts == [] then []
    else if mounts[|mounts| - 1].path == path then mounts[..|mounts| - 1]
    else Unmounted(mounts[..|mounts| - 1], path) + [mounts[|mounts| - 1]]
  }

  predicate IsMounted(mounts: seq<Mount>, path: string) {
    exists k :: 0 <= k < |mounts| && mounts[k].path == path
  }

  function Removed(env: Env, dirs: set<string>, root: string): set<string> {
    set d | d in dirs && d != root && !env.under(root, d)
  }

  // A removal that fails may have removed some of what is inside.
  function PartlyRemoved(env: Env, dirs: set<string>, root: string, now: nat): set<string> {
    set d | d in dirs && (d == root || !env.under(root, d) || env.survives(now, d))
  }

  // --------------------------------------------------------- one chroot

  // Unmounts the mount points below index i, the last one first.
  function UnmountFrom(env: Env, s: Sys, id: int, i: nat): Result
    requires id in s.chroots && i <= |s.chroots[id].mountPoints|
    decreases i
  {
    if i == 0 then Result(s, true)
    else
      var c := s.chroots[id];
      var m := c.mountPoints[i - 1];
      var path := FullPath(env, c, m);
      if env.fails(s.now) then Result(Tick(s), false)
      else if path !in s.dirs then UnmountFrom(env, Tick(s), id, i - 1)
      else if env.fails(s.now + 1) then Result(Tick(Tick(s)), false)
      else if !IsMounted(s.mounts, path) || !m.isMounted then UnmountFrom(env, Tick(Tick(s)), id, i - 1)
      else if env.fails(s.now + 2) then Result(Tick(Tick(Tick(s))), false)
      else UnmountFrom(env, Tick(Tick(Tick(s))).(mounts := Unmounted(s.mounts, path)), id, i - 1)
  }

  // Unmounts everything, and then removes the root directory.
  function UnmountAndRemove(env: Env, s: Sys, id: int): Result
    requires id in s.chroots
  {
    var c := s.chroots[id];
    var r := UnmountFrom(env, s, id, |c.mountPoints|);
    if !r.ok || c.isExistingDir then r else RemoveRoot(env, r.s, c.rootDir)
  }

  function RemoveRoot(env: Env, s: Sys, root: string): Result {
    if env.fails(s.now) then Result(Tick(s).(dirs := PartlyRemoved(env, s.dirs, root, s.now)), false)
    else Result(Tick(s).(dirs := Removed(env, s.dirs, root)), true)
  }

  // Creates directories inside the root directory.
  function MakeDirs(env: Env, s: Sys, root: string, targets: seq<string>): Result
    decreases |targets|
  {
    if targets == [] then Result(s, true)
    else if env.fails(s.now) then Result(Tick(s), false)
    else MakeDirs(env, Tick(s).(dirs := s.dirs + {env.join(root, targets[0])}), root, targets[1..])
  }

  // Mounts the mount points from index i on.
  function MountFrom(env: Env, s: Sys, id: int, i: nat): Result
    requires id in s.chroots && i <= |s.chroots[id].mountPoints|
    decreases if id in s.chroots then |s.chroots[id].mountPoints| - i else 0
  {
    var c := s.chroots[id];
    if i == |c.mountPoints| then Result(s, true)
    else
      var path := FullPath(env, c, c.mountPoints[i]);
      if env.fails(s.now) then Result(Tick(s), false)
      else if env.fails(s.now + 1) then Result(Tick(Tick(s)).(dirs := s.dirs + {path}), false)
      else
        var c' := c.(mountPoints := c.mountPoints[i := c.mountPoints[i].(isMounted := true)]);
        MountFrom(env, Tick(Tick(s)).(dirs := s.dirs + {path}, mounts := s.mounts + [Mount(path, id)], chroots := s.chroots[id := c']), id, i + 1)
  }

  // ------------------------------------------------------- Initialize, Close

  // What a chroot is initialized with.
  datatype Setup = Setup(hasTar: bool, extraDirectories: seq<string>, extraMountPoints: seq<MountPoint>, includeDefaultMounts: bool)

  const DEFAULT_TARGETS := ["/dev", "/proc", "/sys", "/run", "/dev/pts", "/tmp"]

  function DefaultMountPoints(): (r: seq<MountPoint>)
    ensures |r| == |DEFAULT_TARGETS|
    ensures forall k :: 0 <= k < |r| ==> r[k] == MountPoint(DEFAULT_TARGETS[k], false, false)
  {
    seq(|DEFAULT_TARGETS|, k requires 0 <= k < |DEFAULT_TARGETS| => MountPoint(DEFAULT_TARGETS[k], false, false))
  }

  // Those that are, or are not, mounted before the default ones.
  function Select(mountPoints: seq<MountPoint>, before: bool): seq<MountPoint> {
    if mountPoints == [] then []
    else
      var last := mountPoints[|mountPoints| - 1];
      Select(mountPoints[..|mountPoints| - 1], before) + if last.mountBeforeDefaults == before then [last] else []
  }

  function AllMountPoints(setup: Setup): seq<MountPoint> {
    Select(setup.extraMountPoints, true)
    + (if setup.includeDefaultMounts then DefaultMountPoints() else [])
    + Select(setup.extraMountPoints, false)
  }

  // Whether there is a root directory to work in; a new one is made, unless it
  // is there already.
  function PrepareRoot(env: Env, s: Sys, c: Chroot): Result {
    if c.isExistingDir then Result(s, c.rootDir in s.dirs)
    else if c.rootDir in s.dirs then Result(s, false)
    else if env.fails(s.now) then Result(Tick(s), false)
    else Result(Tick(s).(dirs := s.dirs + {c.rootDir}), true)
  }

  // Everything up to the mounts.
  function Fill(env: Env, s: Sys, id: int, setup: Setup): Result
    requires id in s.chroots
  {
    if setup.hasTar && env.fails(s.now) then Result(Tick(s), false)
    else MakeDirs(env, if setup.hasTar then Tick(s) else s, s.chroots[id].rootDir, setup.extraDirectories)
  }

  function WithMountPoints(s: Sys, id: int, mountPoints: seq<MountPoint>): Sys
    requires id in s.chroots
  {
    s.(chroots := s.chroots[id := s.chroots[id].(mountPoints := mountPoints)])
  }

  // A failed initialization is cleaned up, as well as it can be.
  function Failed(env: Env, s: Sys, id: int): Result
    requires id in s.chroots
  {
    Result(UnmountAndRemove(env, s, id).s, false)
  }

  function Initialize(env: Env, s: Sys, id: int, setup: Setup): Result
    requires id in s.chroots
  {
    var prepared := PrepareRoot(env, s, s.chroots[id]);
    if !prepared.ok then prepared
    else
      var filled := Fill(env, prepared.s, id, setup);
      FillKeeps(env, prepared.s, id, setup);
      if !filled.ok then Failed(env, filled.s, id)
      else
        var mounted := MountFrom(env, WithMountPoints(filled.s, id, AllMountPoints(setup)), id, 0);
        MountKeeps(env, WithMountPoints(filled.s, id, AllMountPoints(setup)), id, 0);
        if !mounted.ok then Failed(env, mounted.s, id)
        else Result(mounted.s.(active := mounted.s.active + [id]), true)
  }

  function IndexOf(ids: seq<int>, id: int): (i: nat)
    ensures i <= |ids| && (forall k :: 0 <= k < i ==> ids[k] != id) && (i < |ids| ==> ids[i] == id)
  {
    if ids == [] || ids[0] == id then 0 else 1 + IndexOf(ids[1..], id)
  }

  // Unmounts and removes, and tries once more if that fails.
  function TryTwice(env: Env, s: Sys, id: int): Result
    requires id in s.chroots
  {
    var first := UnmountAndRemove(env, s, id);
    UnmountKeeps(env, s, id);
    if first.ok then first else UnmountAndRemove(env, first.s, id)
  }

  function Close(env: Env, s: Sys, id: int): Result
    requires id in s.chroots
  {
    var index := IndexOf(s.active, id);
    if index == |s.active| then Result(s, true)
    else
      var r := TryTwice(env, s, id);
      if r.ok then Result(r.s.(active := s.active[..index] + s.active[index + 1..]), true) else r
  }

  // Cleans up the active chroots below index i, the last one first.
  function CleanupFrom(env: Env, s: Sys, i: nat): Sys
    requires i <= |s.active| && forall k :: 0 <= k < |s.active| ==> s.active[k] in s.chroots
    decreases i
  {
    if i == 0 then s
    else
      UnmountKeeps(env, s, s.active[i - 1]);
      CleanupFrom(env, UnmountAndRemove(env, s, s.active[i - 1]).s, i - 1)
  }

  // -------------------------------------- what the operations leave alone

  lemma {:induction false} UnmountFromKeeps(env: Env, s: Sys, id: int, i: nat)
    requires id in s.chroots && i <= |s.chroots[id].mountPoints|
    ensures var r := UnmountFrom(env, s, id, i); r.s.chroots == s.chroots && r.s.active == s.active && r.s.dirs == s.dirs
    decreases i
  {
    hide Unmounted;
    if i == 0 {
    } else {
      var path := FullPath(env, s.chroots[id], s.chroots[id].mountPoints[i - 1]);
      UnmountFromKeeps(env, Tick(s), id, i - 1);
      UnmountFromKeeps(env, Tick(Tick(s)), id, i - 1);
      UnmountFromKeeps(env, Tick(Tick(Tick(s))).(mounts := Unmounted(s.mounts, path)), id, i - 1);
    }
  }

  lemma UnmountKeeps(env: Env, s: Sys, id: int)
    requires id in s.chroots
    ensures var r := UnmountAndRemove(env, s, id); r.s.chroots == s.chroots && r.s.active == s.active
  {
    UnmountFromKeeps(env, s, id, |s.chroots[id].mountPoints|);
  }

  lemma {:induction false} MakeDirsKeeps(env: Env, s: Sys, root: string, targets: seq<string>)
    ensures var r := MakeDirs(env, s, root, targets);
      r.s.chroots == s.chroots && r.s.active == s.active && r.s.mounts == s.mounts && s.dirs <= r.s.dirs
    decreases |targets|
  {
    if targets != [] && !env.fails(s.now) {
      MakeDirsKeeps(env, Tick(s).(dirs := s.dirs + {env.join(root, targets[0])}), root, targets[1..]);
    }
  }

  lemma FillKeeps(env: Env, s: Sys, id: int, setup: Setup)
    requires id in s.chroots
    ensures var r := Fill(env, s, id, setup);
      r.s.chroots == s.chroots && r.s.active == s.active && r.s.mounts == s.mounts && s.dirs <= r.s.dirs
  {
    MakeDirsKeeps(env, if setup.hasTar then Tick(s) else s, s.chroots[id].rootDir, setup.extraDirectories);
  }

  // Only the flags of the mount points of the chroot change.
  lemma {:induction false} MountKeeps(env: Env, s: Sys, id: int, i: nat)
    requires id in s.chroots && i <= |s.chroots[id].mountPoints|
    ensures var r := MountFrom(env, s, id, i);
      && r.s.active == s.active && s.dirs <= r.s.dirs && r.s.chroots.Keys == s.chroots.Keys
      && (forall d :: d in s.chroots && d != id ==> r.s.chroots[d] == s.chroots[d])
      && r.s.chroots[id].rootDir == s.chroots[id].rootDir && r.s.chroots[id].isExistingDir == s.chroots[id].isExistingDir
      && |r.s.chroots[id].mountPoints| == |s.chroots[id].mountPoints|
    decreases |s.chroots[id].mountPoints| - i
  {
    var c := s.chroots[id];
    if i < |c.mountPoints| {
      var path := FullPath(env, c, c.mountPoints[i]);
      var c' := c.(mountPoints := c.mountPoints[i := c.mountPoints[i].(isMounted := true)]);
      MountKeeps(env, Tick(Tick(s)).(dirs := s.dirs + {path}, mounts := s.mounts + [Mount(path, id)], chroots := s.chroots[id := c']), id, i + 1);
    }
  }

  // ------------------------------------------------------------ the program

  class ChrootManager {
    const env: Env
    var mounts: seq<Mount>
    var dirs: set<string>
    var chroots: map<int, Chroot>
    var activeChroots: seq<int>
    var now: nat

    constructor (env: Env, s: Sys)
      ensures this.env == env && Contents() == s
    {
      this.env := env;
      mounts, dirs, chroots, activeChroots, now := s.mounts, s.dirs, s.chroots, s.active, s.now;
    }

    function Contents(): Sys
      reads this
    {
      Sys(mounts, dirs, chroots, activeChroots, now)
    }

    // Makes a call: whether it succeeds.
    method Call() returns (ok: bool)
      modifies this`now
      ensures ok == !env.fails(old(now)) && now == old(now) + 1
    {
      ok := !env.fails(now);
      now := now + 1;
    }

    method Unmount(path: string) returns (ok: bool)
      modifies this`now, this`mounts
      ensures ok == !env.fails(old(now)) && now == old(now) + 1
      ensures mounts == if ok then Unmounted(old(mounts), path) else old(mounts)
    {
      ok := Call();
      if ok {
        mounts := Unmounted(mounts, path);
      }
    }

    method RemoveAll(root: string) returns (ok: bool)
      modifies this`now, this`dirs
      ensures Result(Contents(), ok) == RemoveRoot(env, old(Contents()), root)
    {
      ok := Call();
      dirs := if ok then Removed(env, dirs, root) else PartlyRemoved(env, dirs, root, now - 1);
    }

    method UnmountAndRemoveChroot(id: int) returns (ok: bool)
      requires id in chroots
      modifies this`mounts, this`dirs, this`now
      ensures Result(Contents(), ok) == UnmountAndRemove(env, old(Contents()), id)
    {
      hide Unmounted, Removed;
      var c := chroots[id];
      ghost var goal := UnmountFrom(env, Contents(), id, |c.mountPoints|);
      var i := |c.mountPoints|;
      while i > 0
        invariant 0 <= i <= |c.mountPoints| && chroots == old(chroots) && activeChroots == old(activeChroots)
        invariant UnmountFrom(env, Contents(), id, i) == goal
      {
        i := i - 1;
        var mountPoint := c.mountPoints[i];
        var fullPath := FullPath(env, c, mountPoint);
        ok := Call();
        if !ok {
          return false;
        }
        if fullPath !in dirs {
          continue;
        }
        ok := Call();
        if !ok {
          return false;
        }
        if !IsMounted(mounts, fullPath) {
          continue;
        }
        if !mountPoint.isMounted {
          continue;
        }
        ok := Unmount(fullPath);
        if !ok {
          return false;
        }
      }
      if !c.isExistingDir {
        ok := RemoveAll(c.rootDir);
      } else {
        ok := true;
      }
    }

    method CreateMountPoints(id: int) returns (ok: bool)
      requires id in chroots
      modifies this`mounts, this`dirs, this`chroots, this`now
      ensures Result(Contents(), ok) == MountFrom(env, old(Contents()), id, 0)
    {
      hide MountFrom, FullPath;
      ghost var goal := MountFrom(env, Contents(), id, 0);
      var i := 0;
      while i < |chroots[id].mountPoints|
        invariant id in chroots && i <= |chroots[id].mountPoints| == |old(chroots[id]).mountPoints|
        invariant activeChroots == old(activeChroots)
        invariant MountFrom(env, Contents(), id, i) == goal
        decreases |old(chroots[id]).mountPoints| - i
      {
        MountStep(env, Contents(), id, i);
        var c := chroots[id];
        var fullPath := FullPath(env, c, c.mountPoints[i]);
        ok := Call();
        if !ok {
          return false;
        }
        dirs := dirs + {fullPath};
        ok := Call();
        if !ok {
          return false;
        }
        mounts := mounts + [Mount(fullPath, id)];
        chroots := chroots[id := c.(mountPoints := c.mountPoints[i := c.mountPoints[i].(isMounted := true)])];
        i := i + 1;
      }
      MountStep(env, Contents(), id, i);
      return true;
    }

    // Makes the directory, extracts the tar and creates the extra directories.
    method FillRoot(id: int, setup: Setup) returns (ok: bool)
      requires id in chroots
      modifies this`dirs, this`now
      ensures Result(Contents(), ok) == Fill(env, old(Contents()), id, setup)
    {
      var root := chroots[id].rootDir;
      if setup.hasTar {
        ok := Call();
        if !ok {
          return false;
        }
      }
      ghost var goal := MakeDirs(env, Contents(), root, setup.extraDirectories);
      assert setup.extraDirectories[0..] == setup.extraDirectories;
      for i := 0 to |setup.extraDirectories|
        invariant chroots == old(chroots) && activeChroots == old(activeChroots) && mounts == old(mounts)
        invariant MakeDirs(env, Contents(), root, setup.extraDirectories[i..]) == goal
      {
        assert setup.extraDirectories[i..][1..] == setup.extraDirectories[i + 1..];
        ok := Call();
        if !ok {
          return false;
        }
        dirs := dirs + {env.join(root, setup.extraDirectories[i])};
      }
      return true;
    }

    method OrderMountPoints(setup: Setup) returns (all: seq<MountPoint>)
      ensures all == AllMountPoints(setup)
    {
      all := [];
      var extra := setup.extraMountPoints;
      for i := 0 to |extra|
        invariant all == Select(extra[..i], true)
      {
        assert extra[..i + 1][..i] == extra[..i];
        if extra[i].mountBeforeDefaults {
          all := all + [extra[i]];
        }
      }
      assert extra[..|extra|] == extra;
      if setup.includeDefaultMounts {
        all := all + DefaultMountPoints();
      }
      ghost var before := all;
      for i := 0 to |extra|
        invariant all == before + Select(extra[..i], false)
      {
        assert extra[..i + 1][..i] == extra[..i];
        if !extra[i].mountBeforeDefaults {
          all := all + [extra[i]];
        }
      }
    }

    method InitializeChroot(id: int, setup: Setup) returns (ok: bool)
      requires id in chroots
      modifies this
      ensures Result(Contents(), ok) == Initialize(env, old(Contents()), id, setup)
    {
      hide UnmountAndRemove, MountFrom, Fill, AllMountPoints;
      var c := chroots[id];
      if c.isExistingDir {
        if c.rootDir !in dirs {
          return false;
        }
      } else {
        if c.rootDir in dirs {
          return false;
        }
        ok := Call();
        if !ok {
          return false;
        }
        dirs := dirs + {c.rootDir};
      }
      FillKeeps(env, Contents(), id, setup);
      ok := FillRoot(id, setup);
      if !ok {
        var _ := UnmountAndRemoveChroot(id);
        return false;
      }
      var all := OrderMountPoints(setup);
      chroots := chroots[id := chroots[id].(mountPoints := all)];
      MountKeeps(env, Contents(), id, 0);
      ok := CreateMountPoints(id);
      if !ok {
        var _ := UnmountAndRemoveChroot(id);
        return false;
      }
      activeChroots := activeChroots + [id];
      return true;
    }

    method CloseChroot(id: int) returns (ok: bool)
      requires id in chroots
      modifies this
      ensures Result(Contents(), ok) == Close(env, old(Contents()), id)
    {
      hide UnmountAndRemove;
      var index := FindActive(id);
      if index == |activeChroots| {
        return true;
      }
      UnmountKeeps(env, Contents(), id);
      ok := UnmountAndRemoveChroot(id);
      if !ok {
        UnmountKeeps(env, Contents(), id);
        ok := UnmountAndRemoveChroot(id);
      }
      if ok {
        activeChroots := activeChroots[..index] + activeChroots[index + 1..];
      }
    }

    method FindActive(id: int) returns (index: nat)
      ensures index == IndexOf(activeChroots, id)
    {
      for i := 0 to |activeChroots|
        invariant id !in activeChroots[..i]
      {
        if activeChroots[i] == id {
          IndexIs(activeChroots, id, i);
          return i;
        }
      }
      IndexIs(activeChroots, id, |activeChroots|);
      return |activeChroots|;
    }

    method CleanupAllChroots()
      requires forall k :: 0 <= k < |activeChroots| ==> activeChroots[k] in chroots
      modifies this`mounts, this`dirs, this`now
      ensures Contents() == CleanupFrom(env, old(Contents()), |old(activeChroots)|)
    {
      hide UnmountAndRemove;
      ghost var goal := CleanupFrom(env, Contents(), |activeChroots|);
      var i := |activeChroots|;
      while i > 0
        invariant 0 <= i <= |activeChroots| && chroots == old(chroots) && activeChroots == old(activeChroots)
        invariant CleanupFrom(env, Contents(), i) == goal
      {
        i := i - 1;
        UnmountKeeps(env, Contents(), activeChroots[i]);
        var _ := UnmountAndRemoveChroot(activeChroots[i]);
      }
    }
  }

  // The i-th mount point is mounted.
  function Mounted(env: Env, s: Sys, id: int, i: nat): Sys
    requires id in s.chroots && i < |s.chroots[id].mountPoints|
  {
    var c := s.chroots[id];
    var path := FullPath(env, c, c.mountPoints[i]);
    var c' := c.(mountPoints := c.mountPoints[i := c.mountPoints[i].(isMounted := true)]);
    Sys(s.mounts + [Mount(path, id)], s.dirs + {path}, s.chroots[id := c'], s.active, s.now + 2)
  }

  lemma MountStep(env: Env, s: Sys, id: int, i: nat)
    requires id in s.chroots && i <= |s.chroots[id].mountPoints|
    ensures MountFrom(env, s, id, i) ==
      if i == |s.chroots[id].mountPoints| then Result(s, true)
      else if env.fails(s.now) then Result(Tick(s), false)
      else if env.fails(s.now + 1) then
        Result(Tick(Tick(s)).(dirs := s.dirs + {FullPath(env, s.chroots[id], s.chroots[id].mountPoints[i])}), false)
      else MountFrom(env, Mounted(env, s, id, i), id, i + 1)
  {
    hide FullPath;
  }

  lemma {:induction false} IndexIs(ids: seq<int>, id: int, i: nat)
    requires i <= |ids| && id !in ids[..i] && (i < |ids| ==> ids[i] == id)
    ensures IndexOf(ids, id) == i
  {
    if i == 0 {
    } else {
      assert ids[0] == ids[..i][0];
      assert ids[1..][..i - 1] == ids[..i][1..];
      IndexIs(ids[1..], id, i - 1);
    }
  }
}
