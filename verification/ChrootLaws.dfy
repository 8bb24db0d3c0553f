// What unmounting and mounting one chroot does to its own mounts, to those of
// other chroots, and to the directories.
module ChrootLaws {
  import opened Chroots
  import opened Sequences

  // ------------------------------------------------------------ own mounts

  // The paths that the chroot has mounted, in order of mounting.
  function Own(mounts: seq<Mount>, id: int): seq<string> {
    if mounts == [] then []
    else
      var n := |mounts| - 1;
      Own(mounts[..n], id) + if mounts[n].owner == id then [mounts[n].path] else []
  }

  lemma OwnMore(mounts: seq<Mount>, m: Mount, id: int)
    ensures Own(mounts + [m], id) == if m.owner == id then Own(mounts, id) + [m.path] else Own(mounts, id)
  {
    assert (mounts + [m])[..|mounts|] == mounts;
  }

  lemma {:induction false} OwnHas(mounts: seq<Mount>, path: string, id: int)
    ensures path in Own(mounts, id) <==> Mount(path, id) in mounts
  {
    if mounts == [] {
    } else {
      var n := |mounts| - 1;
      OwnHas(mounts[..n], path, id);
      assert mounts == mounts[..n] + [mounts[n]];
    }
  }

  // What is mounted on the path is of this chroot.
  predicate Holds(mounts: seq<Mount>, path: string, id: int) {
    forall k :: 0 <= k < |mounts| && mounts[k].path == path ==> mounts[k].owner == id
  }

  // The last mount of a chroot goes; those of the others stay.
  lemma {:induction false} OwnUnmounted(mounts: seq<Mount>, path: string, id: int, own: seq<string>)
    requires Holds(mounts, path, id) && Own(mounts, id) == own + [path]
    ensures Own(Unmounted(mounts, path), id) == own
  {
    if mounts == [] {
    } else {
      var n := |mounts| - 1;
      var front, last := mounts[..n], mounts[n];
      if last.path == path {
        assert Own(front, id) == (own + [path])[..|own|];
      } else {
        assert Own(mounts, id)[|own|] == path;
        OwnUnmounted(front, path, id, own);
        OwnMore(Unmounted(front, path), last, id);
      }
    }
  }

  lemma {:induction false} OthersUnmounted(mounts: seq<Mount>, path: string, id: int, d: int)
    requires Holds(mounts, path, id) && d != id
    ensures Own(Unmounted(mounts, path), d) == Own(mounts, d)
  {
    if mounts == [] {
    } else {
      var n := |mounts| - 1;
      var front, last := mounts[..n], mounts[n];
      assert mounts == front + [last];
      OwnMore(front, last, d);
      if last.path != path {
        OthersUnmounted(front, path, id, d);
        OwnMore(Unmounted(front, path), last, d);
      }
    }
  }

  lemma {:induction false} UnmountedFrom(mounts: seq<Mount>, path: string, m: Mount)
    requires m in Unmounted(mounts, path)
    ensures m in mounts
  {
    if mounts == [] {
    } else {
      var n := |mounts| - 1;
      if mounts[n].path != path && m != mounts[n] {
        UnmountedFrom(mounts[..n], path, m);
      }
    }
  }

  // What mounting and unmounting for one chroot may do: the others keep their
  // mounts, and only it gets new ones, on its paths.
  ghost predicate Shifts(mounts: seq<Mount>, mounts': seq<Mount>, id: int, paths: seq<string>) {
    && (forall d :: d != id ==> Own(mounts', d) == Own(mounts, d))
    && forall m :: m in mounts' ==> m in mounts || (m.owner == id && m.path in paths)
  }

  lemma ShiftsTwice(mounts: seq<Mount>, mounts': seq<Mount>, mounts'': seq<Mount>, id: int, paths: seq<string>)
    requires Shifts(mounts, mounts', id, paths) && Shifts(mounts', mounts'', id, paths)
    ensures Shifts(mounts, mounts'', id, paths)
  {
    hide Own;
  }

  lemma ShiftsNot(mounts: seq<Mount>, id: int, paths: seq<string>)
    ensures Shifts(mounts, mounts, id, paths)
  {
    hide Own;
  }

  lemma UnmountShifts(mounts: seq<Mount>, path: string, id: int, paths: seq<string>)
    requires Holds(mounts, path, id)
    ensures Shifts(mounts, Unmounted(mounts, path), id, paths)
  {
    hide Own, Unmounted;
    forall d | d != id ensures Own(Unmounted(mounts, path), d) == Own(mounts, d) {
      OthersUnmounted(mounts, path, id, d);
    }
    forall m | m in Unmounted(mounts, path) ensures m in mounts {
      UnmountedFrom(mounts, path, m);
    }
  }

  // Paths that the chroot alone has mounted on stay so.
  lemma HoldsStill(mounts: seq<Mount>, mounts': seq<Mount>, id: int, paths: seq<string>, path: string, d: int)
    requires Shifts(mounts, mounts', id, paths) && Holds(mounts, path, d)
    requires d == id || path !in paths
    ensures Holds(mounts', path, d)
  {
    hide Own;
    forall k | 0 <= k < |mounts'| && mounts'[k].path == path ensures mounts'[k].owner == d {
      assert mounts'[k] in mounts';
    }
  }

  // -------------------------------------------------------- one chroot

  // The paths of the mount points of a chroot.
  function Paths(env: Env, root: string, mountPoints: seq<MountPoint>): (r: seq<string>)
    ensures |r| == |mountPoints| && forall k :: 0 <= k < |r| ==> r[k] == env.join(root, mountPoints[k].target)
  {
    seq(|mountPoints|, k requires 0 <= k < |mountPoints| => env.join(root, mountPoints[k].target))
  }

  function PathsOf(env: Env, c: Chroot): seq<string> {
    Paths(env, c.rootDir, c.mountPoints)
  }

  // The first k mount points are what the chroot has mounted, in this order.
  predicate HasMounted(env: Env, s: Sys, id: int, k: nat)
    requires id in s.chroots
  {
    var c := s.chroots[id];
    && k <= |c.mountPoints|
    && Own(s.mounts, id) == PathsOf(env, c)[..k]
    && NoDuplicates(PathsOf(env, c))
    && (forall j :: 0 <= j < k ==> c.mountPoints[j].isMounted)
    && (forall j :: 0 <= j < k ==> PathsOf(env, c)[j] in s.dirs)
  }

  // Moreover, the chroot has mounted nothing where its root directory is gone.
  predicate IsClean(env: Env, s: Sys, id: int, k: nat)
    requires id in s.chroots
  {
    HasMounted(env, s, id, k) && (!s.chroots[id].isExistingDir && s.chroots[id].rootDir !in s.dirs ==> k == 0)
  }

  // No other chroot has mounted on one of these paths.
  predicate Exclusive(mounts: seq<Mount>, paths: seq<string>, id: int) {
    forall j :: 0 <= j < |paths| ==> Holds(mounts, paths[j], id)
  }

  lemma ExclusiveStill(mounts: seq<Mount>, mounts': seq<Mount>, id: int, paths: seq<string>, own: seq<string>, d: int)
    requires Shifts(mounts, mounts', id, paths) && Exclusive(mounts, own, d)
    requires d == id || forall j :: 0 <= j < |own| ==> own[j] !in paths
    ensures Exclusive(mounts', own, d)
  {
    hide Shifts, Holds;
    forall j | 0 <= j < |own| ensures Holds(mounts', own[j], d) {
      HoldsStill(mounts, mounts', id, paths, own[j], d);
    }
  }

  // ------------------------------------------------------------ unmounting

  lemma TickIs(s: Sys)
    ensures Tick(s) == s.(now := s.now + 1)
  {
  }

  lemma UnmountStep(env: Env, s: Sys, id: int, i: nat)
    requires id in s.chroots && i <= |s.chroots[id].mountPoints|
    ensures i == 0 ==> UnmountFrom(env, s, id, i) == Result(s, true)
    ensures i > 0 ==>
      var c := s.chroots[id];
      var path := PathsOf(env, c)[i - 1];
      UnmountFrom(env, s, id, i) ==
        if env.fails(s.now) then Result(Tick(s), false)
        else if path !in s.dirs then UnmountFrom(env, Tick(s), id, i - 1)
        else if env.fails(s.now + 1) then Result(Tick(Tick(s)), false)
        else if !IsMounted(s.mounts, path) || !c.mountPoints[i - 1].isMounted then UnmountFrom(env, Tick(Tick(s)), id, i - 1)
        else if env.fails(s.now + 2) then Result(Tick(Tick(Tick(s))), false)
        else UnmountFrom(env, Tick(Tick(Tick(s))).(mounts := Unmounted(s.mounts, path)), id, i - 1)
  {
    hide Unmounted, IsMounted;
  }

  lemma MountedWithin(env: Env, s: Sys, id: int, k: nat)
    requires id in s.chroots && HasMounted(env, s, id, k)
    ensures k <= |s.chroots[id].mountPoints| == |PathsOf(env, s.chroots[id])|
    ensures Own(s.mounts, id) == PathsOf(env, s.chroots[id])[..k] && |Own(s.mounts, id)| == k
  {
    hide Own;
  }

  lemma SameMounts(env: Env, s: Sys, s': Sys, id: int, k: nat)
    requires id in s.chroots && HasMounted(env, s, id, k)
    ensures id in s'.chroots && s'.chroots[id] == s.chroots[id] && Own(s'.mounts, id) == Own(s.mounts, id) && s.dirs <= s'.dirs ==>
      HasMounted(env, s', id, k)
  {
    hide Own, PathsOf, NoDuplicates;
  }

  // Whether the mount point below index i is mounted.
  lemma MountedHere(env: Env, s: Sys, id: int, i: nat, k: nat)
    requires id in s.chroots && HasMounted(env, s, id, k) && k <= i <= |s.chroots[id].mountPoints| && i > 0
    requires Exclusive(s.mounts, PathsOf(env, s.chroots[id]), id)
    ensures var c := s.chroots[id];
      var path := PathsOf(env, c)[i - 1];
      && Holds(s.mounts, path, id)
      && (IsMounted(s.mounts, path) <==> k == i)
      && (k == i ==> path in s.dirs && c.mountPoints[i - 1].isMounted)
  {
    var paths := PathsOf(env, s.chroots[id]);
    var path := paths[i - 1];
    OwnHas(s.mounts, path, id);
    hide Own, PathsOf;
    assert Holds(s.mounts, path, id);
    MountedByOwner(s.mounts, path, id);
    if k == i {
      assert paths[..k][i - 1] == path;
    }
  }

  lemma MountedByOwner(mounts: seq<Mount>, path: string, id: int)
    requires Holds(mounts, path, id)
    ensures IsMounted(mounts, path) <==> Mount(path, id) in mounts
  {
    if IsMounted(mounts, path) {
      var k :| 0 <= k < |mounts| && mounts[k].path == path;
      assert mounts[k] == Mount(path, id);
    }
  }

  // The last mount of the chroot goes.
  lemma LastUnmounted(env: Env, s: Sys, s': Sys, id: int, k: nat)
    requires id in s.chroots && HasMounted(env, s, id, k) && k > 0
    requires Holds(s.mounts, PathsOf(env, s.chroots[id])[k - 1], id)
    requires s'.chroots == s.chroots && s'.dirs == s.dirs
    requires s'.mounts == Unmounted(s.mounts, PathsOf(env, s.chroots[id])[k - 1])
    ensures HasMounted(env, s', id, k - 1)
  {
    var paths := PathsOf(env, s.chroots[id]);
    hide PathsOf, NoDuplicates, Unmounted;
    assert paths[..k] == paths[..k - 1] + [paths[k - 1]];
    OwnUnmounted(s.mounts, paths[k - 1], id, paths[..k - 1]);
  }

  // Mount points are unmounted last first; where that fails, the others stay.
  lemma {:induction false} UnmountFromLaw(env: Env, s: Sys, id: int, i: nat, k: nat) returns (left: nat)
    requires id in s.chroots && k <= i <= |s.chroots[id].mountPoints|
    requires HasMounted(env, s, id, k) && Exclusive(s.mounts, PathsOf(env, s.chroots[id]), id)
    ensures UnmountFrom(env, s, id, i).s.chroots == s.chroots
    ensures left <= k && HasMounted(env, UnmountFrom(env, s, id, i).s, id, left)
    ensures UnmountFrom(env, s, id, i).ok ==> left == 0
    ensures Shifts(s.mounts, UnmountFrom(env, s, id, i).s.mounts, id, [])
    decreases i
  {
    hide *;
    UnmountStep(env, s, id, i);
    UnmountFromKeeps(env, s, id, i);
    MountedWithin(env, s, id, k);
    ShiftsNot(s.mounts, id, []);
    left := k;
    if i == 0 {
    } else {
      var c := s.chroots[id];
      var path := PathsOf(env, c)[i - 1];
      TickIs(s);
      TickIs(Tick(s));
      TickIs(Tick(Tick(s)));
      SameMounts(env, s, Tick(s), id, k);
      SameMounts(env, s, Tick(Tick(s)), id, k);
      SameMounts(env, s, Tick(Tick(Tick(s))), id, k);
      MountedHere(env, s, id, i, k);
      if env.fails(s.now) {
      } else if path !in s.dirs {
        left := UnmountFromLaw(env, Tick(s), id, i - 1, k);
      } else if env.fails(s.now + 1) {
      } else if !IsMounted(s.mounts, path) || !c.mountPoints[i - 1].isMounted {
        left := UnmountFromLaw(env, Tick(Tick(s)), id, i - 1, k);
      } else if env.fails(s.now + 2) {
      } else {
        var s' := Tick(Tick(Tick(s))).(mounts := Unmounted(s.mounts, path));
        LastUnmounted(env, s, s', id, k);
        UnmountShifts(s.mounts, path, id, []);
        ExclusiveStill(s.mounts, s'.mounts, id, [], PathsOf(env, c), id);
        left := UnmountFromLaw(env, s', id, i - 1, k - 1);
        ShiftsTwice(s.mounts, s'.mounts, UnmountFrom(env, s', id, i - 1).s.mounts, id, []);
      }
    }
  }

  // What an attempt to unmount and remove does, once the mounts are dealt with.
  lemma UnmountAndRemoveIs(env: Env, s: Sys, id: int)
    requires id in s.chroots
    ensures var c := s.chroots[id];
      var u := UnmountFrom(env, s, id, |c.mountPoints|);
      var r := UnmountAndRemove(env, s, id);
      && r.s.mounts == u.s.mounts && r.s.chroots == s.chroots && r.s.active == s.active
      && (r.ok ==> u.ok)
      && (c.isExistingDir || !u.ok ==> r.s.dirs == s.dirs)
      && (forall d :: d in s.dirs && !Inside(env, c.rootDir, d) ==> d in r.s.dirs)
      && (!r.ok && c.rootDir in s.dirs ==> c.rootDir in r.s.dirs)
      && (r.ok && !c.isExistingDir ==> c.rootDir !in r.s.dirs)
      && r.s.dirs <= s.dirs
  {
    UnmountFromKeeps(env, s, id, |s.chroots[id].mountPoints|);
    hide UnmountFrom;
  }

  // The root directory, or a path under it.
  predicate Inside(env: Env, root: string, path: string) {
    path == root || env.under(root, path)
  }

  // Unmounting undoes the mounts of the chroot in reverse order, as far as it
  // gets; the others keep theirs. It succeeds only when none is left, and only
  // then does it remove anything.
  lemma UnmountLaw(env: Env, s: Sys, id: int, k: nat) returns (left: nat)
    requires id in s.chroots && IsClean(env, s, id, k) && Exclusive(s.mounts, PathsOf(env, s.chroots[id]), id)
    ensures UnmountAndRemove(env, s, id).s.chroots == s.chroots && UnmountAndRemove(env, s, id).s.active == s.active
    ensures left <= k && IsClean(env, UnmountAndRemove(env, s, id).s, id, left)
    ensures Own(UnmountAndRemove(env, s, id).s.mounts, id) <= Own(s.mounts, id)
    ensures Shifts(s.mounts, UnmountAndRemove(env, s, id).s.mounts, id, [])
    ensures Exclusive(UnmountAndRemove(env, s, id).s.mounts, PathsOf(env, s.chroots[id]), id)
    ensures UnmountAndRemove(env, s, id).ok ==> Own(UnmountAndRemove(env, s, id).s.mounts, id) == []
    ensures UnmountFrom(env, s, id, |s.chroots[id].mountPoints|).ok ==> Own(UnmountAndRemove(env, s, id).s.mounts, id) == []
    ensures UnmountAndRemove(env, s, id).s.dirs != s.dirs ==> Own(UnmountAndRemove(env, s, id).s.mounts, id) == []
    ensures !UnmountAndRemove(env, s, id).ok && s.chroots[id].rootDir in s.dirs ==>
      s.chroots[id].rootDir in UnmountAndRemove(env, s, id).s.dirs
  {
    hide *;
    CleanIs(env, s, id, k);
    var n := |s.chroots[id].mountPoints|;
    MountedWithin(env, s, id, k);
    left := UnmountFromLaw(env, s, id, n, k);
    UnmountFromKeeps(env, s, id, n);
    UnmountAndRemoveIs(env, s, id);
    var mid, r := UnmountFrom(env, s, id, n).s, UnmountAndRemove(env, s, id);
    MountedWithin(env, mid, id, left);
    NothingMounted(env, mid, r.s, id, left);
    SameMounts(env, mid, r.s, id, left);
    CleanIs(env, r.s, id, left);
    ExclusiveStill(s.mounts, r.s.mounts, id, [], PathsOf(env, s.chroots[id]), id);
  }

  lemma CleanIs(env: Env, s: Sys, id: int, k: nat)
    requires id in s.chroots
    ensures IsClean(env, s, id, k) <==>
      HasMounted(env, s, id, k) && (!s.chroots[id].isExistingDir && s.chroots[id].rootDir !in s.dirs ==> k == 0)
  {
    hide HasMounted;
  }

  lemma NothingMounted(env: Env, s: Sys, s': Sys, id: int, k: nat)
    requires id in s.chroots && HasMounted(env, s, id, k) && s'.chroots == s.chroots && s'.mounts == s.mounts
    ensures k == 0 ==> HasMounted(env, s', id, k)
  {
    hide Own, PathsOf, NoDuplicates;
  }

  // ------------------------------------------------------------- mounting

  lemma MountedNext(env: Env, s: Sys, id: int, i: nat)
    requires id in s.chroots && i < |s.chroots[id].mountPoints| && HasMounted(env, s, id, i)
    ensures PathsOf(env, Mounted(env, s, id, i).chroots[id]) == PathsOf(env, s.chroots[id])
    ensures HasMounted(env, Mounted(env, s, id, i), id, i + 1)
  {
    var c := s.chroots[id];
    var path := FullPath(env, c, c.mountPoints[i]);
    OwnMore(s.mounts, Mount(path, id), id);
    hide Own;
    var paths := PathsOf(env, c);
    assert PathsOf(env, Mounted(env, s, id, i).chroots[id]) == paths;
    assert paths[..i + 1] == paths[..i] + [path];
  }

  lemma MountShifts(env: Env, s: Sys, id: int, i: nat)
    requires id in s.chroots && i < |s.chroots[id].mountPoints|
    ensures Shifts(s.mounts, Mounted(env, s, id, i).mounts, id, PathsOf(env, s.chroots[id]))
  {
    var c := s.chroots[id];
    var path := FullPath(env, c, c.mountPoints[i]);
    assert PathsOf(env, c)[i] == path;
    forall d | d != id ensures Own(s.mounts + [Mount(path, id)], d) == Own(s.mounts, d) {
      OwnMore(s.mounts, Mount(path, id), d);
    }
    hide Own;
  }

  lemma MountedIs(env: Env, s: Sys, id: int, i: nat)
    requires id in s.chroots && i < |s.chroots[id].mountPoints|
    ensures var s' := Mounted(env, s, id, i);
      s'.chroots.Keys == s.chroots.Keys && |s'.chroots[id].mountPoints| == |s.chroots[id].mountPoints|
  {
  }

  // Mounting stops where it fails; what is mounted by then is a front part.
  lemma {:induction false} MountLaw(env: Env, s: Sys, id: int, i: nat) returns (k: nat)
    requires id in s.chroots && i <= |s.chroots[id].mountPoints|
    requires HasMounted(env, s, id, i) && Exclusive(s.mounts, PathsOf(env, s.chroots[id]), id)
    ensures id in MountFrom(env, s, id, i).s.chroots
    ensures PathsOf(env, MountFrom(env, s, id, i).s.chroots[id]) == PathsOf(env, s.chroots[id])
    ensures HasMounted(env, MountFrom(env, s, id, i).s, id, k)
    ensures MountFrom(env, s, id, i).ok ==> k == |s.chroots[id].mountPoints|
    ensures Shifts(s.mounts, MountFrom(env, s, id, i).s.mounts, id, PathsOf(env, s.chroots[id]))
    ensures Exclusive(MountFrom(env, s, id, i).s.mounts, PathsOf(env, s.chroots[id]), id)
    decreases |s.chroots[id].mountPoints| - i
  {
    hide *;
    MountStep(env, s, id, i);
    k := i;
    TickIs(s);
    TickIs(Tick(s));
    var paths := PathsOf(env, s.chroots[id]);
    if i == |s.chroots[id].mountPoints| || env.fails(s.now) || env.fails(s.now + 1) {
      SameMounts(env, s, MountFrom(env, s, id, i).s, id, i);
      ShiftsNot(s.mounts, id, paths);
    } else {
      var s' := Mounted(env, s, id, i);
      MountedIs(env, s, id, i);
      MountedNext(env, s, id, i);
      MountShifts(env, s, id, i);
      ExclusiveStill(s.mounts, s'.mounts, id, paths, paths, id);
      k := MountLaw(env, s', id, i + 1);
      ShiftsTwice(s.mounts, s'.mounts, MountFrom(env, s', id, i + 1).s.mounts, id, paths);
    }
  }

  // ------------------------------------------------- the order of mounting

  predicate AllBefore(mountPoints: seq<MountPoint>, before: bool) {
    forall k :: 0 <= k < |mountPoints| ==> mountPoints[k].mountBeforeDefaults == before
  }

  lemma {:induction false} SelectedAre(mountPoints: seq<MountPoint>, before: bool)
    ensures AllBefore(Select(mountPoints, before), before)
  {
    if mountPoints == [] {
    } else {
      SelectedAre(mountPoints[..|mountPoints| - 1], before);
    }
  }

  lemma SelectedLast(mountPoints: seq<MountPoint>, last: MountPoint, before: bool)
    ensures multiset(Select(mountPoints + [last], before)) ==
      multiset(Select(mountPoints, before)) + if last.mountBeforeDefaults == before then multiset{last} else multiset{}
  {
    assert (mountPoints + [last])[..|mountPoints|] == mountPoints;
  }

  lemma {:induction false} SelectedTogether(mountPoints: seq<MountPoint>)
    ensures multiset(Select(mountPoints, true)) + multiset(Select(mountPoints, false)) == multiset(mountPoints)
  {
    hide Select;
    if mountPoints == [] {
      SelectNone();
    } else {
      var front, last := mountPoints[..|mountPoints| - 1], mountPoints[|mountPoints| - 1];
      assert mountPoints == front + [last];
      SelectedTogether(front);
      SelectedLast(front, last, true);
      SelectedLast(front, last, false);
      assert multiset(front + [last]) == multiset(front) + multiset{last};
    }
  }

  lemma SelectNone()
    ensures Select([], true) == [] && Select([], false) == []
  {
  }

  // Where the selected mount points are in the list, in the same order.
  predicate ArePositions(mountPoints: seq<MountPoint>, selected: seq<MountPoint>, positions: seq<nat>) {
    && |positions| == |selected|
    && (forall k :: 0 <= k < |positions| ==> positions[k] < |mountPoints| && mountPoints[positions[k]] == selected[k])
    && forall j, k :: 0 <= j < k < |positions| ==> positions[j] < positions[k]
  }

  lemma {:induction false} SelectedPositions(mountPoints: seq<MountPoint>, before: bool) returns (positions: seq<nat>)
    ensures ArePositions(mountPoints, Select(mountPoints, before), positions)
  {
    if mountPoints == [] {
      positions := [];
    } else {
      var n := |mountPoints| - 1;
      positions := SelectedPositions(mountPoints[..n], before);
      if mountPoints[n].mountBeforeDefaults == before {
        positions := positions + [n];
      }
    }
  }

  const DEFAULTS := ["/dev", "/proc", "/sys", "/run", "/dev/pts", "/tmp"]

  // Every extra mount point is mounted, and the default ones if asked for: those
  // that come before the default ones, the default ones, and the others, the extra
  // ones in the order in which they are given.
  lemma MountOrder(setup: Setup) returns (first: seq<MountPoint>, defaults: seq<MountPoint>, last: seq<MountPoint>, p: seq<nat>, q: seq<nat>)
    ensures AllMountPoints(setup) == first + defaults + last
    ensures |defaults| == if setup.includeDefaultMounts then 6 else 0
    ensures forall k :: 0 <= k < |defaults| ==> defaults[k] == MountPoint(DEFAULTS[k], false, false)
    ensures multiset(first) + multiset(last) == multiset(setup.extraMountPoints)
    ensures AllBefore(first, true) && AllBefore(last, false)
    ensures ArePositions(setup.extraMountPoints, first, p) && ArePositions(setup.extraMountPoints, last, q)
  {
    first, last := Select(setup.extraMountPoints, true), Select(setup.extraMountPoints, false);
    defaults := if setup.includeDefaultMounts then DefaultMountPoints() else [];
    SelectedAre(setup.extraMountPoints, true);
    SelectedAre(setup.extraMountPoints, false);
    SelectedTogether(setup.extraMountPoints);
    p := SelectedPositions(setup.extraMountPoints, true);
    q := SelectedPositions(setup.extraMountPoints, false);
  }
}
