// When the operations on a chroot succeed, by the calls that they make, and what
// exactly they leave behind.
module ChrootCalls {
  import opened Chroots
  import opened ChrootLaws
  import opened ChrootStack

  // All calls from the a-th to before the b-th succeed.
  ghost predicate NoneFails(env: Env, a: nat, b: nat) {
    forall n: nat :: a <= n < b ==> !env.fails(n)
  }

  lemma NextCall(env: Env, a: nat, b: nat)
    requires a < b
    ensures NoneFails(env, a, b) <==> !env.fails(a) && NoneFails(env, a + 1, b)
  {
  }

  lemma NoneTogether(env: Env, a: nat, b: nat, c: nat)
    requires a <= b <= c
    ensures NoneFails(env, a, c) <==> NoneFails(env, a, b) && NoneFails(env, b, c)
  {
  }

  // -------------------------------------------------------------- unmounting

  // Unmounting goes on as long as the calls it makes succeed.
  lemma {:induction false} UnmountFromCalls(env: Env, s: Sys, id: int, i: nat)
    requires id in s.chroots && i <= |s.chroots[id].mountPoints|
    ensures UnmountFrom(env, s, id, i).s.now >= s.now
    ensures UnmountFrom(env, s, id, i).ok <==> NoneFails(env, s.now, UnmountFrom(env, s, id, i).s.now)
    decreases i
  {
    hide *;
    UnmountStep(env, s, id, i);
    PathCount(env, s.chroots[id]);
    var r := UnmountFrom(env, s, id, i);
    if i == 0 {
      NoCalls(env, s.now);
    } else {
      var path := PathsOf(env, s.chroots[id])[i - 1];
      TickIs(s);
      TickIs(Tick(s));
      TickIs(Tick(Tick(s)));
      UnmountFromCalls(env, Tick(s), id, i - 1);
      UnmountFromCalls(env, Tick(Tick(s)), id, i - 1);
      UnmountFromCalls(env, Tick(Tick(Tick(s))).(mounts := Unmounted(s.mounts, path)), id, i - 1);
      NextCall(env, s.now, r.s.now);
      if !env.fails(s.now) && path in s.dirs {
        NextCall(env, s.now + 1, r.s.now);
        if r.s.now > s.now + 2 {
          NextCall(env, s.now + 2, r.s.now);
        }
      }
      NoCalls(env, r.s.now);
    }
  }

  lemma PathCount(env: Env, c: Chroot)
    ensures |PathsOf(env, c)| == |c.mountPoints|
  {
  }

  lemma NoCalls(env: Env, a: nat)
    ensures NoneFails(env, a, a)
  {
  }

  // An attempt succeeds exactly when none of the calls it makes fails.
  lemma AttemptCalls(env: Env, s: Sys, id: int)
    requires id in s.chroots
    ensures UnmountAndRemove(env, s, id).s.now >= s.now
    ensures UnmountAndRemove(env, s, id).ok <==> NoneFails(env, s.now, UnmountAndRemove(env, s, id).s.now)
  {
    UnmountFromCalls(env, s, id, |s.chroots[id].mountPoints|);
    hide UnmountFrom, NoneFails;
    var u, r := UnmountFrom(env, s, id, |s.chroots[id].mountPoints|), UnmountAndRemove(env, s, id);
    if u.ok && !s.chroots[id].isExistingDir {
      NoneTogether(env, s.now, u.s.now, r.s.now);
      NextCall(env, u.s.now, r.s.now);
      NoCalls(env, r.s.now);
    }
  }

  // The directories in the root directory go with it, and no others.
  lemma AttemptRemoves(env: Env, s: Sys, id: int)
    requires id in s.chroots && UnmountAndRemove(env, s, id).ok
    ensures var c := s.chroots[id];
      forall d :: d in UnmountAndRemove(env, s, id).s.dirs <==> d in s.dirs && (c.isExistingDir || !Inside(env, c.rootDir, d))
  {
    UnmountFromKeeps(env, s, id, |s.chroots[id].mountPoints|);
    hide UnmountFrom;
  }

  // A failed attempt removes nothing else either.
  lemma AttemptSpares(env: Env, s: Sys, id: int)
    requires id in s.chroots
    ensures UnmountAndRemove(env, s, id).s.chroots == s.chroots
    ensures var c, dirs := s.chroots[id], UnmountAndRemove(env, s, id).s.dirs;
      dirs <= s.dirs && forall d :: d in s.dirs && (c.isExistingDir || !Inside(env, c.rootDir, d)) ==> d in dirs
  {
    UnmountFromKeeps(env, s, id, |s.chroots[id].mountPoints|);
    hide UnmountFrom;
  }

  // At most one call fails from here on.
  ghost predicate OneMayFail(env: Env, from: nat) {
    forall a: nat, b: nat :: from <= a < b && env.fails(a) ==> !env.fails(b)
  }

  // Two calls have to fail for a close to fail, one in each attempt.
  lemma CloseFails(env: Env, s: Sys, id: int) returns (a: nat, b: nat)
    requires id in s.chroots && !Close(env, s, id).ok
    ensures s.now <= a < b < Close(env, s, id).s.now && env.fails(a) && env.fails(b)
  {
    hide *;
    CloseIs(env, s, id);
    TriedIs(env, s, id);
    var first := UnmountAndRemove(env, s, id);
    AttemptCalls(env, s, id);
    AttemptCalls(env, first.s, id);
    a := SomeFails(env, s.now, first.s.now);
    b := SomeFails(env, first.s.now, UnmountAndRemove(env, first.s, id).s.now);
  }

  lemma SomeFails(env: Env, from: nat, to: nat) returns (n: nat)
    requires !NoneFails(env, from, to)
    ensures from <= n < to && env.fails(n)
  {
    n :| from <= n < to && env.fails(n);
  }

  // So it gets over any single failure; then it has removed the root directory
  // of a chroot that made it, with all that was inside, and nothing else.
  lemma CloseSucceeds(env: Env, s: Sys, id: int)
    requires id in s.chroots
    ensures OneMayFail(env, s.now) ==> Close(env, s, id).ok
    ensures Close(env, s, id).ok && id in s.active ==>
      var c := s.chroots[id];
      forall d :: d in Close(env, s, id).s.dirs <==> d in s.dirs && (c.isExistingDir || !Inside(env, c.rootDir, d))
    ensures Close(env, s, id).ok && id in s.active ==> |Close(env, s, id).s.active| == |s.active| - 1
  {
    hide *;
    if OneMayFail(env, s.now) && !Close(env, s, id).ok {
      var a, b := CloseFails(env, s, id);
      NotBoth(env, s.now, a, b);
    }
    CloseIs(env, s, id);
    TriedIs(env, s, id);
    if Close(env, s, id).ok && id in s.active {
      WithoutHas(s.active, id);
      AttemptSpares(env, s, id);
      if UnmountAndRemove(env, s, id).ok {
        AttemptRemoves(env, s, id);
      } else {
        AttemptRemoves(env, UnmountAndRemove(env, s, id).s, id);
      }
    }
  }

  lemma NotBoth(env: Env, from: nat, a: nat, b: nat)
    requires OneMayFail(env, from) && from <= a < b
    ensures !(env.fails(a) && env.fails(b))
  {
  }

  lemma WithoutHas(ids: seq<int>, id: int)
    requires IndexOf(ids, id) < |ids|
    ensures |Without(ids, id)| == |ids| - 1
  {
  }

  // ---------------------------------------- mounts that the chroot did not make

  // The topmost mount on a path goes, and nothing else.
  lemma {:induction false} UnmountedIs(mounts: seq<Mount>, path: string, k: nat)
    requires k < |mounts| && mounts[k].path == path && forall j :: k < j < |mounts| ==> mounts[j].path != path
    ensures Unmounted(mounts, path) == mounts[..k] + mounts[k + 1..]
  {
    var n := |mounts| - 1;
    if k == n {
      assert mounts[n + 1..] == [];
    } else {
      UnmountedIs(mounts[..n], path, k);
      hide Unmounted;
      CutInFront(mounts, k);
      UnmountedLast(mounts, path);
    }
  }

  lemma UnmountedLast(mounts: seq<Mount>, path: string)
    requires mounts != [] && mounts[|mounts| - 1].path != path
    ensures Unmounted(mounts, path) == Unmounted(mounts[..|mounts| - 1], path) + [mounts[|mounts| - 1]]
  {
  }

  lemma CutInFront(mounts: seq<Mount>, k: nat)
    requires k + 1 < |mounts|
    ensures var front := mounts[..|mounts| - 1];
      front[..k] + front[k + 1..] + [mounts[|mounts| - 1]] == mounts[..k] + mounts[k + 1..]
  {
  }

  lemma {:induction false} UnmountedKeeps(mounts: seq<Mount>, path: string, m: Mount)
    requires m.path != path
    ensures multiset(Unmounted(mounts, path))[m] == multiset(mounts)[m]
  {
    if mounts == [] {
    } else {
      var n := |mounts| - 1;
      assert mounts == mounts[..n] + [mounts[n]];
      UnmountedKeeps(mounts[..n], path, m);
    }
  }

  // A mount point of the chroot that it has mounted is at this path.
  predicate HasMountedOn(env: Env, c: Chroot, path: string) {
    exists j :: 0 <= j < |c.mountPoints| && c.mountPoints[j].isMounted && env.join(c.rootDir, c.mountPoints[j].target) == path
  }

  // In any state, an attempt only takes mounts from the paths that the chroot has
  // mounted on.
  lemma {:induction false} UnmountFromSpares(env: Env, s: Sys, id: int, i: nat, m: Mount)
    requires id in s.chroots && i <= |s.chroots[id].mountPoints| && !HasMountedOn(env, s.chroots[id], m.path)
    ensures multiset(UnmountFrom(env, s, id, i).s.mounts)[m] == multiset(s.mounts)[m]
    decreases i
  {
    hide *;
    UnmountStep(env, s, id, i);
    PathCount(env, s.chroots[id]);
    if i > 0 {
      var path := PathsOf(env, s.chroots[id])[i - 1];
      TickIs(s);
      TickIs(Tick(s));
      TickIs(Tick(Tick(s)));
      UnmountFromSpares(env, Tick(s), id, i - 1, m);
      UnmountFromSpares(env, Tick(Tick(s)), id, i - 1, m);
      UnmountFromSpares(env, Tick(Tick(Tick(s))).(mounts := Unmounted(s.mounts, path)), id, i - 1, m);
      if s.chroots[id].mountPoints[i - 1].isMounted {
        MountedOn(env, s.chroots[id], i - 1);
        UnmountedKeeps(s.mounts, path, m);
      }
    }
  }

  lemma MountedOn(env: Env, c: Chroot, j: nat)
    requires j < |c.mountPoints| && c.mountPoints[j].isMounted
    ensures HasMountedOn(env, c, PathsOf(env, c)[j])
  {
  }

  lemma AttemptSparesMount(env: Env, s: Sys, id: int, m: Mount)
    requires id in s.chroots && !HasMountedOn(env, s.chroots[id], m.path)
    ensures multiset(UnmountAndRemove(env, s, id).s.mounts)[m] == multiset(s.mounts)[m]
  {
    UnmountFromSpares(env, s, id, |s.chroots[id].mountPoints|, m);
    UnmountAndRemoveIs(env, s, id);
  }

  // -------------------------------------------------------------- initializing

  // The last call before the b-th has failed.
  predicate StopsAt(env: Env, a: nat, b: nat) {
    a < b && env.fails(b - 1)
  }

  lemma {:induction false} MakeDirsCalls(env: Env, s: Sys, root: string, targets: seq<string>)
    ensures MakeDirs(env, s, root, targets).ok <==> NoneFails(env, s.now, s.now + |targets|)
    ensures MakeDirs(env, s, root, targets).s.now >= s.now
    ensures !MakeDirs(env, s, root, targets).ok ==> StopsAt(env, s.now, MakeDirs(env, s, root, targets).s.now)
    ensures MakeDirs(env, s, root, targets).ok ==>
      MakeDirs(env, s, root, targets).s == s.(now := s.now + |targets|, dirs := s.dirs + set t | t in targets :: env.join(root, t))
    decreases |targets|
  {
    if targets == [] {
      assert s.dirs + (set t | t in targets :: env.join(root, t)) == s.dirs;
    } else {
      NextCall(env, s.now, s.now + |targets|);
      hide NoneFails;
      var path := env.join(root, targets[0]);
      MakeDirsCalls(env, Tick(s).(dirs := s.dirs + {path}), root, targets[1..]);
      assert targets == [targets[0]] + targets[1..];
      assert (set t | t in targets :: env.join(root, t)) == {path} + set t | t in targets[1..] :: env.join(root, t);
    }
  }

  // The mounts that a chroot makes, from its i-th mount point on.
  function MountsFrom(env: Env, id: int, c: Chroot, i: nat): (r: seq<Mount>)
    requires i <= |c.mountPoints|
    ensures |r| == |c.mountPoints| - i
    ensures forall j :: 0 <= j < |r| ==> r[j] == Mount(env.join(c.rootDir, c.mountPoints[i + j].target), id)
  {
    seq(|c.mountPoints| - i, j requires 0 <= j < |c.mountPoints| - i => Mount(env.join(c.rootDir, c.mountPoints[i + j].target), id))
  }

  // With all mount points from the i-th on flagged.
  predicate FlaggedFrom(c: Chroot, c': Chroot, i: nat) {
    && c'.rootDir == c.rootDir && c'.isExistingDir == c.isExistingDir && |c'.mountPoints| == |c.mountPoints|
    && forall j :: 0 <= j < |c.mountPoints| ==>
         c'.mountPoints[j] == if j < i then c.mountPoints[j] else c.mountPoints[j].(isMounted := true)
  }

  ghost predicate MountsAll(env: Env, s: Sys, s': Sys, id: int, i: nat)
    requires id in s.chroots && i <= |s.chroots[id].mountPoints|
  {
    var more := MountsFrom(env, id, s.chroots[id], i);
    && s'.mounts == s.mounts + more
    && s'.active == s.active
    && (forall d :: d in s'.dirs <==> d in s.dirs || IsMounted(more, d))
    && s'.chroots.Keys == s.chroots.Keys
    && (forall d :: d in s.chroots && d != id ==> s'.chroots[d] == s.chroots[d])
    && FlaggedFrom(s.chroots[id], s'.chroots[id], i)
    && s'.now == s.now + 2 * |more|
  }

  lemma MountsAllStep(env: Env, s: Sys, s': Sys, id: int, i: nat)
    requires id in s.chroots && i < |s.chroots[id].mountPoints|
    requires var m := Mounted(env, s, id, i);
      && id in m.chroots && |m.chroots[id].mountPoints| == |s.chroots[id].mountPoints| && MountsAll(env, m, s', id, i + 1)
    ensures MountsAll(env, s, s', id, i)
  {
    var m, c := Mounted(env, s, id, i), s.chroots[id];
    var next := MountedFirst(env, s, id, i);
    var all, more := MountsFrom(env, id, c, i), MountsFrom(env, id, m.chroots[id], i + 1);
    hide *;
    MountsAllIs(env, m, s', id, i + 1);
    MountsAllIs(env, s, s', id, i);
    forall d ensures IsMounted(all, d) <==> d == next.path || IsMounted(more, d) {
      PathAmong(next, more, d);
    }
    assert s.mounts + [next] + more == s.mounts + all;
    FlaggedNext(c, m.chroots[id], s'.chroots[id], i);
  }

  lemma MountsAllIs(env: Env, s: Sys, s': Sys, id: int, i: nat)
    requires id in s.chroots && i <= |s.chroots[id].mountPoints|
    ensures MountsAll(env, s, s', id, i) <==>
      var more := MountsFrom(env, id, s.chroots[id], i);
      && s'.mounts == s.mounts + more
      && s'.active == s.active
      && (forall d :: d in s'.dirs <==> d in s.dirs || IsMounted(more, d))
      && s'.chroots.Keys == s.chroots.Keys
      && (forall d :: d in s.chroots && d != id ==> s'.chroots[d] == s.chroots[d])
      && FlaggedFrom(s.chroots[id], s'.chroots[id], i)
      && s'.now == s.now + 2 * |more|
  {
    hide MountsFrom, FlaggedFrom, IsMounted;
  }

  lemma MountedFirst(env: Env, s: Sys, id: int, i: nat) returns (next: Mount)
    requires id in s.chroots && i < |s.chroots[id].mountPoints|
    ensures var m, c := Mounted(env, s, id, i), s.chroots[id];
      && id in m.chroots && |m.chroots[id].mountPoints| == |c.mountPoints|
      && MountsFrom(env, id, c, i) == [next] + MountsFrom(env, id, m.chroots[id], i + 1)
      && m.mounts == s.mounts + [next] && m.dirs == s.dirs + {next.path} && m.active == s.active && m.now == s.now + 2
      && m.chroots.Keys == s.chroots.Keys && (forall d :: d in s.chroots && d != id ==> m.chroots[d] == s.chroots[d])
      && m.chroots[id] == c.(mountPoints := c.mountPoints[i := c.mountPoints[i].(isMounted := true)])
  {
    next := Mount(env.join(s.chroots[id].rootDir, s.chroots[id].mountPoints[i].target), id);
  }

  lemma FlaggedNext(c: Chroot, d: Chroot, c': Chroot, i: nat)
    requires i < |c.mountPoints| && d == c.(mountPoints := c.mountPoints[i := c.mountPoints[i].(isMounted := true)])
    requires FlaggedFrom(d, c', i + 1)
    ensures FlaggedFrom(c, c', i)
  {
  }

  lemma PathAmong(m: Mount, more: seq<Mount>, d: string)
    ensures IsMounted([m] + more, d) <==> d == m.path || IsMounted(more, d)
  {
    var all := [m] + more;
    if IsMounted(more, d) {
      var j :| 0 <= j < |more| && more[j].path == d;
      assert all[j + 1] == more[j];
    }
    assert all[0] == m;
  }

  lemma {:induction false} MountCalls(env: Env, s: Sys, id: int, i: nat)
    requires id in s.chroots && i <= |s.chroots[id].mountPoints|
    ensures MountFrom(env, s, id, i).ok <==> NoneFails(env, s.now, s.now + 2 * (|s.chroots[id].mountPoints| - i))
    ensures MountFrom(env, s, id, i).s.now >= s.now
    ensures !MountFrom(env, s, id, i).ok ==> StopsAt(env, s.now, MountFrom(env, s, id, i).s.now)
    ensures MountFrom(env, s, id, i).ok ==> MountsAll(env, s, MountFrom(env, s, id, i).s, id, i)
    decreases |s.chroots[id].mountPoints| - i
  {
    hide *;
    MountStep(env, s, id, i);
    var n := |s.chroots[id].mountPoints|;
    if i == n {
      NoCalls(env, s.now);
      NoMounts(env, s, id);
    } else {
      var end := s.now + 2 * (n - i);
      NextCall(env, s.now, end);
      NextCall(env, s.now + 1, end);
      TickIs(s);
      TickIs(Tick(s));
      StopsIs(env);
      if !env.fails(s.now) && !env.fails(s.now + 1) {
        var m := Mounted(env, s, id, i);
        MountedIs(env, s, id, i);
        MountedTakesTwo(env, s, id, i);
        MountCalls(env, m, id, i + 1);
        if MountFrom(env, m, id, i + 1).ok {
          MountsAllStep(env, s, MountFrom(env, m, id, i + 1).s, id, i);
        }
      }
    }
  }

  lemma StopsIs(env: Env)
    ensures forall a: nat, b: nat :: StopsAt(env, a, b) <==> a < b && env.fails(b - 1)
  {
  }

  lemma MountedTakesTwo(env: Env, s: Sys, id: int, i: nat)
    requires id in s.chroots && i < |s.chroots[id].mountPoints|
    ensures Mounted(env, s, id, i).now == s.now + 2
  {
  }

  lemma NoMounts(env: Env, s: Sys, id: int)
    requires id in s.chroots
    ensures MountsAll(env, s, s, id, |s.chroots[id].mountPoints|)
  {
    var more := MountsFrom(env, id, s.chroots[id], |s.chroots[id].mountPoints|);
    assert s.mounts + more == s.mounts;
  }

  // How many calls a successful initialization makes.
  function CallsOf(c: Chroot, setup: Setup): nat {
    (if c.isExistingDir then 0 else 1) + (if setup.hasTar then 1 else 0) + |setup.extraDirectories|
    + 2 * (|setup.extraMountPoints| + if setup.includeDefaultMounts then 6 else 0)
  }

  // An existing directory has to be there, and a new one must not be.
  predicate RootFits(s: Sys, c: Chroot) {
    if c.isExistingDir then c.rootDir in s.dirs else c.rootDir !in s.dirs
  }

  lemma {:induction false} SelectedCount(mountPoints: seq<MountPoint>)
    ensures |Select(mountPoints, true)| + |Select(mountPoints, false)| == |mountPoints|
  {
    if mountPoints == [] {
    } else {
      SelectedCount(mountPoints[..|mountPoints| - 1]);
    }
  }

  lemma MountPointCount(setup: Setup)
    ensures |AllMountPoints(setup)| == |setup.extraMountPoints| + if setup.includeDefaultMounts then 6 else 0
  {
    SelectedCount(setup.extraMountPoints);
  }

  lemma FillCalls(env: Env, s: Sys, id: int, setup: Setup)
    requires id in s.chroots
    ensures var n := (if setup.hasTar then 1 else 0) + |setup.extraDirectories|;
      && (Fill(env, s, id, setup).ok <==> NoneFails(env, s.now, s.now + n))
      && Fill(env, s, id, setup).s.now >= s.now
      && (!Fill(env, s, id, setup).ok ==> StopsAt(env, s.now, Fill(env, s, id, setup).s.now))
      && (Fill(env, s, id, setup).ok ==>
            Fill(env, s, id, setup).s ==
              s.(now := s.now + n, dirs := s.dirs + set t | t in setup.extraDirectories :: env.join(s.chroots[id].rootDir, t)))
  {
    var t := if setup.hasTar then Tick(s) else s;
    MakeDirsCalls(env, t, s.chroots[id].rootDir, setup.extraDirectories);
    if setup.hasTar {
      NextCall(env, s.now, s.now + 1 + |setup.extraDirectories|);
    }
    hide MakeDirs, NoneFails;
  }

  lemma PrepareCalls(env: Env, s: Sys, c: Chroot)
    ensures PrepareRoot(env, s, c).ok <==> RootFits(s, c) && NoneFails(env, s.now, s.now + if c.isExistingDir then 0 else 1)
    ensures PrepareRoot(env, s, c).ok ==>
      PrepareRoot(env, s, c).s ==
        s.(now := s.now + (if c.isExistingDir then 0 else 1), dirs := s.dirs + if c.isExistingDir then {} else {c.rootDir})
    ensures !RootFits(s, c) ==> PrepareRoot(env, s, c) == Result(s, false)
    ensures RootFits(s, c) && !PrepareRoot(env, s, c).ok ==> PrepareRoot(env, s, c).s == s.(now := s.now + 1)
  {
    assert s.dirs + {} == s.dirs;
  }

  // An initialization succeeds exactly when the root directory fits and no call
  // fails; one whose root directory does not fit is refused and changes nothing.
  lemma InitializeSucceeds(env: Env, s: Sys, id: int, setup: Setup)
    requires id in s.chroots
    ensures var c := s.chroots[id];
      Initialize(env, s, id, setup).ok <==> RootFits(s, c) && NoneFails(env, s.now, s.now + CallsOf(c, setup))
    ensures !RootFits(s, s.chroots[id]) ==> Initialize(env, s, id, setup) == Result(s, false)
  {
    hide *;
    InitializeIs(env, s, id, setup);
    var c := s.chroots[id];
    var p := PrepareRoot(env, s, c);
    PrepareCalls(env, s, c);
    CallsIs(c, setup);
    MountPointCount(setup);
    if p.ok {
      var f := Fill(env, p.s, id, setup);
      var n := p.s.now + (if setup.hasTar then 1 else 0) + |setup.extraDirectories|;
      var end := s.now + CallsOf(c, setup);
      FillCalls(env, p.s, id, setup);
      NoneTogether(env, s.now, p.s.now, end);
      NoneTogether(env, p.s.now, n, end);
      if f.ok {
        WithIs(f.s, id, AllMountPoints(setup));
        MountCalls(env, WithMountPoints(f.s, id, AllMountPoints(setup)), id, 0);
      }
      FailedNot(env, f.s, id);
      if f.ok {
        FailedNot(env, MountFrom(env, WithMountPoints(f.s, id, AllMountPoints(setup)), id, 0).s, id);
      }
    } else if RootFits(s, c) {
      NoneTogether(env, s.now, s.now + if c.isExistingDir then 0 else 1, s.now + CallsOf(c, setup));
    }
  }

  lemma FailedNot(env: Env, s: Sys, id: int)
    requires id in s.chroots
    ensures !Failed(env, s, id).ok
  {
  }

  lemma CallsIs(c: Chroot, setup: Setup)
    ensures CallsOf(c, setup) == (if c.isExistingDir then 0 else 1) + (if setup.hasTar then 1 else 0) + |setup.extraDirectories|
      + 2 * (|setup.extraMountPoints| + if setup.includeDefaultMounts then 6 else 0)
  {
  }

  lemma WithIs(s: Sys, id: int, mountPoints: seq<MountPoint>)
    requires id in s.chroots
    ensures var w := WithMountPoints(s, id, mountPoints);
      && w == s.(chroots := s.chroots[id := s.chroots[id].(mountPoints := mountPoints)])
      && w.now == s.now && id in w.chroots && w.chroots[id] == s.chroots[id].(mountPoints := mountPoints)
  {
  }

  // Then all its mount points are mounted one after the other, its directories
  // are there, and it is the last of the active chroots.
  ghost predicate IsSetUp(env: Env, s: Sys, s': Sys, id: int, setup: Setup)
    requires id in s.chroots
  {
    var c := s.chroots[id].(mountPoints := AllMountPoints(setup));
    var more := MountsFrom(env, id, c, 0);
    && s'.mounts == s.mounts + more
    && s'.active == s.active + [id]
    && (forall d :: d in s'.dirs <==>
          || d in s.dirs || d == c.rootDir
          || (exists t :: t in setup.extraDirectories && d == env.join(c.rootDir, t))
          || IsMounted(more, d))
    && s'.chroots.Keys == s.chroots.Keys
    && (forall d :: d in s.chroots && d != id ==> s'.chroots[d] == s.chroots[d])
    && FlaggedFrom(c, s'.chroots[id], 0)
  }

  lemma InitializedIs(env: Env, s: Sys, id: int, setup: Setup)
    requires id in s.chroots && Initialize(env, s, id, setup).ok
    ensures IsSetUp(env, s, Initialize(env, s, id, setup).s, id, setup)
  {
    hide *;
    InitializeIs(env, s, id, setup);
    var c := s.chroots[id];
    var p := PrepareRoot(env, s, c);
    var f := Fill(env, p.s, id, setup);
    var w := WithMountPoints(f.s, id, AllMountPoints(setup));
    var m := MountFrom(env, w, id, 0);
    PrepareCalls(env, s, c);
    PrepareKeeps(env, s, c);
    FillCalls(env, p.s, id, setup);
    FillKeeps(env, p.s, id, setup);
    WithIs(f.s, id, AllMountPoints(setup));
    MountCalls(env, w, id, 0);
    FailedNot(env, f.s, id);
    FailedNot(env, m.s, id);
    assert f.s.dirs == s.dirs + (if c.isExistingDir then {} else {c.rootDir}) + set t | t in setup.extraDirectories :: env.join(c.rootDir, t);
    RootIsThere(s, c);
    SetUpIs(env, s, w, m.s, id, setup);
  }

  lemma RootIsThere(s: Sys, c: Chroot)
    requires RootFits(s, c)
    ensures c.isExistingDir ==> c.rootDir in s.dirs
  {
  }

  lemma SetUpIs(env: Env, s: Sys, w: Sys, m: Sys, id: int, setup: Setup)
    requires id in s.chroots && w.chroots == s.chroots[id := s.chroots[id].(mountPoints := AllMountPoints(setup))]
    requires w.mounts == s.mounts && w.active == s.active && MountsAll(env, w, m, id, 0)
    requires var c := s.chroots[id];
      && (c.isExistingDir ==> c.rootDir in s.dirs)
      && w.dirs == s.dirs + (if c.isExistingDir then {} else {c.rootDir}) + set t | t in setup.extraDirectories :: env.join(c.rootDir, t)
    ensures IsSetUp(env, s, m.(active := m.active + [id]), id, setup)
  {
    hide AllMountPoints, MountsFrom, FlaggedFrom;
  }

  // ------------------------------------------------ a failed initialization

  // Where at most one call fails, a failed initialization leaves nothing behind:
  // no mount of the chroot, and of a root directory that it made nothing inside.
  lemma FailedLeavesNothing(env: Env, s: Sys, id: int, setup: Setup)
    requires IsGood(env, s) && id in s.chroots && MayInitialize(env, s, id, setup) && RootFits(s, s.chroots[id])
    requires !Initialize(env, s, id, setup).ok && OneMayFail(env, s.now)
    ensures var s' := Initialize(env, s, id, setup).s;
      && Own(s'.mounts, id) == Own(s.mounts, id) && (forall d :: d != id ==> Own(s'.mounts, d) == Own(s.mounts, d))
      && s'.active == s.active
      && (!s.chroots[id].isExistingDir ==> forall d :: d in s'.dirs ==> !Inside(env, s.chroots[id].rootDir, d) || d in s.dirs)
  {
    hide *;
    InitializeKeeps(env, s, id, setup);
    InitializeIs(env, s, id, setup);
    var c := s.chroots[id];
    var paths := Paths(env, c.rootDir, AllMountPoints(setup));
    PrepareKeeps(env, s, c);
    PrepareCalls(env, s, c);
    if PrepareRoot(env, s, c).ok {
      var b := BeforeCleanup(env, s, id, setup);
      SetUpClean(env, s, id, setup);
      SparesRoot(s, b, id, paths);
      GoodIs(env, s);
      CleanOf(env, s);
      StartsEmpty(env, s, id, setup);
      CleanOf(env, b);
      SetUpFails(env, s, id, setup);
      CleanupSucceeds(env, s, b, id);
      UnmountTidy(env, b, id);
      AttemptRemoves(env, b, id);
      FailedIs(env, b, id);
      SparedOwn(s, b, id, paths);
      SparedOwn(b, UnmountAndRemove(env, b, id).s, id, []);
    }
  }

  // Something has failed before the cleanup.
  lemma SetUpFails(env: Env, s: Sys, id: int, setup: Setup)
    requires id in s.chroots && PrepareRoot(env, s, s.chroots[id]).ok && !Initialize(env, s, id, setup).ok
    ensures StopsAt(env, s.now, BeforeCleanup(env, s, id, setup).now)
  {
    hide *;
    InitializeIs(env, s, id, setup);
    PrepareCalls(env, s, s.chroots[id]);
    var p := PrepareRoot(env, s, s.chroots[id]);
    var f := Fill(env, p.s, id, setup);
    FillCalls(env, p.s, id, setup);
    StopsIs(env);
    if f.ok {
      WithIs(f.s, id, AllMountPoints(setup));
      MountCalls(env, WithMountPoints(f.s, id, AllMountPoints(setup)), id, 0);
    }
  }

  // So the cleanup succeeds.
  lemma CleanupSucceeds(env: Env, s: Sys, b: Sys, id: int)
    requires id in b.chroots && OneMayFail(env, s.now) && StopsAt(env, s.now, b.now)
    ensures UnmountAndRemove(env, b, id).ok
  {
    hide *;
    AttemptCalls(env, b, id);
    StopsIs(env);
    if !UnmountAndRemove(env, b, id).ok {
      var n := SomeFails(env, b.now, UnmountAndRemove(env, b, id).s.now);
      NotBoth(env, s.now, b.now - 1, n);
    }
  }

  lemma SparedOwn(s: Sys, s': Sys, id: int, paths: seq<string>)
    requires SparesOthers(s, s', id, paths)
    ensures forall d :: d != id ==> Own(s'.mounts, d) == Own(s.mounts, d)
  {
    hide Own;
  }
}
