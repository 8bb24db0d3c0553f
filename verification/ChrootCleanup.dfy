// Cleaning up on a signal: all active chroots, the last one first.
module ChrootCleanup {
  import opened Chroots
  import opened ChrootLaws
  import opened ChrootStack

  predicate ActiveAreKnown(s: Sys) {
    forall k :: 0 <= k < |s.active| ==> s.active[k] in s.chroots
  }

  // The state after the attempts at the active chroots from index i on.
  function After(env: Env, s: Sys, i: nat): (r: Sys)
    requires i <= |s.active| && ActiveAreKnown(s)
    ensures r.chroots == s.chroots && r.active == s.active
    decreases |s.active| - i
  {
    if i == |s.active| then s
    else
      UnmountKeeps(env, After(env, s, i + 1), s.active[i]);
      UnmountAndRemove(env, After(env, s, i + 1), s.active[i]).s
  }

  // The attempt at the i-th active chroot unmounts all of its mount points.
  predicate Unmounts(env: Env, s: Sys, i: nat)
    requires i < |s.active| && ActiveAreKnown(s)
  {
    var id := s.active[i];
    UnmountFrom(env, After(env, s, i + 1), id, |s.chroots[id].mountPoints|).ok
  }

  // Where it gets to removing the root directory, nothing is mounted inside.
  predicate IsSafeAt(env: Env, s: Sys, i: nat)
    requires i < |s.active| && ActiveAreKnown(s)
  {
    RemovalIsSafe(env, After(env, s, i + 1), s.active[i])
  }

  lemma {:induction false} CleanupIs(env: Env, s: Sys, i: nat)
    requires i <= |s.active| && ActiveAreKnown(s)
    ensures CleanupFrom(env, After(env, s, i), i) == After(env, s, 0)
  {
    hide UnmountAndRemove;
    if i == 0 {
    } else {
      CleanupIs(env, s, i - 1);
    }
  }

  // The good states are such states.
  lemma GoodIsKnown(env: Env, s: Sys)
    requires IsGood(env, s)
    ensures ActiveAreKnown(s)
  {
    hide MountsAreClean, ClearOf;
    forall k | 0 <= k < |s.active| ensures s.active[k] in s.chroots {
      assert HasRoot(s, s.active[k]);
    }
  }

  // ----------------------------------------------------- the later attempts

  // What is still to be cleaned up is in order.
  predicate IsPending(env: Env, s: Sys, i: nat)
    requires i <= |s.active| && ActiveAreKnown(s)
  {
    && OwnersAreKnown(After(env, s, i))
    && (forall j :: 0 <= j < i ==> IsTidy(env, After(env, s, i), s.active[j]))
  }

  lemma PendingIs(env: Env, s: Sys, i: nat)
    requires i <= |s.active| && ActiveAreKnown(s)
    ensures IsPending(env, s, i) <==>
      OwnersAreKnown(After(env, s, i)) && forall j :: 0 <= j < i ==> IsTidy(env, After(env, s, i), s.active[j])
  {
    hide OwnersAreKnown, After, IsTidy;
  }

  lemma {:induction false} PendingLaw(env: Env, s: Sys, i: nat)
    requires i <= |s.active| && IsGood(env, s) && ActiveAreKnown(s)
    ensures IsPending(env, s, i)
    decreases |s.active| - i
  {
    hide *;
    KnownIs(s);
    AfterStep(env, s, i);
    PendingIs(env, s, i);
    if i == |s.active| {
      GoodIs(env, s);
      CleanOf(env, s);
      KnownIs(s);
    } else {
      PendingLaw(env, s, i + 1);
      PendingIs(env, s, i + 1);
      AttemptAt(env, s, i);
      var t, t' := After(env, s, i + 1), After(env, s, i);
      OwnersStay(t, t', s.active[i]);
      forall j | 0 <= j < i ensures IsTidy(env, t', s.active[j]) {
        EarlierIsClear(env, s, j, i);
        UnmountDirsStay(env, t, s.active[i], s.chroots[s.active[j]]);
        NoPaths();
        OthersTidy(env, t, t', s.active[i], [], s.active[j]);
      }
    }
  }

  lemma AfterStep(env: Env, s: Sys, i: nat)
    requires i <= |s.active| && ActiveAreKnown(s)
    ensures i == |s.active| ==> After(env, s, i) == s
    ensures i < |s.active| ==>
      s.active[i] in s.chroots && After(env, s, i) == UnmountAndRemove(env, After(env, s, i + 1), s.active[i]).s
  {
    hide UnmountAndRemove;
  }

  lemma KnownIs(s: Sys)
    ensures ActiveAreKnown(s) <==> forall k :: 0 <= k < |s.active| ==> s.active[k] in s.chroots
  {
  }

  lemma EarlierIsClear(env: Env, s: Sys, j: nat, i: nat)
    requires IsGood(env, s) && j < i < |s.active|
    ensures s.active[j] in s.chroots && s.active[i] in s.chroots && s.active[j] != s.active[i]
    ensures ClearOf(env, s.chroots[s.active[i]], s.chroots[s.active[j]])
  {
    hide MountsAreClean, ClearOf;
    assert HasRoot(s, s.active[i]) && HasRoot(s, s.active[j]);
  }

  lemma OwnersStay(s: Sys, s': Sys, id: int)
    requires OwnersAreKnown(s) && SparesOthers(s, s', id, [])
    ensures OwnersAreKnown(s')
  {
    hide Own;
    forall k | 0 <= k < |s'.mounts| ensures s'.mounts[k].owner in s'.chroots {
      assert s'.mounts[k] in s'.mounts;
    }
  }

  // The attempt at the i-th active chroot.
  lemma AttemptAt(env: Env, s: Sys, i: nat)
    requires i < |s.active| && ActiveAreKnown(s) && IsPending(env, s, i + 1)
    ensures IsTidy(env, After(env, s, i + 1), s.active[i])
    ensures Exclusive(After(env, s, i + 1).mounts, PathsOf(env, s.chroots[s.active[i]]), s.active[i])
    ensures SparesOthers(After(env, s, i + 1), After(env, s, i), s.active[i], [])
    ensures Own(After(env, s, i).mounts, s.active[i]) <= Own(After(env, s, i + 1).mounts, s.active[i])
    ensures Unmounts(env, s, i) ==> Own(After(env, s, i).mounts, s.active[i]) == []
  {
    hide *;
    AfterStep(env, s, i);
    PendingIs(env, s, i + 1);
    var t := After(env, s, i + 1);
    TidyIs(env, t, s.active[i]);
    LiveIs(t, s.active[i]);
    UnmountsIs(env, s, i);
    UnmountTidy(env, t, s.active[i]);
  }

  lemma UnmountsIs(env: Env, s: Sys, i: nat)
    requires i < |s.active| && ActiveAreKnown(s)
    ensures s.active[i] in s.chroots
    ensures Unmounts(env, s, i) <==>
      UnmountFrom(env, After(env, s, i + 1), s.active[i], |s.chroots[s.active[i]].mountPoints|).ok
  {
    hide UnmountFrom, After;
  }

  // Mounts of a chroot only go, and only in the attempt at it.
  lemma {:induction false} OwnAfter(env: Env, s: Sys, i: nat, d: int)
    requires i <= |s.active| && IsGood(env, s) && ActiveAreKnown(s)
    ensures Own(After(env, s, i).mounts, d) <= Own(s.mounts, d)
    decreases |s.active| - i
  {
    hide *;
    AfterStep(env, s, i);
    if i == |s.active| {
    } else {
      OwnAfter(env, s, i + 1, d);
      PendingLaw(env, s, i + 1);
      AttemptAt(env, s, i);
      if d != s.active[i] {
        OwnSpared(After(env, s, i + 1), After(env, s, i), s.active[i], d);
      }
    }
  }

  lemma OwnSpared(s: Sys, s': Sys, id: int, d: int)
    requires SparesOthers(s, s', id, []) && d != id
    ensures Own(s'.mounts, d) == Own(s.mounts, d)
  {
    hide Own;
  }

  lemma {:induction false} LeftAfter(env: Env, s: Sys, i: nat, t: nat)
    requires i <= t < |s.active| && IsGood(env, s) && ActiveAreKnown(s)
    ensures Own(After(env, s, i).mounts, s.active[t]) == Own(After(env, s, t).mounts, s.active[t])
    decreases t - i
  {
    hide *;
    if i == t {
    } else {
      LeftAfter(env, s, i + 1, t);
      PendingLaw(env, s, i + 1);
      AttemptAt(env, s, i);
      EarlierIsClear(env, s, i, t);
      OwnSpared(After(env, s, i + 1), After(env, s, i), s.active[i], s.active[t]);
    }
  }

  // -------------------------------------------------------- the main results

  // A mount inside of a root directory about to be removed.
  lemma MountInside(env: Env, s: Sys, id: int) returns (m: Mount)
    requires id in s.chroots && IsTidy(env, s, id) && Exclusive(s.mounts, PathsOf(env, s.chroots[id]), id)
    requires !RemovalIsSafe(env, s, id)
    ensures m in s.mounts && m.owner != id && m.path in Own(s.mounts, m.owner)
    ensures Inside(env, s.chroots[id].rootDir, m.path) && !s.chroots[id].isExistingDir
  {
    hide *;
    SafeIs(env, s, id);
    TidyIs(env, s, id);
    var c := s.chroots[id];
    var k := |Own(s.mounts, id)|;
    CleanIs(env, s, id, k);
    MountedWithin(env, s, id, k);
    var left := UnmountFromLaw(env, s, id, |c.mountPoints|, k);
    var u := UnmountFrom(env, s, id, |c.mountPoints|);
    MountedWithin(env, u.s, id, left);
    NothingInsideIs(env, u.s.mounts, c.rootDir);
    m :| m in u.s.mounts && Inside(env, c.rootDir, m.path);
    OwnHas(u.s.mounts, m.path, m.owner);
    MountIs(m);
    ShiftedOwn(s.mounts, u.s.mounts, id, m);
  }

  lemma SafeAtIs(env: Env, s: Sys, i: nat)
    requires i < |s.active| && ActiveAreKnown(s)
    ensures s.active[i] in s.chroots && (IsSafeAt(env, s, i) <==> RemovalIsSafe(env, After(env, s, i + 1), s.active[i]))
  {
    hide RemovalIsSafe, After;
  }

  lemma InPrefix(a: seq<string>, b: seq<string>, path: string)
    requires a <= b && path in a
    ensures path in b && b != []
  {
    var j :| 0 <= j < |a| && a[j] == path;
    assert b[j] == path;
  }

  lemma NotBefore(ids: seq<int>, i: nat, d: int)
    requires i < |ids| && ids[i] != d && forall j :: 0 <= j < i ==> ids[j] != d
    ensures d !in ids[..i + 1]
  {
  }

  predicate NoneInside(env: Env, paths: seq<string>, root: string) {
    forall k :: 0 <= k < |paths| ==> !Inside(env, root, paths[k])
  }

  // The attempts at the chroots opened later have left no mount inside of this
  // one, and neither has a chroot that is not active any more.
  predicate NoneLeftInside(env: Env, s: Sys, i: nat)
    requires i < |s.active| && ActiveAreKnown(s)
  {
    var root := s.chroots[s.active[i]].rootDir;
    && (forall t :: i < t < |s.active| ==> NoneInside(env, Own(After(env, s, t).mounts, s.active[t]), root))
    && forall d :: d in s.chroots && d !in s.active ==> NoneInside(env, Own(s.mounts, d), root)
  }

  lemma NoneLeftIs(env: Env, s: Sys, i: nat)
    requires i < |s.active| && ActiveAreKnown(s)
    ensures s.active[i] in s.chroots
    ensures NoneLeftInside(env, s, i) <==>
      (&& (forall t :: i < t < |s.active| ==>
             NoneInside(env, Own(After(env, s, t).mounts, s.active[t]), s.chroots[s.active[i]].rootDir))
       && forall d :: d in s.chroots && d !in s.active ==>
            NoneInside(env, Own(s.mounts, d), s.chroots[s.active[i]].rootDir))
  {
    hide After, Own, NoneInside;
  }

  lemma SafeOwn(env: Env, s: Sys, id: int, d: int)
    requires id in s.chroots && IsTidy(env, s, id) && Exclusive(s.mounts, PathsOf(env, s.chroots[id]), id)
    requires RemovalIsSafe(env, s, id) && d != id && !s.chroots[id].isExistingDir
    requires UnmountFrom(env, s, id, |s.chroots[id].mountPoints|).ok
    ensures NoneInside(env, Own(s.mounts, d), s.chroots[id].rootDir)
  {
    hide *;
    SafeIs(env, s, id);
    TidyIs(env, s, id);
    var c := s.chroots[id];
    var k := |Own(s.mounts, id)|;
    CleanIs(env, s, id, k);
    MountedWithin(env, s, id, k);
    var left := UnmountFromLaw(env, s, id, |c.mountPoints|, k);
    var u := UnmountFrom(env, s, id, |c.mountPoints|);
    NothingInsideIs(env, u.s.mounts, c.rootDir);
    ShiftsOwn(s.mounts, u.s.mounts, id, d);
    forall path | path in Own(s.mounts, d) ensures !Inside(env, c.rootDir, path) {
      OwnHas(u.s.mounts, path, d);
      assert Mount(path, d).path == path;
    }
    NoneInsideIs(env, Own(s.mounts, d), c.rootDir);
  }

  lemma ShiftsOwn(mounts: seq<Mount>, mounts': seq<Mount>, id: int, d: int)
    requires Shifts(mounts, mounts', id, []) && d != id
    ensures Own(mounts', d) == Own(mounts, d)
  {
    hide Own;
  }

  lemma NoneInsideIs(env: Env, paths: seq<string>, root: string)
    ensures NoneInside(env, paths, root) <==> forall path :: path in paths ==> !Inside(env, root, path)
  {
    hide Inside;
  }

  // An attempt removes no root directory above a mount exactly when it does not
  // get there, or the later attempts have left no mount inside.
  lemma SafeAtMeans(env: Env, s: Sys, i: nat)
    requires IsGood(env, s) && ActiveAreKnown(s) && i < |s.active| && s.active[i] in s.chroots
    ensures IsSafeAt(env, s, i) <==>
      (!s.chroots[s.active[i]].isExistingDir && Unmounts(env, s, i) ==> NoneLeftInside(env, s, i))
  {
    hide *;
    var id := s.active[i];
    var now := After(env, s, i + 1);
    KnownIs(s);
    SafeAtIs(env, s, i);
    UnmountsIs(env, s, i);
    NoneLeftIs(env, s, i);
    PendingLaw(env, s, i + 1);
    AttemptAt(env, s, i);
    if !IsSafeAt(env, s, i) {
      SafeIs(env, now, id);
      var m := MountInside(env, now, id);
      var d := MountLeft(env, s, i, m);
      if d {
        StraysStay(env, s, i + 1, m.owner);
        NoneInsideIs(env, Own(s.mounts, m.owner), s.chroots[id].rootDir);
      } else {
        var t := LaterOne(s.active, i, m.owner);
        LeftAfter(env, s, i + 1, t);
        NoneInsideIs(env, Own(After(env, s, t).mounts, s.active[t]), s.chroots[id].rootDir);
      }
    } else if !s.chroots[id].isExistingDir && Unmounts(env, s, i) {
      forall t | i < t < |s.active|
        ensures NoneInside(env, Own(After(env, s, t).mounts, s.active[t]), s.chroots[id].rootDir)
      {
        EarlierIsClear(env, s, i, t);
        LeftAfter(env, s, i + 1, t);
        SafeOwn(env, now, id, s.active[t]);
      }
      forall d | d in s.chroots && d !in s.active ensures NoneInside(env, Own(s.mounts, d), s.chroots[id].rootDir) {
        StraysStay(env, s, i + 1, d);
        SafeOwn(env, now, id, d);
      }
    }
  }

  // Whose mount it is: of a chroot that is not active, or of one opened later.
  lemma MountLeft(env: Env, s: Sys, i: nat, m: Mount) returns (isStray: bool)
    requires IsGood(env, s) && i < |s.active| && ActiveAreKnown(s) && s.active[i] in s.chroots
    requires m in After(env, s, i + 1).mounts && m.owner != s.active[i] && m.path in Own(After(env, s, i + 1).mounts, m.owner)
    requires Inside(env, s.chroots[s.active[i]].rootDir, m.path) && !s.chroots[s.active[i]].isExistingDir
    ensures m.owner in s.chroots && isStray == (m.owner !in s.active)
    ensures !isStray ==> m.owner !in s.active[..i + 1]
  {
    hide *;
    var now := After(env, s, i + 1);
    PendingLaw(env, s, i + 1);
    PendingIs(env, s, i + 1);
    OwnersIn(now, m);
    isStray := m.owner !in s.active;
    forall j | 0 <= j < i ensures s.active[j] != m.owner {
      EarlierIsClear(env, s, j, i);
      if s.active[j] == m.owner {
        NotInside(env, now, s.chroots[s.active[i]], m.owner, m.path);
      }
    }
    NotBefore(s.active, i, m.owner);
  }

  // Every chroot that lies inside of one that was opened before it unmounts all
  // of its mount points.
  predicate InnerOnesUnmount(env: Env, s: Sys)
    requires ActiveAreKnown(s)
  {
    forall i, t :: 0 <= i < t < |s.active| && !ClearOf(env, s.chroots[s.active[i]], s.chroots[s.active[t]]) ==>
      Unmounts(env, s, t)
  }

  // No mounts that a chroot left behind lie inside of an active one.
  predicate StraysAreClear(env: Env, s: Sys)
    requires ActiveAreKnown(s)
  {
    forall i, d :: 0 <= i < |s.active| && d in s.chroots && d !in s.active && Own(s.mounts, d) != [] ==>
      ClearOf(env, s.chroots[s.active[i]], s.chroots[d])
  }

  lemma ClearInside(env: Env, s: Sys, c: Chroot, paths: seq<string>, d: int)
    requires d in s.chroots && IsTidy(env, s, d) && paths <= Own(s.mounts, d)
    requires Own(s.mounts, d) == [] || ClearOf(env, c, s.chroots[d])
    requires !c.isExistingDir
    ensures NoneInside(env, paths, c.rootDir)
  {
    hide *;
    forall path | path in paths ensures !Inside(env, c.rootDir, path) {
      InPrefix(paths, Own(s.mounts, d), path);
      NotInside(env, s, c, d, path);
    }
    NoneInsideIs(env, paths, c.rootDir);
  }

  lemma NoneLeftWhen(env: Env, s: Sys, i: nat)
    requires IsGood(env, s) && i < |s.active| && ActiveAreKnown(s) && s.active[i] in s.chroots
    requires InnerOnesUnmount(env, s) && StraysAreClear(env, s) && !s.chroots[s.active[i]].isExistingDir
    ensures NoneLeftInside(env, s, i)
  {
    hide *;
    var c := s.chroots[s.active[i]];
    NoneLeftIs(env, s, i);
    GoodIs(env, s);
    CleanOf(env, s);
    forall t | i < t < |s.active| ensures NoneInside(env, Own(After(env, s, t).mounts, s.active[t]), c.rootDir) {
      InnerIs(env, s, i, t);
      PendingLaw(env, s, t + 1);
      AttemptAt(env, s, t);
      OwnAfter(env, s, t, s.active[t]);
      if Unmounts(env, s, t) {
        NoneInsideIs(env, [], c.rootDir);
      } else {
        ClearInside(env, s, c, Own(After(env, s, t).mounts, s.active[t]), s.active[t]);
      }
    }
    forall d | d in s.chroots && d !in s.active ensures NoneInside(env, Own(s.mounts, d), c.rootDir) {
      StrayIs(env, s, i, d);
      ClearInside(env, s, c, Own(s.mounts, d), d);
    }
  }

  // The last chroot first: where inner chroots can be unmounted, no attempt
  // removes a root directory above a mount.
  lemma CleanupLaw(env: Env, s: Sys)
    requires IsGood(env, s) && ActiveAreKnown(s) && InnerOnesUnmount(env, s) && StraysAreClear(env, s)
    ensures forall i :: 0 <= i < |s.active| ==> IsSafeAt(env, s, i)
  {
    forall i | 0 <= i < |s.active| ensures IsSafeAt(env, s, i) {
      hide *;
      KnownIs(s);
      SafeAtMeans(env, s, i);
      if !s.chroots[s.active[i]].isExistingDir {
        NoneLeftWhen(env, s, i);
      }
    }
  }

  lemma LaterOne(ids: seq<int>, i: nat, d: int) returns (t: nat)
    requires i < |ids| && d in ids && d !in ids[..i + 1]
    ensures i < t < |ids| && ids[t] == d
  {
    assert forall j :: 0 <= j <= i ==> ids[..i + 1][j] == ids[j];
    t :| t < |ids| && ids[t] == d;
  }

  lemma InnerIs(env: Env, s: Sys, i: nat, t: nat)
    requires ActiveAreKnown(s) && InnerOnesUnmount(env, s) && i < t < |s.active|
    ensures s.active[i] in s.chroots && s.active[t] in s.chroots
    ensures ClearOf(env, s.chroots[s.active[i]], s.chroots[s.active[t]]) || Unmounts(env, s, t)
  {
    hide ClearOf, Unmounts;
  }

  lemma StrayIs(env: Env, s: Sys, i: nat, d: int)
    requires ActiveAreKnown(s) && StraysAreClear(env, s) && i < |s.active| && d in s.chroots && d !in s.active
    ensures s.active[i] in s.chroots && (Own(s.mounts, d) == [] || ClearOf(env, s.chroots[s.active[i]], s.chroots[d]))
  {
    hide ClearOf, Own;
  }

  // What is mounted at the end: an active chroot whose mount points could all be
  // unmounted has none, of the mounts of any chroot the first ones are left, and
  // chroots that are not active keep all of theirs.
  lemma MountsAfterCleanup(env: Env, s: Sys, d: int)
    requires IsGood(env, s) && ActiveAreKnown(s)
    ensures var end := CleanupFrom(env, s, |s.active|);
      && Own(end.mounts, d) <= Own(s.mounts, d)
      && (d !in s.active ==> Own(end.mounts, d) == Own(s.mounts, d))
      && forall t :: 0 <= t < |s.active| && s.active[t] == d && Unmounts(env, s, t) ==> Own(end.mounts, d) == []
  {
    hide *;
    KnownIs(s);
    CleanupIs(env, s, |s.active|);
    AfterStep(env, s, |s.active|);
    OwnAfter(env, s, 0, d);
    if d !in s.active {
      StraysStay(env, s, 0, d);
    }
    forall t | 0 <= t < |s.active| && s.active[t] == d && Unmounts(env, s, t)
      ensures Own(After(env, s, 0).mounts, d) == []
    {
      LeftAfter(env, s, 0, t);
      PendingLaw(env, s, t + 1);
      AttemptAt(env, s, t);
    }
  }

  lemma {:induction false} StraysStay(env: Env, s: Sys, i: nat, d: int)
    requires i <= |s.active| && IsGood(env, s) && ActiveAreKnown(s) && d !in s.active
    ensures Own(After(env, s, i).mounts, d) == Own(s.mounts, d)
    decreases |s.active| - i
  {
    hide *;
    AfterStep(env, s, i);
    if i == |s.active| {
    } else {
      StraysStay(env, s, i + 1, d);
      PendingLaw(env, s, i + 1);
      AttemptAt(env, s, i);
      OwnSpared(After(env, s, i + 1), After(env, s, i), s.active[i], d);
    }
  }
}
