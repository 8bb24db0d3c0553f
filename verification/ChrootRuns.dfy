// Runs of initializing and closing chroots.
module ChrootRuns {
  import opened Chroots
  import opened ChrootLaws
  import opened ChrootStack

  datatype Action = Initializes(id: int, setup: Setup) | Closes(id: int)

  // The state after a run.
  function Run(env: Env, s: Sys, acts: seq<Action>): Sys
    requires forall k :: 0 <= k < |acts| ==> acts[k].id in s.chroots
    ensures Run(env, s, acts).chroots.Keys == s.chroots.Keys
  {
    if acts == [] then s
    else
      var before := Run(env, s, acts[..|acts| - 1]);
      var last := acts[|acts| - 1];
      KeysKept(env, before, last);
      Act(env, before, last).s
  }

  function Act(env: Env, s: Sys, a: Action): Result
    requires a.id in s.chroots
  {
    match a
    case Initializes(id, setup) => Initialize(env, s, id, setup)
    case Closes(id) => Close(env, s, id)
  }

  lemma KeysKept(env: Env, s: Sys, a: Action)
    requires a.id in s.chroots
    ensures Act(env, s, a).s.chroots.Keys == s.chroots.Keys
  {
    hide *;
    ActIs(env, s, a);
    match a {
      case Initializes(id, setup) => InitializeActive(env, s, id, setup);
      case Closes(id) => CloseActive(env, s, id);
    }
  }

  lemma ActIs(env: Env, s: Sys, a: Action)
    requires a.id in s.chroots
    ensures a.Initializes? ==> Act(env, s, a) == Initialize(env, s, a.id, a.setup)
    ensures a.Closes? ==> Act(env, s, a) == Close(env, s, a.id)
  {
    hide Initialize, Close;
  }

  // ------------------------------------------------ the list of active chroots

  lemma InitializeActive(env: Env, s: Sys, id: int, setup: Setup)
    requires id in s.chroots
    ensures Initialize(env, s, id, setup).s.chroots.Keys == s.chroots.Keys
    ensures Initialize(env, s, id, setup).s.active ==
      if Initialize(env, s, id, setup).ok then s.active + [id] else s.active
  {
    hide *;
    InitializeIs(env, s, id, setup);
    PrepareKeeps(env, s, s.chroots[id]);
    var p := PrepareRoot(env, s, s.chroots[id]);
    FillKeeps(env, p.s, id, setup);
    var f := Fill(env, p.s, id, setup);
    var w := WithMountPoints(f.s, id, AllMountPoints(setup));
    WithIs(f.s, id, AllMountPoints(setup));
    MountKeeps(env, w, id, 0);
    FailedIs(env, f.s, id);
    FailedIs(env, MountFrom(env, w, id, 0).s, id);
    UnmountKeeps(env, f.s, id);
    UnmountKeeps(env, MountFrom(env, w, id, 0).s, id);
  }

  lemma WithIs(s: Sys, id: int, mountPoints: seq<MountPoint>)
    requires id in s.chroots
    ensures var w := WithMountPoints(s, id, mountPoints); w.chroots.Keys == s.chroots.Keys && w.active == s.active
  {
  }

  lemma CloseActive(env: Env, s: Sys, id: int)
    requires id in s.chroots
    ensures Close(env, s, id).s.chroots.Keys == s.chroots.Keys
    ensures id in s.active <==> IndexOf(s.active, id) < |s.active|
    ensures Close(env, s, id).s.active ==
      if Close(env, s, id).ok && id in s.active then Without(s.active, id) else s.active
  {
    hide *;
    CloseIs(env, s, id);
    TriedIs(env, s, id);
    UnmountKeeps(env, s, id);
    UnmountKeeps(env, UnmountAndRemove(env, s, id).s, id);
  }

  // How often the chroot was initialized, and how often it was closed.
  function Initialized(env: Env, s: Sys, acts: seq<Action>, id: int): int
    requires forall k :: 0 <= k < |acts| ==> acts[k].id in s.chroots
  {
    if acts == [] then 0
    else
      var before, last := Run(env, s, acts[..|acts| - 1]), acts[|acts| - 1];
      Initialized(env, s, acts[..|acts| - 1], id)
      + if last.Initializes? && last.id == id && Act(env, before, last).ok then 1 else 0
  }

  function Closed(env: Env, s: Sys, acts: seq<Action>, id: int): int
    requires forall k :: 0 <= k < |acts| ==> acts[k].id in s.chroots
  {
    if acts == [] then 0
    else
      var before, last := Run(env, s, acts[..|acts| - 1]), acts[|acts| - 1];
      Closed(env, s, acts[..|acts| - 1], id)
      + if last.Closes? && last.id == id && id in before.active && Act(env, before, last).ok then 1 else 0
  }

  lemma ActCount(env: Env, s: Sys, a: Action, id: int)
    requires a.id in s.chroots
    ensures multiset(Act(env, s, a).s.active)[id] == multiset(s.active)[id]
      + (if a.Initializes? && a.id == id && Act(env, s, a).ok then 1 else 0)
      - (if a.Closes? && a.id == id && id in s.active && Act(env, s, a).ok then 1 else 0)
  {
    hide Act, Initialize, Close, IndexOf, Without;
    ActIs(env, s, a);
    match a {
      case Initializes(i, setup) => InitializeActive(env, s, i, setup);
      case Closes(i) =>
        CloseActive(env, s, i);
        if i in s.active {
          WithoutOne(s.active, i);
          InMultiset(s.active, i);
        }
    }
  }

  // In every run, whatever fails, a chroot is active as often as it was
  // initialized and not yet closed.
  lemma {:induction false} ActiveCount(env: Env, s: Sys, acts: seq<Action>, id: int)
    requires forall k :: 0 <= k < |acts| ==> acts[k].id in s.chroots
    ensures multiset(Run(env, s, acts).active)[id] ==
      multiset(s.active)[id] + Initialized(env, s, acts, id) - Closed(env, s, acts, id)
  {
    hide Act;
    if acts == [] {
    } else {
      var front := acts[..|acts| - 1];
      ActiveCount(env, s, front, id);
      ActCount(env, Run(env, s, front), acts[|acts| - 1], id);
    }
  }

  predicate IsOnce(ids: seq<int>) {
    forall i, j :: 0 <= i < j < |ids| ==> ids[i] != ids[j]
  }

  // A successful initialization of a chroot that is still active.
  predicate Repeats(env: Env, s: Sys, a: Action)
    requires a.id in s.chroots
  {
    a.Initializes? && a.id in s.active && Act(env, s, a).ok
  }

  lemma OnceStep(env: Env, s: Sys, a: Action)
    requires a.id in s.chroots && IsOnce(s.active)
    ensures IsOnce(Act(env, s, a).s.active) <==> !Repeats(env, s, a)
  {
    hide Act, IndexOf;
    ActIs(env, s, a);
    match a {
      case Initializes(id, setup) =>
        InitializeActive(env, s, id, setup);
        OnceMore(s.active, id);
      case Closes(id) =>
        CloseActive(env, s, id);
    }
  }

  lemma OnceMore(ids: seq<int>, id: int)
    requires IsOnce(ids)
    ensures IsOnce(ids + [id]) <==> id !in ids
  {
    if id in ids {
      var k :| 0 <= k < |ids| && ids[k] == id;
      assert (ids + [id])[k] == (ids + [id])[|ids|];
    }
  }

  predicate IsOnceAt(env: Env, s: Sys, acts: seq<Action>, n: nat)
    requires n <= |acts| && forall k :: 0 <= k < |acts| ==> acts[k].id in s.chroots
  {
    IsOnce(Run(env, s, acts[..n]).active)
  }

  // At every point of the run.
  predicate IsOnceThroughout(env: Env, s: Sys, acts: seq<Action>)
    requires forall k :: 0 <= k < |acts| ==> acts[k].id in s.chroots
  {
    forall n :: 0 <= n <= |acts| ==> IsOnceAt(env, s, acts, n)
  }

  predicate NeverRepeats(env: Env, s: Sys, acts: seq<Action>)
    requires forall k :: 0 <= k < |acts| ==> acts[k].id in s.chroots
  {
    forall n :: 0 <= n < |acts| ==> !Repeats(env, Run(env, s, acts[..n]), acts[n])
  }

  lemma RunNone(env: Env, s: Sys)
    ensures Run(env, s, []) == s
  {
  }

  // A run, and the last action.
  lemma RunLast(env: Env, s: Sys, acts: seq<Action>)
    requires acts != [] && forall k :: 0 <= k < |acts| ==> acts[k].id in s.chroots
    ensures Run(env, s, acts) == Act(env, Run(env, s, acts[..|acts| - 1]), acts[|acts| - 1]).s
  {
    hide Act;
  }

  lemma FrontOf(acts: seq<Action>, n: nat)
    requires n < |acts|
    ensures acts[..|acts| - 1][..n] == acts[..n]
  {
  }

  lemma OnceAtFront(env: Env, s: Sys, acts: seq<Action>, n: nat)
    requires n < |acts| && forall k :: 0 <= k < |acts| ==> acts[k].id in s.chroots
    ensures IsOnceAt(env, s, acts[..|acts| - 1], n) <==> IsOnceAt(env, s, acts, n)
  {
    hide Run, IsOnce;
    FrontOf(acts, n);
  }

  lemma OnceAtEnd(env: Env, s: Sys, acts: seq<Action>)
    requires forall k :: 0 <= k < |acts| ==> acts[k].id in s.chroots
    ensures IsOnceAt(env, s, acts, |acts|) <==> IsOnce(Run(env, s, acts).active)
  {
    hide Run, IsOnce;
    assert acts[..|acts|] == acts;
  }

  lemma OnceLast(env: Env, s: Sys, acts: seq<Action>)
    requires acts != [] && forall k :: 0 <= k < |acts| ==> acts[k].id in s.chroots
    ensures IsOnceThroughout(env, s, acts) <==>
      IsOnceThroughout(env, s, acts[..|acts| - 1]) && IsOnce(Run(env, s, acts).active)
  {
    hide IsOnceAt, Run, IsOnce;
    OnceAtEnd(env, s, acts);
    var front := acts[..|acts| - 1];
    forall n: nat | n < |acts| ensures IsOnceAt(env, s, front, n) <==> IsOnceAt(env, s, acts, n) {
      OnceAtFront(env, s, acts, n);
    }
    if IsOnceThroughout(env, s, front) && IsOnceAt(env, s, acts, |acts|) {
      forall n: nat | n <= |acts| ensures IsOnceAt(env, s, acts, n) {
        if n < |acts| {
          assert IsOnceAt(env, s, front, n);
        }
      }
    }
  }

  lemma RepeatsLast(env: Env, s: Sys, acts: seq<Action>)
    requires acts != [] && forall k :: 0 <= k < |acts| ==> acts[k].id in s.chroots
    ensures NeverRepeats(env, s, acts) <==>
      NeverRepeats(env, s, acts[..|acts| - 1]) && !Repeats(env, Run(env, s, acts[..|acts| - 1]), acts[|acts| - 1])
  {
    hide Run, Repeats;
    forall n: nat | n < |acts| ensures acts[..|acts| - 1][..n] == acts[..n] {
      FrontOf(acts, n);
    }
  }

  lemma OnceNone(env: Env, s: Sys)
    ensures IsOnceThroughout(env, s, []) <==> IsOnce(s.active)
    ensures NeverRepeats(env, s, [])
  {
    hide IsOnceAt;
    OnceAtEnd(env, s, []);
    RunNone(env, s);
  }

  lemma OnceEnd(env: Env, s: Sys, acts: seq<Action>)
    requires forall k :: 0 <= k < |acts| ==> acts[k].id in s.chroots
    ensures IsOnceThroughout(env, s, acts) ==> IsOnce(Run(env, s, acts).active)
  {
    hide IsOnceAt;
    OnceAtEnd(env, s, acts);
  }

  // In every run, whatever fails: no chroot is ever active twice if and only if
  // no chroot that is still active is initialized with success.
  lemma {:induction false} OnceExactly(env: Env, s: Sys, acts: seq<Action>)
    requires IsOnce(s.active) && forall k :: 0 <= k < |acts| ==> acts[k].id in s.chroots
    ensures IsOnceThroughout(env, s, acts) <==> NeverRepeats(env, s, acts)
  {
    hide *;
    if acts == [] {
      OnceNone(env, s);
    } else {
      var front, last := acts[..|acts| - 1], acts[|acts| - 1];
      OnceExactly(env, s, front);
      OnceLast(env, s, acts);
      RepeatsLast(env, s, acts);
      RunLast(env, s, acts);
      OnceEnd(env, s, front);
      if IsOnce(Run(env, s, front).active) {
        OnceStep(env, Run(env, s, front), last);
      }
    }
  }

  lemma {:induction false} NoneTwice(ids: seq<int>, id: int)
    requires IsOnce(ids)
    ensures multiset(ids)[id] <= 1
  {
    if ids == [] {
    } else {
      var n := |ids| - 1;
      assert ids == ids[..n] + [ids[n]];
      NoneTwice(ids[..n], id);
      if ids[n] == id {
        assert forall i :: 0 <= i < n ==> ids[..n][i] != id;
        assert id !in multiset(ids[..n]);
      }
    }
  }

  // ------------------------------------------------------------ orderly runs

  predicate MayAct(env: Env, s: Sys, a: Action)
    requires a.id in s.chroots
  {
    match a
    case Initializes(id, setup) => MayInitialize(env, s, id, setup)
    case Closes(id) => MayClose(env, s, id)
  }

  // Chroots are opened where no live one is in the way, and closed before the
  // ones that they lie in.
  predicate IsOrderly(env: Env, s: Sys, acts: seq<Action>)
    requires forall k :: 0 <= k < |acts| ==> acts[k].id in s.chroots
  {
    forall n :: 0 <= n < |acts| ==> MayAct(env, Run(env, s, acts[..n]), acts[n])
  }

  // No attempt removes a root directory above a mount.
  predicate ActIsSafe(env: Env, s: Sys, a: Action)
    requires a.id in s.chroots
  {
    match a
    case Initializes(id, setup) =>
      InitializeIs(env, s, id, setup);
      PrepareRoot(env, s, s.chroots[id]).ok ==> RemovalIsSafe(env, BeforeCleanup(env, s, id, setup), id)
    case Closes(id) => CloseIsSafe(env, s, id)
  }

  lemma ActKeeps(env: Env, s: Sys, a: Action)
    requires IsGood(env, s) && a.id in s.chroots && MayAct(env, s, a)
    ensures IsGood(env, Act(env, s, a).s) && ActIsSafe(env, s, a)
  {
    hide IsGood, MayInitialize, MayClose, RemovalIsSafe, CloseIsSafe, PrepareRoot, BeforeCleanup, Act, Initialize, Close;
    ActIs(env, s, a);
    match a {
      case Initializes(id, setup) => InitializeKeeps(env, s, id, setup);
      case Closes(id) => CloseLaw(env, s, id);
    }
  }

  lemma GoodIsOnce(env: Env, s: Sys)
    requires IsGood(env, s)
    ensures IsOnce(s.active)
  {
    hide MountsAreClean, ClearOf, HasRoot;
  }

  predicate RunIsSafe(env: Env, s: Sys, acts: seq<Action>)
    requires forall k :: 0 <= k < |acts| ==> acts[k].id in s.chroots
  {
    forall n :: 0 <= n < |acts| ==> ActIsSafe(env, Run(env, s, acts[..n]), acts[n])
  }

  lemma OrderlyLast(env: Env, s: Sys, acts: seq<Action>)
    requires acts != [] && forall k :: 0 <= k < |acts| ==> acts[k].id in s.chroots
    ensures IsOrderly(env, s, acts) <==>
      IsOrderly(env, s, acts[..|acts| - 1]) && MayAct(env, Run(env, s, acts[..|acts| - 1]), acts[|acts| - 1])
    ensures RunIsSafe(env, s, acts) <==>
      RunIsSafe(env, s, acts[..|acts| - 1]) && ActIsSafe(env, Run(env, s, acts[..|acts| - 1]), acts[|acts| - 1])
  {
    hide Run, MayAct, ActIsSafe;
    forall n: nat | n < |acts| ensures acts[..|acts| - 1][..n] == acts[..n] {
      FrontOf(acts, n);
    }
  }

  lemma NothingYet(env: Env, s: Sys)
    ensures RunIsSafe(env, s, []) && IsOrderly(env, s, [])
  {
  }

  // In every orderly run: each chroot has a front part of its mount points
  // mounted, in order, and nothing else is mounted there while it is open; no
  // root directory is removed above a mount; and each chroot that was initialized
  // and not closed is active exactly once.
  lemma {:induction false} RunKeeps(env: Env, s: Sys, acts: seq<Action>)
    requires IsGood(env, s) && s.active == [] && forall k :: 0 <= k < |acts| ==> acts[k].id in s.chroots
    requires IsOrderly(env, s, acts)
    ensures IsGood(env, Run(env, s, acts)) && RunIsSafe(env, s, acts)
    ensures forall id :: multiset(Run(env, s, acts).active)[id] == Initialized(env, s, acts, id) - Closed(env, s, acts, id) <= 1
  {
    hide *;
    if acts == [] {
      RunNone(env, s);
      NothingYet(env, s);
    } else {
      var front := acts[..|acts| - 1];
      OrderlyLast(env, s, acts);
      RunLast(env, s, acts);
      RunKeeps(env, s, front);
      ActKeeps(env, Run(env, s, front), acts[|acts| - 1]);
    }
    forall id ensures multiset(Run(env, s, acts).active)[id] == Initialized(env, s, acts, id) - Closed(env, s, acts, id) <= 1 {
      ActiveCount(env, s, acts, id);
      GoodIsOnce(env, Run(env, s, acts));
      NoneTwice(Run(env, s, acts).active, id);
    }
  }

  // ---------------------------------------------------------- unwinding

  // Closes the last n of the active chroots, the last one first.
  function Closings(ids: seq<int>, n: nat): (r: seq<Action>)
    requires n <= |ids|
    ensures |r| == n && forall k :: 0 <= k < n ==> r[k] == Closes(ids[|ids| - 1 - k])
  {
    if n == 0 then [] else Closings(ids, n - 1) + [Closes(ids[|ids| - n])]
  }

  predicate AllSucceed(env: Env, s: Sys, acts: seq<Action>)
    requires forall k :: 0 <= k < |acts| ==> acts[k].id in s.chroots
  {
    forall n :: 0 <= n < |acts| ==> Act(env, Run(env, s, acts[..n]), acts[n]).ok
  }

  lemma SucceedLast(env: Env, s: Sys, acts: seq<Action>)
    requires acts != [] && forall k :: 0 <= k < |acts| ==> acts[k].id in s.chroots
    requires AllSucceed(env, s, acts)
    ensures AllSucceed(env, s, acts[..|acts| - 1])
    ensures Act(env, Run(env, s, acts[..|acts| - 1]), acts[|acts| - 1]).ok
  {
    hide Run, Act;
    forall n: nat | n < |acts| ensures acts[..|acts| - 1][..n] == acts[..n] {
      FrontOf(acts, n);
    }
  }

  // Only active chroots have mounts.
  predicate OnlyActiveHaveMounts(s: Sys) {
    forall d :: d in s.chroots && Own(s.mounts, d) != [] ==> d in s.active
  }

  lemma IndexOfLast(ids: seq<int>)
    requires ids != [] && IsOnce(ids)
    ensures IndexOf(ids, ids[|ids| - 1]) == |ids| - 1
    ensures Without(ids, ids[|ids| - 1]) == ids[..|ids| - 1]
  {
  }

  // Closing the chroot that was opened last.
  lemma CloseLast(env: Env, s: Sys, id: int)
    requires IsGood(env, s) && OnlyActiveHaveMounts(s) && s.active != [] && id == s.active[|s.active| - 1]
    ensures id in s.chroots && MayClose(env, s, id)
    ensures var r := Close(env, s, id);
      r.ok ==> IsGood(env, r.s) && OnlyActiveHaveMounts(r.s) && r.s.active == s.active[..|s.active| - 1]
  {
    hide *;
    OnlyActiveIs(s);
    LastMayClose(env, s);
    CloseLaw(env, s, id);
    CloseActive(env, s, id);
    GoodIsOnce(env, s);
    IndexOfLast(s.active);
    var r := Close(env, s, id);
    if r.ok {
      LastIsIn(s.active);
      SparesMeans(s, r.s, id, []);
      forall d | d in r.s.chroots && Own(r.s.mounts, d) != [] ensures d in r.s.active {
        SparesOwn(s, r.s, id, d);
      }
      OnlyActiveIs(r.s);
    }
  }

  lemma OnlyActiveIs(s: Sys)
    ensures OnlyActiveHaveMounts(s) <==> forall d :: d in s.chroots && Own(s.mounts, d) != [] ==> d in s.active
  {
    hide Own;
  }

  lemma LastIsIn(ids: seq<int>)
    requires ids != []
    ensures ids[|ids| - 1] in ids
    ensures forall d :: d in ids && d != ids[|ids| - 1] ==> d in ids[..|ids| - 1]
  {
    assert ids == ids[..|ids| - 1] + [ids[|ids| - 1]];
  }

  lemma SparesOwn(s: Sys, s': Sys, id: int, d: int)
    requires SparesOthers(s, s', id, []) && d != id
    ensures Own(s'.mounts, d) == Own(s.mounts, d)
  {
    hide Own;
  }

  // Closing what was opened, the last one first, is an orderly run; where every
  // close succeeds, the outer chroots are left as they were.
  lemma {:induction false} UnwindLaw(env: Env, s: Sys, n: nat)
    requires IsGood(env, s) && OnlyActiveHaveMounts(s) && n <= |s.active|
    requires forall k :: 0 <= k < |s.active| ==> s.active[k] in s.chroots
    requires AllSucceed(env, s, Closings(s.active, n))
    ensures IsOrderly(env, s, Closings(s.active, n))
    ensures var s' := Run(env, s, Closings(s.active, n));
      IsGood(env, s') && OnlyActiveHaveMounts(s') && s'.active == s.active[..|s.active| - n]
  {
    hide *;
    var acts := Closings(s.active, n);
    if n == 0 {
      assert acts == [] && s.active[..|s.active|] == s.active;
      RunNone(env, s);
      NothingYet(env, s);
    } else {
      ClosingsLast(s.active, n);
      SucceedLast(env, s, acts);
      UnwindLaw(env, s, n - 1);
      OrderlyLast(env, s, acts);
      RunLast(env, s, acts);
      var t := Run(env, s, Closings(s.active, n - 1));
      var last := acts[n - 1];
      ActIs(env, t, last);
      MayActIs(env, t, last);
      CloseLast(env, t, last.id);
      assert s.active[..|s.active| - (n - 1)][..|s.active| - n] == s.active[..|s.active| - n];
    }
  }

  lemma ClosingsLast(ids: seq<int>, n: nat)
    requires 0 < n <= |ids|
    ensures Closings(ids, n)[..n - 1] == Closings(ids, n - 1)
    ensures Closings(ids, n)[n - 1] == Closes(ids[|ids| - n])
  {
  }

  lemma MayActIs(env: Env, s: Sys, a: Action)
    requires a.id in s.chroots && a.Closes?
    ensures MayAct(env, s, a) <==> MayClose(env, s, a.id)
  {
    hide MayClose;
  }

  // In the end nothing is mounted.
  lemma UnwindAll(env: Env, s: Sys)
    requires IsGood(env, s) && OnlyActiveHaveMounts(s)
    requires forall k :: 0 <= k < |s.active| ==> s.active[k] in s.chroots
    requires AllSucceed(env, s, Closings(s.active, |s.active|))
    ensures var s' := Run(env, s, Closings(s.active, |s.active|)); s'.mounts == [] && s'.active == []
  {
    hide *;
    UnwindLaw(env, s, |s.active|);
    var s' := Run(env, s, Closings(s.active, |s.active|));
    GoodIs(env, s');
    CleanOf(env, s');
    OnlyActiveIs(s');
    if s'.mounts != [] {
      var m := s'.mounts[0];
      OwnersIn(s', m);
      OwnHas(s'.mounts, m.path, m.owner);
      MountIs(m);
    }
  }

  // ------------------------------------------- setting up a directory twice

  ghost predicate NothingFails(env: Env) {
    forall n :: !env.fails(n)
  }

  lemma {:induction false} MakeDirsSucceeds(env: Env, s: Sys, root: string, targets: seq<string>)
    requires NothingFails(env)
    ensures MakeDirs(env, s, root, targets).ok
    decreases |targets|
  {
    if targets == [] {
    } else {
      MakeDirsSucceeds(env, Tick(s).(dirs := s.dirs + {env.join(root, targets[0])}), root, targets[1..]);
    }
  }

  lemma {:induction false} MountSucceeds(env: Env, s: Sys, id: int, i: nat)
    requires NothingFails(env) && id in s.chroots && i <= |s.chroots[id].mountPoints|
    ensures MountFrom(env, s, id, i).ok
    decreases |s.chroots[id].mountPoints| - i
  {
    MountStep(env, s, id, i);
    if i == |s.chroots[id].mountPoints| {
    } else {
      MountedIs(env, s, id, i);
      MountSucceeds(env, Mounted(env, s, id, i), id, i + 1);
    }
  }

  // Where nothing fails, an existing directory can be set up at any time.
  lemma SetUpSucceeds(env: Env, s: Sys, id: int, setup: Setup)
    requires NothingFails(env) && id in s.chroots && s.chroots[id].isExistingDir && s.chroots[id].rootDir in s.dirs
    ensures var r := Initialize(env, s, id, setup);
      && r.ok && r.s.active == s.active + [id]
      && id in r.s.chroots && r.s.chroots[id].isExistingDir && r.s.chroots[id].rootDir in r.s.dirs
  {
    hide MountFrom, MakeDirs, AllMountPoints, UnmountAndRemove;
    InitializeIs(env, s, id, setup);
    InitializeActive(env, s, id, setup);
    FillKeeps(env, s, id, setup);
    MakeDirsSucceeds(env, if setup.hasTar then Tick(s) else s, s.chroots[id].rootDir, setup.extraDirectories);
    var w := WithMountPoints(Fill(env, s, id, setup).s, id, AllMountPoints(setup));
    MountSucceeds(env, w, id, 0);
    MountKeeps(env, w, id, 0);
  }

  // A chroot that is still active can be initialized once more only in an
  // existing directory; there it can whenever nothing fails.
  lemma RepeatsMeans(env: Env, s: Sys, id: int, setup: Setup)
    requires IsGood(env, s) && id in s.chroots && id in s.active
    ensures Repeats(env, s, Initializes(id, setup)) ==> s.chroots[id].isExistingDir && s.chroots[id].rootDir in s.dirs
    ensures NothingFails(env) ==>
      (Repeats(env, s, Initializes(id, setup)) <==> s.chroots[id].isExistingDir && s.chroots[id].rootDir in s.dirs)
  {
    ActIs(env, s, Initializes(id, setup));
    InitializeIs(env, s, id, setup);
    GoodIs(env, s);
    ActiveHasRoot(env, s, id);
    if NothingFails(env) && s.chroots[id].isExistingDir && s.chroots[id].rootDir in s.dirs {
      SetUpSucceeds(env, s, id, setup);
    }
    hide IsGood, Act, Initialize, Fill, MountFrom, BeforeCleanup, Failed;
  }

  const SLASH_ENV := Env((root, target) => root + "/" + target, (root, path) => root + "/" <= path, n => false,
    (n, path) => false)

  // One initialization after the other, of one chroot.
  lemma RunTwice(env: Env, s: Sys, a: Action)
    requires a.id in s.chroots
    ensures Act(env, s, a).s.chroots.Keys == s.chroots.Keys
    ensures Run(env, s, [a, a]) == Act(env, Act(env, s, a).s, a).s
  {
    KeysKept(env, s, a);
    RunNone(env, s);
    RunLast(env, s, [a]);
    RunLast(env, s, [a, a]);
    assert [a][..0] == [] && [a, a][..1] == [a];
    hide Act, Run;
  }

  // So the list of active chroots can hold one twice.
  lemma SetUpTwice(setup: Setup) returns (s: Sys, acts: seq<Action>)
    ensures IsGood(SLASH_ENV, s) && s.active == []
    ensures forall k :: 0 <= k < |acts| ==> acts[k].id in s.chroots
    ensures multiset(Run(SLASH_ENV, s, acts).active)[0] == 2
  {
    s := Sys([], {"/c"}, map[0 := Chroot("/c", true, [])], [], 0);
    StartIsGood(SLASH_ENV, s);
    var a := Initializes(0, setup);
    acts := [a, a];
    assert NothingFails(SLASH_ENV);
    hide *;
    RunTwice(SLASH_ENV, s, a);
    ActIs(SLASH_ENV, s, a);
    SetUpSucceeds(SLASH_ENV, s, 0, setup);
    var s' := Initialize(SLASH_ENV, s, 0, setup).s;
    ActIs(SLASH_ENV, s', a);
    SetUpSucceeds(SLASH_ENV, s', 0, setup);
    assert [] + [0] + [0] == [0, 0];
  }
}
