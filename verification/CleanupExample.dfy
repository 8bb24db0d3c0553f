// A signal while one chroot is open inside of another, and a mount that cannot be
// undone.
module CleanupExample {
  import opened Chroots
  import opened ChrootCleanup
  import opened ChrootLaws
  import opened ChrootStack
  import opened ChrootRuns

  // The seventh call fails: the unmounting.
  const ENV := Env((root, target) => root + "/" + target, (root, path) => root + "/" <= path, n => n == 6,
    (n, path) => false)

  const BARE := Setup(false, [], [], false)
  const ONE := Setup(false, [], [MountPoint("m", false, false)], false)

  const OUTER := Chroot("/o", false, [])
  const INNER := Chroot("/o/i", false, [])
  const INNER_OPEN := Chroot("/o/i", false, [MountPoint("m", false, true)])

  const START := Sys([], {}, map[0 := OUTER, 1 := INNER], [], 0)
  const OUTER_IS_OPEN := Sys([], {"/o"}, map[0 := OUTER, 1 := INNER], [0], 1)
  const BOTH_ARE_OPEN := Sys([Mount("/o/i/m", 1)], {"/o", "/o/i", "/o/i/m"}, map[0 := OUTER, 1 := INNER_OPEN], [0, 1], 4)

  lemma OpensOuter()
    ensures Initialize(ENV, START, 0, BARE) == Result(OUTER_IS_OPEN, true)
  {
    assert AllMountPoints(BARE) == [];
  }

  lemma OneMountPoint()
    ensures AllMountPoints(ONE) == [MountPoint("m", false, false)]
  {
    var m := MountPoint("m", false, false);
    assert Select([m][..0], true) == [] && Select([m][..0], false) == [];
    assert Select([m], true) == [] && Select([m], false) == [m];
  }

  lemma OpensInner()
    ensures Initialize(ENV, OUTER_IS_OPEN, 1, ONE) == Result(BOTH_ARE_OPEN, true)
  {
    var m := MountPoint("m", false, false);
    OneMountPoint();
    var s := OUTER_IS_OPEN;
    var p := PrepareRoot(ENV, s, INNER);
    assert p == Result(Sys([], {"/o", "/o/i"}, s.chroots, [0], 2), true);
    var f := Fill(ENV, p.s, 1, ONE);
    assert f == p;
    var w := WithMountPoints(p.s, 1, AllMountPoints(ONE));
    MountStep(ENV, w, 1, 0);
    MountStep(ENV, Mounted(ENV, w, 1, 0), 1, 1);
    assert FullPath(ENV, w.chroots[1], m) == "/o/i/m";
    assert Mounted(ENV, w, 1, 0).chroots[1] == INNER_OPEN by {
      assert [m][0 := m.(isMounted := true)] == [MountPoint("m", false, true)];
    }
    assert Mounted(ENV, w, 1, 0).chroots == BOTH_ARE_OPEN.chroots;
    InitializeIs(ENV, s, 1, ONE);
    hide Initialize;
  }

  lemma MayOpenOuter()
    ensures MayInitialize(ENV, START, 0, BARE)
  {
    assert AllMountPoints(BARE) == [];
  }

  lemma MayOpenInner()
    ensures MayInitialize(ENV, OUTER_IS_OPEN, 1, ONE)
  {
    OneMountPoint();
    hide AllMountPoints;
    assert !LiesInside(ENV, OUTER, "/o/i") by {
      assert |PathsOf(ENV, OUTER)| == 0;
      assert |"/o/i"| == 4 && |"/o"| == 2;
    }
  }

  // The attempt at the inner chroot fails, and still the outer root directory is
  // removed, with the mount in it.
  lemma CleansUp()
    ensures var end := CleanupFrom(ENV, BOTH_ARE_OPEN, 2);
      "/o" !in end.dirs && end.mounts == [Mount("/o/i/m", 1)]
    ensures !IsSafeAt(ENV, BOTH_ARE_OPEN, 0)
  {
    var s := BOTH_ARE_OPEN;
    var m := MountPoint("m", false, true);
    assert FullPath(ENV, INNER_OPEN, m) == "/o/i/m";
    assert IsMounted(s.mounts, "/o/i/m") by {
      assert s.mounts[0].path == "/o/i/m";
    }
    var failed := UnmountAndRemove(ENV, s, 1);
    assert failed == Result(s.(now := 7), false);
    assert After(ENV, s, 1) == failed.s by {
      assert After(ENV, s, 2) == s;
    }
    assert Inside(ENV, "/o", s.mounts[0].path);
    var removed := UnmountAndRemove(ENV, failed.s, 0);
    assert removed.s.mounts == s.mounts && "/o" !in removed.s.dirs;
    assert CleanupFrom(ENV, failed.s, 1) == CleanupFrom(ENV, removed.s, 0);
  }

  const BOTH_OPENED := [Initializes(0, BARE), Initializes(1, ONE)]

  lemma Opened()
    ensures forall k :: 0 <= k < |BOTH_OPENED| ==> BOTH_OPENED[k].id in START.chroots
    ensures Run(ENV, START, BOTH_OPENED) == BOTH_ARE_OPEN && IsOrderly(ENV, START, BOTH_OPENED)
  {
    OpensOuter();
    OpensInner();
    MayOpenOuter();
    MayOpenInner();
    hide Initialize, MayInitialize;
    var first := [Initializes(0, BARE)];
    RunNone(ENV, START);
    RunLast(ENV, START, first);
    RunLast(ENV, START, BOTH_OPENED);
    assert first[..0] == [] && BOTH_OPENED[..1] == first && BOTH_OPENED[..0] == [];
  }

  // So a root directory can be removed above a mount: two chroots, one inside of
  // the other, in a run that is orderly.
  lemma RemovedAboveMount()
    ensures IsGood(ENV, START) && START.active == []
    ensures forall k :: 0 <= k < |BOTH_OPENED| ==> BOTH_OPENED[k].id in START.chroots
    ensures IsOrderly(ENV, START, BOTH_OPENED)
    ensures var s := Run(ENV, START, BOTH_OPENED);
      && s.active == [0, 1] && "/o" in s.dirs && ActiveAreKnown(s) && !IsSafeAt(ENV, s, 0)
      && var end := CleanupFrom(ENV, s, 2);
      "/o" !in end.dirs && end.mounts == [Mount("/o/i/m", 1)]
  {
    StartIsGood(ENV, START);
    Opened();
    CleansUp();
    hide Initialize, MayInitialize, CleanupFrom, IsGood, IsSafeAt, Run, IsOrderly;
  }
}
