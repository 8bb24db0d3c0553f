// Chroots that are open at the same time, some inside of others: what every
// initialization and every close keeps.
module ChrootStack {
  import opened Chroots
  import opened ChrootLaws
  import opened Sequences

  // -------------------------------------------------------- the invariant

  // The root directory of the chroot, or one of its mounts, is inside.
  predicate LiesInside(env: Env, d: Chroot, root: string) {
    Inside(env, root, d.rootDir) || exists j :: 0 <= j < |PathsOf(env, d)| && Inside(env, root, PathsOf(env, d)[j])
  }

  // Removing the first chroot takes nothing away from the second one.
  predicate ClearOf(env: Env, c: Chroot, d: Chroot) {
    c.isExistingDir || !LiesInside(env, d, c.rootDir)
  }

  // A chroot that is open, or that was not unmounted when it should have been.
  predicate IsLive(s: Sys, id: int) {
    id in s.active || Own(s.mounts, id) != []
  }

  predicate OwnersAreKnown(s: Sys) {
    forall k :: 0 <= k < |s.mounts| ==> s.mounts[k].owner in s.chroots
  }

  // Of each chroot, a front part of its mount points is mounted; nothing else is
  // mounted on the paths of a live one.
  predicate IsTidy(env: Env, s: Sys, id: int)
    requires id in s.chroots
  {
    && IsClean(env, s, id, |Own(s.mounts, id)|)
    && (IsLive(s, id) ==> Exclusive(s.mounts, PathsOf(env, s.chroots[id]), id))
  }

  predicate MountsAreClean(env: Env, s: Sys) {
    OwnersAreKnown(s) && forall id :: id in s.chroots ==> IsTidy(env, s, id)
  }

  predicate HasRoot(s: Sys, id: int) {
    id in s.chroots && (!s.chroots[id].isExistingDir ==> s.chroots[id].rootDir in s.dirs)
  }

  // The active chroots have their root directories, none is active twice, and
  // none contains one that was opened before it.
  predicate ActiveIsGood(env: Env, s: Sys) {
    && (forall i :: 0 <= i < |s.active| ==> HasRoot(s, s.active[i]))
    && forall i, j :: 0 <= i < j < |s.active| ==>
         s.active[i] != s.active[j] && ClearOf(env, s.chroots[s.active[j]], s.chroots[s.active[i]])
  }

  predicate IsGood(env: Env, s: Sys) {
    MountsAreClean(env, s) && ActiveIsGood(env, s)
  }

  // Before anything is opened.
  lemma StartIsGood(env: Env, s: Sys)
    requires s.mounts == [] && s.active == [] && forall id :: id in s.chroots ==> s.chroots[id].mountPoints == []
    ensures IsGood(env, s)
  {
  }

  // ---------------------------------------------------- one chroot changes

  // The directories of the chroot are still there.
  predicate DirsStay(env: Env, s: Sys, s': Sys, d: Chroot) {
    && (d.rootDir in s.dirs ==> d.rootDir in s'.dirs)
    && forall j :: 0 <= j < |PathsOf(env, d)| && PathsOf(env, d)[j] in s.dirs ==> PathsOf(env, d)[j] in s'.dirs
  }

  predicate AreApart(own: seq<string>, paths: seq<string>) {
    forall j :: 0 <= j < |own| ==> own[j] !in paths
  }

  // The same chroot, with other mount points or flags.
  predicate SameRoot(c: Chroot, d: Chroot) {
    c.rootDir == d.rootDir && c.isExistingDir == d.isExistingDir
  }

  // What an operation on one chroot leaves of the others: the chroots, and what
  // they have mounted.
  ghost predicate SparesOthers(s: Sys, s': Sys, id: int, paths: seq<string>) {
    && s'.chroots.Keys == s.chroots.Keys
    && (forall d :: d in s.chroots && d != id ==> s'.chroots[d] == s.chroots[d])
    && (id in s.chroots ==> SameRoot(s.chroots[id], s'.chroots[id]))
    && Shifts(s.mounts, s'.mounts, id, paths)
  }

  lemma SparesTwice(s: Sys, s': Sys, s'': Sys, id: int, paths: seq<string>)
    requires SparesOthers(s, s', id, paths) && SparesOthers(s', s'', id, paths)
    ensures SparesOthers(s, s'', id, paths)
  {
    hide Shifts;
    ShiftsTwice(s.mounts, s'.mounts, s''.mounts, id, paths);
  }

  lemma SparesMore(s: Sys, s': Sys, id: int, paths: seq<string>)
    requires SparesOthers(s, s', id, [])
    ensures SparesOthers(s, s', id, paths)
  {
    hide Own;
  }

  lemma SparesSame(s: Sys, s': Sys, id: int, paths: seq<string>)
    requires s'.mounts == s.mounts && s'.chroots == s.chroots
    ensures SparesOthers(s, s', id, paths)
  {
    ShiftsNot(s.mounts, id, paths);
    hide Shifts;
  }

  lemma OthersTidy(env: Env, s: Sys, s': Sys, id: int, paths: seq<string>, d: int)
    requires SparesOthers(s, s', id, paths) && d in s.chroots && d != id && IsTidy(env, s, d)
    requires d in s'.active ==> d in s.active
    requires IsLive(s, d) ==> AreApart(PathsOf(env, s.chroots[d]), paths)
    requires Own(s.mounts, d) != [] ==> DirsStay(env, s, s', s.chroots[d])
    ensures IsTidy(env, s', d)
  {
    var own := PathsOf(env, s.chroots[d]);
    if IsLive(s, d) {
      ExclusiveStill(s.mounts, s'.mounts, id, paths, own, d);
    }
    hide Own, PathsOf, Exclusive, NoDuplicates;
  }

  // Where one chroot is tidy after the change, all are.
  lemma CleanAgain(env: Env, s: Sys, s': Sys, id: int, paths: seq<string>)
    requires MountsAreClean(env, s) && id in s.chroots && SparesOthers(s, s', id, paths) && IsTidy(env, s', id)
    requires forall d :: d in s.chroots && d != id && d in s'.active ==> d in s.active
    requires forall d :: d in s.chroots && d != id && IsLive(s, d) ==> AreApart(PathsOf(env, s.chroots[d]), paths)
    requires forall d :: d in s.chroots && d != id && Own(s.mounts, d) != [] ==> DirsStay(env, s, s', s.chroots[d])
    ensures MountsAreClean(env, s')
  {
    hide IsTidy, Own, PathsOf, AreApart, DirsStay, IsLive;
    forall d | d in s'.chroots ensures IsTidy(env, s', d) {
      if d != id {
        OthersTidy(env, s, s', id, paths, d);
      }
    }
    forall k | 0 <= k < |s'.mounts| ensures s'.mounts[k].owner in s'.chroots {
      assert s'.mounts[k] in s'.mounts;
    }
  }

  // ------------------------------------------------------------ unmounting

  predicate NothingInside(env: Env, mounts: seq<Mount>, root: string) {
    forall k :: 0 <= k < |mounts| ==> !Inside(env, root, mounts[k].path)
  }

  // Where an attempt gets to removing the root directory, nothing is mounted
  // inside of it.
  predicate RemovalIsSafe(env: Env, s: Sys, id: int)
    requires id in s.chroots
  {
    var c := s.chroots[id];
    var u := UnmountFrom(env, s, id, |c.mountPoints|);
    u.ok && !c.isExistingDir ==> NothingInside(env, u.s.mounts, c.rootDir)
  }

  // The chroot contains none that has mounts.
  predicate ContainsNoMounts(env: Env, s: Sys, id: int)
    requires id in s.chroots
  {
    forall d :: d in s.chroots && d != id && Own(s.mounts, d) != [] ==> ClearOf(env, s.chroots[id], s.chroots[d])
  }

  // What the chroot has mounted is on its paths.
  lemma OwnIsOnPaths(env: Env, s: Sys, id: int, path: string)
    requires id in s.chroots && IsTidy(env, s, id) && path in Own(s.mounts, id)
    ensures exists j :: 0 <= j < |PathsOf(env, s.chroots[id])| && PathsOf(env, s.chroots[id])[j] == path
  {
    MountedWithin(env, s, id, |Own(s.mounts, id)|);
    hide Own, PathsOf, NoDuplicates, Exclusive;
    var j :| 0 <= j < |Own(s.mounts, id)| && Own(s.mounts, id)[j] == path;
    assert PathsOf(env, s.chroots[id])[..|Own(s.mounts, id)|][j] == path;
  }

  lemma NotInside(env: Env, s: Sys, c: Chroot, id: int, path: string)
    requires id in s.chroots && IsTidy(env, s, id) && path in Own(s.mounts, id)
    requires ClearOf(env, c, s.chroots[id]) && !c.isExistingDir
    ensures !Inside(env, c.rootDir, path)
  {
    hide IsTidy, PathsOf, Inside, Own;
    OwnIsOnPaths(env, s, id, path);
  }

  lemma RemovalLaw(env: Env, s: Sys, id: int)
    requires MountsAreClean(env, s) && id in s.chroots && Exclusive(s.mounts, PathsOf(env, s.chroots[id]), id)
    requires ContainsNoMounts(env, s, id)
    ensures RemovalIsSafe(env, s, id)
  {
    hide *;
    SafeIs(env, s, id);
    CleanOf(env, s);
    TidyIs(env, s, id);
    var c := s.chroots[id];
    var k := |Own(s.mounts, id)|;
    CleanIs(env, s, id, k);
    MountedWithin(env, s, id, k);
    var left := UnmountFromLaw(env, s, id, |c.mountPoints|, k);
    var u := UnmountFrom(env, s, id, |c.mountPoints|);
    if u.ok && !c.isExistingDir {
      MountedWithin(env, u.s, id, left);
      forall m | m in u.s.mounts ensures !Inside(env, c.rootDir, m.path) {
        OwnHas(u.s.mounts, m.path, m.owner);
        MountIs(m);
        ShiftedOwn(s.mounts, u.s.mounts, id, m);
        OwnersIn(s, m);
        SparedByContainment(env, s, id, m.owner);
        NotInside(env, s, c, m.owner, m.path);
      }
      NothingInsideIs(env, u.s.mounts, c.rootDir);
    }
  }

  lemma MountIs(m: Mount)
    ensures Mount(m.path, m.owner) == m
  {
  }

  lemma NothingInsideIs(env: Env, mounts: seq<Mount>, root: string)
    ensures NothingInside(env, mounts, root) <==> forall m :: m in mounts ==> !Inside(env, root, m.path)
  {
    hide Inside;
  }

  lemma SafeIs(env: Env, s: Sys, id: int)
    requires id in s.chroots
    ensures var c := s.chroots[id];
      var u := UnmountFrom(env, s, id, |c.mountPoints|);
      RemovalIsSafe(env, s, id) <==> (u.ok && !c.isExistingDir ==> NothingInside(env, u.s.mounts, c.rootDir))
  {
    hide UnmountFrom, NothingInside;
  }

  lemma CleanOf(env: Env, s: Sys)
    ensures MountsAreClean(env, s) <==> OwnersAreKnown(s) && forall id :: id in s.chroots ==> IsTidy(env, s, id)
  {
    hide OwnersAreKnown, IsTidy;
  }

  lemma TidyIs(env: Env, s: Sys, id: int)
    requires id in s.chroots
    ensures IsTidy(env, s, id) <==>
      (&& IsClean(env, s, id, |Own(s.mounts, id)|)
       && (IsLive(s, id) ==> Exclusive(s.mounts, PathsOf(env, s.chroots[id]), id)))
  {
    hide IsClean, Own, IsLive, Exclusive, PathsOf;
  }

  lemma ShiftedOwn(mounts: seq<Mount>, mounts': seq<Mount>, id: int, m: Mount)
    requires Shifts(mounts, mounts', id, []) && m in mounts'
    ensures m in mounts && (m.owner != id ==> Own(mounts', m.owner) == Own(mounts, m.owner))
  {
    hide Own;
  }

  lemma OwnersIn(s: Sys, m: Mount)
    requires OwnersAreKnown(s) && m in s.mounts
    ensures m.owner in s.chroots
  {
    var k :| 0 <= k < |s.mounts| && s.mounts[k] == m;
  }

  lemma SparedByContainment(env: Env, s: Sys, id: int, d: int)
    requires id in s.chroots && ContainsNoMounts(env, s, id) && d in s.chroots && d != id && Own(s.mounts, d) != []
    ensures ClearOf(env, s.chroots[id], s.chroots[d])
  {
    hide Own, ClearOf;
  }

  lemma UnmountDirsStay(env: Env, s: Sys, id: int, d: Chroot)
    requires id in s.chroots && ClearOf(env, s.chroots[id], d)
    ensures DirsStay(env, s, UnmountAndRemove(env, s, id).s, d)
  {
    hide UnmountAndRemove, UnmountFrom, PathsOf;
    UnmountAndRemoveIs(env, s, id);
    hide Inside;
  }

  lemma UnmountTidy(env: Env, s: Sys, id: int)
    requires id in s.chroots && IsTidy(env, s, id) && Exclusive(s.mounts, PathsOf(env, s.chroots[id]), id)
    ensures UnmountAndRemove(env, s, id).s.chroots == s.chroots
    ensures UnmountAndRemove(env, s, id).s.active == s.active
    ensures IsTidy(env, UnmountAndRemove(env, s, id).s, id)
    ensures Exclusive(UnmountAndRemove(env, s, id).s.mounts, PathsOf(env, s.chroots[id]), id)
    ensures SparesOthers(s, UnmountAndRemove(env, s, id).s, id, [])
    ensures Own(UnmountAndRemove(env, s, id).s.mounts, id) <= Own(s.mounts, id)
    ensures UnmountAndRemove(env, s, id).ok ==> Own(UnmountAndRemove(env, s, id).s.mounts, id) == []
    ensures UnmountFrom(env, s, id, |s.chroots[id].mountPoints|).ok ==> Own(UnmountAndRemove(env, s, id).s.mounts, id) == []
    ensures !UnmountAndRemove(env, s, id).ok && HasRoot(s, id) ==> HasRoot(UnmountAndRemove(env, s, id).s, id)
  {
    hide *;
    TidyIs(env, s, id);
    var left := UnmountLaw(env, s, id, |Own(s.mounts, id)|);
    var s' := UnmountAndRemove(env, s, id).s;
    CleanIs(env, s', id, left);
    MountedWithin(env, s', id, left);
    TidyIs(env, s', id);
    SparesIs(s, s', id, []);
    RootIs(s, id);
    RootIs(s', id);
  }

  lemma SparesIs(s: Sys, s': Sys, id: int, paths: seq<string>)
    requires s'.chroots == s.chroots && Shifts(s.mounts, s'.mounts, id, paths)
    ensures SparesOthers(s, s', id, paths)
  {
    hide Shifts;
  }

  lemma RootIs(s: Sys, id: int)
    ensures HasRoot(s, id) <==> id in s.chroots && (!s.chroots[id].isExistingDir ==> s.chroots[id].rootDir in s.dirs)
  {
  }

  // An attempt to unmount and remove a chroot that contains no mounts of others
  // keeps all mounts clean.
  lemma UnmountKeepsClean(env: Env, s: Sys, id: int)
    requires MountsAreClean(env, s) && id in s.chroots && Exclusive(s.mounts, PathsOf(env, s.chroots[id]), id)
    requires ContainsNoMounts(env, s, id)
    ensures MountsAreClean(env, UnmountAndRemove(env, s, id).s)
    ensures RemovalIsSafe(env, s, id)
  {
    hide *;
    CleanOf(env, s);
    RemovalLaw(env, s, id);
    UnmountTidy(env, s, id);
    var s' := UnmountAndRemove(env, s, id).s;
    NoPaths();
    forall d | d in s.chroots && d != id && Own(s.mounts, d) != [] ensures DirsStay(env, s, s', s.chroots[d]) {
      SparedByContainment(env, s, id, d);
      UnmountDirsStay(env, s, id, s.chroots[d]);
    }
    CleanAgain(env, s, s', id, []);
  }

  lemma NoPaths()
    ensures forall own :: AreApart(own, [])
  {
  }

  // ------------------------------------------------------------ Initialize

  // No live chroot is inside.
  predicate ContainsNoneLive(env: Env, s: Sys, id: int)
    requires id in s.chroots
  {
    forall d :: d in s.chroots && d != id && IsLive(s, d) ==> ClearOf(env, s.chroots[id], s.chroots[d])
  }

  // The paths are no paths of other live chroots.
  predicate PathsAreFree(env: Env, s: Sys, id: int, paths: seq<string>) {
    && Exclusive(s.mounts, paths, id)
    && forall d :: d in s.chroots && d != id && IsLive(s, d) ==> AreApart(PathsOf(env, s.chroots[d]), paths)
  }

  // Where there is a root directory to work in: no path is to be mounted twice,
  // an existing directory is no longer in use by this chroot, and no mount of
  // other live chroots is in the way or inside of a new directory.
  predicate MayInitialize(env: Env, s: Sys, id: int, setup: Setup)
    requires id in s.chroots
  {
    var c := s.chroots[id];
    var paths := Paths(env, c.rootDir, AllMountPoints(setup));
    PrepareRoot(env, s, c).ok ==>
      && NoDuplicates(paths)
      && (c.isExistingDir ==> !IsLive(s, id))
      && Exclusive(s.mounts, PathsOf(env, c), id)
      && PathsAreFree(env, s, id, paths)
      && ContainsNoneLive(env, s, id)
  }

  lemma MayInitializeIs(env: Env, s: Sys, id: int, setup: Setup)
    requires id in s.chroots && MayInitialize(env, s, id, setup) && PrepareRoot(env, s, s.chroots[id]).ok
    ensures NoDuplicates(Paths(env, s.chroots[id].rootDir, AllMountPoints(setup)))
    ensures s.chroots[id].isExistingDir ==> !IsLive(s, id)
    ensures Exclusive(s.mounts, PathsOf(env, s.chroots[id]), id)
    ensures PathsAreFree(env, s, id, Paths(env, s.chroots[id].rootDir, AllMountPoints(setup)))
    ensures ContainsNoneLive(env, s, id)
  {
    hide NoDuplicates, IsLive, Exclusive, PathsAreFree, ContainsNoneLive, AllMountPoints, PathsOf, PrepareRoot, Paths;
  }

  // The state in which a failed initialization is cleaned up.
  function BeforeCleanup(env: Env, s: Sys, id: int, setup: Setup): Sys
    requires id in s.chroots
  {
    var prepared := PrepareRoot(env, s, s.chroots[id]);
    var filled := Fill(env, prepared.s, id, setup);
    FillKeeps(env, prepared.s, id, setup);
    if !prepared.ok then prepared.s
    else if !filled.ok then filled.s
    else MountFrom(env, WithMountPoints(filled.s, id, AllMountPoints(setup)), id, 0).s
  }

  lemma PrepareKeeps(env: Env, s: Sys, c: Chroot)
    ensures var r := PrepareRoot(env, s, c);
      && r.s.mounts == s.mounts && s.dirs <= r.s.dirs && r.s.chroots == s.chroots && r.s.active == s.active
      && (r.ok ==> c.rootDir in r.s.dirs && (!c.isExistingDir ==> c.rootDir !in s.dirs))
  {
  }

  lemma InitializeIs(env: Env, s: Sys, id: int, setup: Setup)
    requires id in s.chroots
    ensures id in BeforeCleanup(env, s, id, setup).chroots
    ensures var p := PrepareRoot(env, s, s.chroots[id]);
      && p.s.chroots == s.chroots
      && var f := Fill(env, p.s, id, setup);
      && f.s.chroots == s.chroots
      && var w := WithMountPoints(f.s, id, AllMountPoints(setup));
      && id in w.chroots
      && var m := MountFrom(env, w, id, 0);
      && id in m.s.chroots
      && BeforeCleanup(env, s, id, setup) == (if !p.ok then p.s else if !f.ok then f.s else m.s)
      && Initialize(env, s, id, setup) ==
           if !p.ok then p
           else if !f.ok then Failed(env, f.s, id)
           else if !m.ok then Failed(env, m.s, id)
           else Result(m.s.(active := m.s.active + [id]), true)
  {
    hide PrepareRoot, Fill, MountFrom, AllMountPoints, Failed;
    PrepareKeeps(env, s, s.chroots[id]);
    FillKeeps(env, PrepareRoot(env, s, s.chroots[id]).s, id, setup);
    var f := Fill(env, PrepareRoot(env, s, s.chroots[id]).s, id, setup);
    MountKeeps(env, WithMountPoints(f.s, id, AllMountPoints(setup)), id, 0);
  }

  // A chroot that gets a root directory to work in has no mounts, and is not
  // active.
  lemma StartsEmpty(env: Env, s: Sys, id: int, setup: Setup)
    requires id in s.chroots && IsTidy(env, s, id) && MayInitialize(env, s, id, setup)
    requires PrepareRoot(env, s, s.chroots[id]).ok
    requires forall i :: 0 <= i < |s.active| ==> HasRoot(s, s.active[i])
    ensures Own(s.mounts, id) == [] && id !in s.active
  {
    PrepareKeeps(env, s, s.chroots[id]);
    MayInitializeIs(env, s, id, setup);
    hide PrepareRoot, MayInitialize, Own, HasMounted, Exclusive;
    assert id in s.active ==> HasRoot(s, id);
  }

  lemma GrowKeepsClean(env: Env, s: Sys, s': Sys)
    requires MountsAreClean(env, s) && s'.mounts == s.mounts && s'.chroots == s.chroots && s'.active == s.active
    requires s.dirs <= s'.dirs
    ensures MountsAreClean(env, s')
  {
    hide PathsOf, NoDuplicates, Exclusive, Own;
    forall id | id in s'.chroots ensures IsTidy(env, s', id) {
      assert IsTidy(env, s, id);
    }
  }

  lemma NewMountPoints(env: Env, f: Sys, id: int, setup: Setup)
    requires id in f.chroots && Own(f.mounts, id) == []
    requires NoDuplicates(Paths(env, f.chroots[id].rootDir, AllMountPoints(setup)))
    ensures var w := WithMountPoints(f, id, AllMountPoints(setup));
      && w.mounts == f.mounts && w.dirs == f.dirs && w.active == f.active && w.chroots.Keys == f.chroots.Keys
      && (forall d :: d in f.chroots && d != id ==> w.chroots[d] == f.chroots[d])
      && SameRoot(f.chroots[id], w.chroots[id])
      && PathsOf(env, w.chroots[id]) == Paths(env, f.chroots[id].rootDir, AllMountPoints(setup))
      && HasMounted(env, w, id, 0)
  {
    hide Own, NoDuplicates, AllMountPoints, Paths;
  }

  // The mounts, once the directory is filled.
  lemma MountsSetUp(env: Env, f: Sys, id: int, setup: Setup)
    requires id in f.chroots && Own(f.mounts, id) == [] && f.chroots[id].rootDir in f.dirs
    requires NoDuplicates(Paths(env, f.chroots[id].rootDir, AllMountPoints(setup)))
    requires Exclusive(f.mounts, Paths(env, f.chroots[id].rootDir, AllMountPoints(setup)), id)
    ensures id in WithMountPoints(f, id, AllMountPoints(setup)).chroots
    ensures var paths := Paths(env, f.chroots[id].rootDir, AllMountPoints(setup));
      var r := MountFrom(env, WithMountPoints(f, id, AllMountPoints(setup)), id, 0);
      && SparesOthers(f, r.s, id, paths) && r.s.active == f.active && f.dirs <= r.s.dirs
      && id in r.s.chroots && PathsOf(env, r.s.chroots[id]) == paths
      && IsTidy(env, r.s, id) && Exclusive(r.s.mounts, paths, id)
      && (r.ok ==> Own(r.s.mounts, id) == paths)
  {
    hide *;
    NewMountPoints(env, f, id, setup);
    var w := WithMountPoints(f, id, AllMountPoints(setup));
    var k := MountLaw(env, w, id, 0);
    MountKeeps(env, w, id, 0);
    var r := MountFrom(env, w, id, 0);
    MountedWithin(env, r.s, id, k);
    SetUpSpares(f, w, r.s, id, Paths(env, f.chroots[id].rootDir, AllMountPoints(setup)));
    CleanIs(env, r.s, id, k);
    TidyIs(env, r.s, id);
    SliceAll(PathsOf(env, r.s.chroots[id]));
  }

  lemma SliceAll(paths: seq<string>)
    ensures paths[..|paths|] == paths
  {
  }

  lemma SetUpSpares(f: Sys, w: Sys, m: Sys, id: int, paths: seq<string>)
    requires id in f.chroots && w.chroots.Keys == f.chroots.Keys && m.chroots.Keys == w.chroots.Keys
    requires forall d :: d in f.chroots && d != id ==> w.chroots[d] == f.chroots[d]
    requires forall d :: d in w.chroots && d != id ==> m.chroots[d] == w.chroots[d]
    requires SameRoot(f.chroots[id], w.chroots[id])
    requires m.chroots[id].rootDir == w.chroots[id].rootDir && m.chroots[id].isExistingDir == w.chroots[id].isExistingDir
    requires w.mounts == f.mounts && Shifts(w.mounts, m.mounts, id, paths)
    ensures SparesOthers(f, m, id, paths)
    ensures m.chroots[id].rootDir == f.chroots[id].rootDir && m.chroots[id].isExistingDir == f.chroots[id].isExistingDir
  {
    hide Shifts;
  }

  lemma GrowDirsStay(env: Env, s: Sys, s': Sys, d: Chroot)
    requires s.dirs <= s'.dirs
    ensures DirsStay(env, s, s', d)
  {
    hide PathsOf;
  }

  // What there is before a failed initialization is cleaned up, or before a
  // successful one is added to the active ones.
  lemma SetUpClean(env: Env, s: Sys, id: int, setup: Setup)
    requires IsGood(env, s) && id in s.chroots && MayInitialize(env, s, id, setup)
    requires PrepareRoot(env, s, s.chroots[id]).ok
    ensures var b, r := BeforeCleanup(env, s, id, setup), Initialize(env, s, id, setup);
      && id in b.chroots && SparesOthers(s, b, id, Paths(env, s.chroots[id].rootDir, AllMountPoints(setup)))
      && MountsAreClean(env, b) && b.active == s.active && s.dirs <= b.dirs && b.chroots[id].rootDir in b.dirs
      && Exclusive(b.mounts, PathsOf(env, b.chroots[id]), id)
      && id !in s.active
      && r == (if r.ok then Result(b.(active := b.active + [id]), true) else Failed(env, b, id))
      && (r.ok ==> Own(b.mounts, id) == Paths(env, s.chroots[id].rootDir, AllMountPoints(setup)))
  {
    hide *;
    InitializeIs(env, s, id, setup);
    GoodIs(env, s);
    CleanOf(env, s);
    StartsEmpty(env, s, id, setup);
    MayInitializeIs(env, s, id, setup);
    PrepareKeeps(env, s, s.chroots[id]);
    var paths := Paths(env, s.chroots[id].rootDir, AllMountPoints(setup));
    PathsAreFreeIs(env, s, id, paths);
    var p := PrepareRoot(env, s, s.chroots[id]).s;
    FillKeeps(env, p, id, setup);
    var f := Fill(env, p, id, setup);
    if !f.ok {
      GrowKeepsClean(env, s, f.s);
      SparesSame(s, f.s, id, paths);
    } else {
      MountsSetUp(env, f.s, id, setup);
      var m := MountFrom(env, WithMountPoints(f.s, id, AllMountPoints(setup)), id, 0);
      SparesSame(s, f.s, id, paths);
      SparesTwice(s, f.s, m.s, id, paths);
      forall d | d in s.chroots && d != id && Own(s.mounts, d) != [] ensures DirsStay(env, s, m.s, s.chroots[d]) {
        GrowDirsStay(env, s, m.s, s.chroots[d]);
      }
      CleanAgain(env, s, m.s, id, paths);
      SparesRoot(s, m.s, id, paths);
    }
    FailedIs(env, BeforeCleanup(env, s, id, setup), id);
  }

  lemma SparesRoot(s: Sys, s': Sys, id: int, paths: seq<string>)
    requires SparesOthers(s, s', id, paths) && id in s.chroots
    ensures s'.chroots[id].rootDir == s.chroots[id].rootDir && s'.chroots[id].isExistingDir == s.chroots[id].isExistingDir
  {
    hide Shifts;
  }

  lemma GoodIs(env: Env, s: Sys)
    ensures IsGood(env, s) <==> MountsAreClean(env, s) && ActiveIsGood(env, s)
    ensures ActiveIsGood(env, s) ==> forall i :: 0 <= i < |s.active| ==> HasRoot(s, s.active[i])
  {
    hide MountsAreClean, ClearOf, HasRoot;
  }

  lemma PathsAreFreeIs(env: Env, s: Sys, id: int, paths: seq<string>)
    requires PathsAreFree(env, s, id, paths)
    ensures Exclusive(s.mounts, paths, id)
    ensures forall d :: d in s.chroots && d != id && IsLive(s, d) ==> AreApart(PathsOf(env, s.chroots[d]), paths)
  {
    hide Exclusive, PathsOf, AreApart, IsLive;
  }

  lemma FailedIs(env: Env, s: Sys, id: int)
    requires id in s.chroots
    ensures Failed(env, s, id) == Result(UnmountAndRemove(env, s, id).s, false)
  {
    hide UnmountAndRemove;
  }

  // After a change of one chroot the others can be removed above as before.
  lemma StillContainsNone(env: Env, s: Sys, s': Sys, id: int, paths: seq<string>)
    requires id in s.chroots && ContainsNoneLive(env, s, id) && SparesOthers(s, s', id, paths) && s'.active == s.active
    ensures ContainsNoneLive(env, s', id)
  {
    hide Own, PathsOf, Inside;
    forall d | d in s'.chroots && d != id && IsLive(s', d) ensures ClearOf(env, s'.chroots[id], s'.chroots[d]) {
      assert IsLive(s, d);
      SparedClear(env, s.chroots[id], s'.chroots[id], s.chroots[d]);
    }
  }

  lemma SparedClear(env: Env, c: Chroot, c': Chroot, d: Chroot)
    requires SameRoot(c, c') && ClearOf(env, c, d)
    ensures ClearOf(env, c', d)
  {
    hide LiesInside;
  }

  lemma NoneLiveHasMounts(env: Env, s: Sys, id: int)
    requires id in s.chroots && ContainsNoneLive(env, s, id)
    ensures ContainsNoMounts(env, s, id)
  {
    hide Own, ClearOf;
  }

  // The other active chroots after an attempt to unmount and remove one.
  lemma OthersHaveRoots(env: Env, s: Sys, id: int, d: int)
    requires id in s.chroots && ContainsNoneLive(env, s, id) && d in s.active && d != id && HasRoot(s, d)
    ensures HasRoot(UnmountAndRemove(env, s, id).s, d)
  {
    hide UnmountAndRemove, ClearOf, Own, PathsOf;
    UnmountAndRemoveIs(env, s, id);
    assert IsLive(s, d);
    UnmountDirsStay(env, s, id, s.chroots[d]);
  }

  lemma ActiveStays(env: Env, s: Sys, s': Sys, id: int)
    requires ActiveIsGood(env, s) && s'.active == s.active && s'.chroots.Keys == s.chroots.Keys
    requires forall d :: d in s.chroots && d in s.active ==> s'.chroots[d] == s.chroots[d] && HasRoot(s', d)
    ensures ActiveIsGood(env, s')
  {
    hide ClearOf;
    assert forall i :: 0 <= i < |s.active| ==> HasRoot(s, s.active[i]);
  }

  lemma ActiveGrows(env: Env, s: Sys, s': Sys, id: int)
    requires ActiveIsGood(env, s) && id in s.chroots && id !in s.active && s'.active == s.active + [id]
    requires s'.chroots.Keys == s.chroots.Keys && HasRoot(s', id) && s.dirs <= s'.dirs
    requires forall d :: d in s.chroots && d != id ==> s'.chroots[d] == s.chroots[d]
    requires forall d :: d in s.chroots && d in s.active ==> ClearOf(env, s'.chroots[id], s.chroots[d])
    ensures ActiveIsGood(env, s')
  {
    hide ClearOf;
    assert forall i :: 0 <= i < |s.active| ==> HasRoot(s, s.active[i]);
  }

  // A successful initialization mounts everything, in order, and adds the chroot
  // to the active ones; a failed one removes what it made only when nothing is
  // mounted inside. The others keep their mounts, and all stays in order.
  lemma InitializeKeeps(env: Env, s: Sys, id: int, setup: Setup)
    requires IsGood(env, s) && id in s.chroots && MayInitialize(env, s, id, setup)
    ensures IsGood(env, Initialize(env, s, id, setup).s)
    ensures SparesOthers(s, Initialize(env, s, id, setup).s, id, Paths(env, s.chroots[id].rootDir, AllMountPoints(setup)))
    ensures Initialize(env, s, id, setup).ok ==>
      Own(Initialize(env, s, id, setup).s.mounts, id) == Paths(env, s.chroots[id].rootDir, AllMountPoints(setup))
    ensures id in BeforeCleanup(env, s, id, setup).chroots
    ensures PrepareRoot(env, s, s.chroots[id]).ok ==> RemovalIsSafe(env, BeforeCleanup(env, s, id, setup), id)
  {
    hide *;
    GoodIs(env, s);
    InitializeIs(env, s, id, setup);
    PrepareKeeps(env, s, s.chroots[id]);
    var paths := Paths(env, s.chroots[id].rootDir, AllMountPoints(setup));
    var b, r := BeforeCleanup(env, s, id, setup), Initialize(env, s, id, setup);
    if !PrepareRoot(env, s, s.chroots[id]).ok {
      SparesSame(s, r.s, id, paths);
      GrowKeepsClean(env, s, r.s);
      RootsGrow(s, r.s);
      ActiveStays(env, s, r.s, id);
    } else {
      SetUpClean(env, s, id, setup);
      MayInitializeIs(env, s, id, setup);
      StillContainsNone(env, s, b, id, paths);
      NoneLiveHasMounts(env, b, id);
      UnmountKeepsClean(env, b, id);
      if r.ok {
        AddedIsGood(env, s, b, id, paths);
      } else {
        FailedIs(env, b, id);
        FailedIsGood(env, s, b, id, paths);
      }
    }
    GoodIs(env, r.s);
  }

  lemma RootsGrow(s: Sys, s': Sys)
    requires s'.chroots == s.chroots && s.dirs <= s'.dirs
    ensures forall d :: HasRoot(s, d) ==> HasRoot(s', d)
  {
  }

  lemma AddedIsGood(env: Env, s: Sys, b: Sys, id: int, paths: seq<string>)
    requires IsGood(env, s) && id in s.chroots && id !in s.active && SparesOthers(s, b, id, paths)
    requires MountsAreClean(env, b) && b.active == s.active && s.dirs <= b.dirs && b.chroots[id].rootDir in b.dirs
    requires Exclusive(b.mounts, PathsOf(env, b.chroots[id]), id) && ContainsNoneLive(env, s, id)
    ensures IsGood(env, b.(active := b.active + [id]))
    ensures SparesOthers(s, b.(active := b.active + [id]), id, paths)
  {
    hide NoDuplicates, Own, Exclusive, PathsOf, Shifts;
    var s' := b.(active := b.active + [id]);
    forall d | d in s'.chroots ensures IsTidy(env, s', d) {
      assert IsTidy(env, b, d);
    }
    forall d | d in s.chroots && d in s.active ensures ClearOf(env, s'.chroots[id], s.chroots[d]) {
      assert IsLive(s, d);
      SparedClear(env, s.chroots[id], s'.chroots[id], s.chroots[d]);
    }
    hide LiesInside;
    ActiveGrows(env, s, s', id);
  }

  lemma FailedIsGood(env: Env, s: Sys, b: Sys, id: int, paths: seq<string>)
    requires IsGood(env, s) && id in s.chroots && id !in s.active && SparesOthers(s, b, id, paths)
    requires MountsAreClean(env, b) && b.active == s.active && s.dirs <= b.dirs
    requires Exclusive(b.mounts, PathsOf(env, b.chroots[id]), id) && ContainsNoneLive(env, b, id)
    requires MountsAreClean(env, UnmountAndRemove(env, b, id).s)
    ensures IsGood(env, UnmountAndRemove(env, b, id).s)
    ensures SparesOthers(s, UnmountAndRemove(env, b, id).s, id, paths)
  {
    hide *;
    GoodIs(env, s);
    CleanOf(env, b);
    SparesMeans(s, b, id, paths);
    var s' := UnmountAndRemove(env, b, id).s;
    UnmountTidy(env, b, id);
    SparesMore(b, s', id, paths);
    SparesTwice(s, b, s', id, paths);
    SparesMeans(s, s', id, paths);
    forall d | d in s.chroots && d in s.active ensures s'.chroots[d] == s.chroots[d] && HasRoot(s', d) {
      RootIs(s, d);
      RootIs(b, d);
      OthersHaveRoots(env, b, id, d);
    }
    ActiveStays(env, s, s', id);
    GoodIs(env, s');
  }

  lemma SparesMeans(s: Sys, s': Sys, id: int, paths: seq<string>)
    requires SparesOthers(s, s', id, paths)
    ensures s'.chroots.Keys == s.chroots.Keys
    ensures forall d :: d in s.chroots && d != id ==> s'.chroots[d] == s.chroots[d]
  {
    hide Shifts, SameRoot;
  }

  // ----------------------------------------------------------------- Close

  // A chroot that is open contains no live one when it is closed.
  predicate MayClose(env: Env, s: Sys, id: int)
    requires id in s.chroots
  {
    id in s.active ==> ContainsNoneLive(env, s, id)
  }

  // Closing the chroot that was opened last is always allowed, unless a chroot
  // that is not open has left mounts.
  lemma LastMayClose(env: Env, s: Sys)
    requires IsGood(env, s) && s.active != []
    requires forall d :: d in s.chroots && Own(s.mounts, d) != [] ==> d in s.active
    ensures s.active[|s.active| - 1] in s.chroots && MayClose(env, s, s.active[|s.active| - 1])
  {
    hide MountsAreClean, ClearOf, Own;
    var last := |s.active| - 1;
    assert HasRoot(s, s.active[last]);
    forall d | d in s.chroots && d != s.active[last] && IsLive(s, d)
      ensures ClearOf(env, s.chroots[s.active[last]], s.chroots[d])
    {
      var i :| 0 <= i < |s.active| && s.active[i] == d;
    }
  }

  lemma IndexFound(ids: seq<int>, id: int)
    ensures id in ids <==> IndexOf(ids, id) < |ids|
  {
    assert ids[..|ids|] == ids;
  }

  lemma CloseIs(env: Env, s: Sys, id: int)
    requires id in s.chroots
    ensures UnmountAndRemove(env, s, id).s.chroots == s.chroots
    ensures id in s.active <==> IndexOf(s.active, id) < |s.active|
    ensures Close(env, s, id) ==
      if id !in s.active then Result(s, true)
      else if TryTwice(env, s, id).ok then Result(TryTwice(env, s, id).s.(active := Without(s.active, id)), true)
      else TryTwice(env, s, id)
  {
    hide UnmountAndRemove;
    IndexFound(s.active, id);
    UnmountKeeps(env, s, id);
  }

  function Without(ids: seq<int>, id: int): seq<int>
    requires IndexOf(ids, id) < |ids|
  {
    ids[..IndexOf(ids, id)] + ids[IndexOf(ids, id) + 1..]
  }

  // Both attempts together.
  lemma TriedIs(env: Env, s: Sys, id: int)
    requires id in s.chroots
    ensures UnmountAndRemove(env, s, id).s.chroots == s.chroots
    ensures TryTwice(env, s, id) ==
      if UnmountAndRemove(env, s, id).ok then UnmountAndRemove(env, s, id)
      else UnmountAndRemove(env, UnmountAndRemove(env, s, id).s, id)
  {
    hide UnmountAndRemove;
    UnmountKeeps(env, s, id);
  }

  // Both attempts at an open chroot get to removing its root directory only when
  // nothing is mounted inside.
  predicate CloseIsSafe(env: Env, s: Sys, id: int)
    requires id in s.chroots
  {
    UnmountKeeps(env, s, id);
    id in s.active ==> RemovalIsSafe(env, s, id) && RemovalIsSafe(env, UnmountAndRemove(env, s, id).s, id)
  }

  lemma CloseSafeIs(env: Env, s: Sys, id: int)
    requires id in s.chroots
    ensures UnmountAndRemove(env, s, id).s.chroots == s.chroots
    ensures CloseIsSafe(env, s, id) <==>
      (id in s.active ==> RemovalIsSafe(env, s, id) && RemovalIsSafe(env, UnmountAndRemove(env, s, id).s, id))
  {
    hide RemovalIsSafe, UnmountAndRemove;
    UnmountKeeps(env, s, id);
  }

  // One attempt at an open chroot.
  lemma AttemptLaw(env: Env, s: Sys, id: int)
    requires MountsAreClean(env, s) && id in s.chroots && id in s.active && ContainsNoneLive(env, s, id)
    ensures UnmountAndRemove(env, s, id).s.chroots == s.chroots && UnmountAndRemove(env, s, id).s.active == s.active
    ensures MountsAreClean(env, UnmountAndRemove(env, s, id).s) && RemovalIsSafe(env, s, id)
    ensures ContainsNoneLive(env, UnmountAndRemove(env, s, id).s, id)
    ensures SparesOthers(s, UnmountAndRemove(env, s, id).s, id, [])
    ensures Own(UnmountAndRemove(env, s, id).s.mounts, id) <= Own(s.mounts, id)
    ensures UnmountAndRemove(env, s, id).ok ==> Own(UnmountAndRemove(env, s, id).s.mounts, id) == []
    ensures !UnmountAndRemove(env, s, id).ok && HasRoot(s, id) ==> HasRoot(UnmountAndRemove(env, s, id).s, id)
    ensures forall d :: d in s.active && d != id && HasRoot(s, d) ==> HasRoot(UnmountAndRemove(env, s, id).s, d)
  {
    hide *;
    CleanOf(env, s);
    TidyIs(env, s, id);
    LiveIs(s, id);
    NoneLiveHasMounts(env, s, id);
    UnmountKeepsClean(env, s, id);
    UnmountTidy(env, s, id);
    StillContainsNone(env, s, UnmountAndRemove(env, s, id).s, id, []);
    forall d | d in s.active && d != id && HasRoot(s, d) ensures HasRoot(UnmountAndRemove(env, s, id).s, d) {
      OthersHaveRoots(env, s, id, d);
    }
  }

  lemma LiveIs(s: Sys, id: int)
    ensures IsLive(s, id) <==> id in s.active || Own(s.mounts, id) != []
  {
    hide Own;
  }

  lemma TriedLaw(env: Env, s: Sys, id: int)
    requires MountsAreClean(env, s) && id in s.chroots && id in s.active && ContainsNoneLive(env, s, id)
    ensures TryTwice(env, s, id).s.chroots == s.chroots && TryTwice(env, s, id).s.active == s.active
    ensures MountsAreClean(env, TryTwice(env, s, id).s) && CloseIsSafe(env, s, id)
    ensures SparesOthers(s, TryTwice(env, s, id).s, id, [])
    ensures Own(TryTwice(env, s, id).s.mounts, id) <= Own(s.mounts, id)
    ensures TryTwice(env, s, id).ok ==> Own(TryTwice(env, s, id).s.mounts, id) == []
    ensures !TryTwice(env, s, id).ok && HasRoot(s, id) ==> HasRoot(TryTwice(env, s, id).s, id)
    ensures forall d :: d in s.active && d != id && HasRoot(s, d) ==> HasRoot(TryTwice(env, s, id).s, d)
  {
    hide *;
    TriedIs(env, s, id);
    CloseSafeIs(env, s, id);
    AttemptLaw(env, s, id);
    var first := UnmountAndRemove(env, s, id);
    AttemptLaw(env, first.s, id);
    SparesTwice(s, first.s, UnmountAndRemove(env, first.s, id).s, id, []);
  }

  lemma WithoutKeeps(env: Env, s: Sys, s': Sys, id: int)
    requires ActiveIsGood(env, s) && s'.chroots == s.chroots && IndexOf(s.active, id) < |s.active|
    requires s'.active == Without(s.active, id)
    requires forall d :: d in s.active && d != id && HasRoot(s, d) ==> HasRoot(s', d)
    ensures ActiveIsGood(env, s') && id !in s'.active
  {
    hide ClearOf, HasRoot;
    var index := IndexOf(s.active, id);
    forall i | 0 <= i < |s'.active| ensures HasRoot(s', s'.active[i]) && s'.active[i] != id {
      var j := if i >= index then i + 1 else i;
      assert s'.active[i] == s.active[j] && HasRoot(s, s.active[j]);
    }
  }

  lemma ClosedTidy(env: Env, s: Sys, s': Sys, id: int)
    requires MountsAreClean(env, s) && s'.mounts == s.mounts && s'.chroots == s.chroots && s'.dirs == s.dirs
    requires forall d :: d in s'.active ==> d in s.active
    ensures MountsAreClean(env, s')
  {
    hide Own, PathsOf, Exclusive, NoDuplicates;
    forall d | d in s'.chroots ensures IsTidy(env, s', d) {
      assert IsTidy(env, s, d);
    }
  }

  lemma WithoutIsLess(ids: seq<int>, id: int)
    requires IndexOf(ids, id) < |ids|
    ensures forall d :: d in Without(ids, id) ==> d in ids
  {
  }

  // Closing undoes mounts of this chroot only, the last ones first. When it
  // succeeds, none is left and the chroot is no longer active. The root directory
  // is never removed above a mount, and all stays in order.
  lemma CloseLaw(env: Env, s: Sys, id: int)
    requires IsGood(env, s) && id in s.chroots && MayClose(env, s, id)
    ensures IsGood(env, Close(env, s, id).s) && CloseIsSafe(env, s, id)
    ensures SparesOthers(s, Close(env, s, id).s, id, [])
    ensures Own(Close(env, s, id).s.mounts, id) <= Own(s.mounts, id)
    ensures Close(env, s, id).ok ==> id !in Close(env, s, id).s.active
    ensures Close(env, s, id).ok && id in s.active ==> Own(Close(env, s, id).s.mounts, id) == []
    ensures !Close(env, s, id).ok ==> Close(env, s, id).s.active == s.active
    ensures id !in s.active ==> Close(env, s, id) == Result(s, true)
  {
    hide *;
    CloseIs(env, s, id);
    CloseSafeIs(env, s, id);
    GoodIs(env, s);
    SparesSame(s, s, id, []);
    if id in s.active {
      MayCloseIs(env, s, id);
      TriedLaw(env, s, id);
      var t, r := TryTwice(env, s, id), Close(env, s, id);
      ActiveHasRoot(env, s, id);
      WithoutIsLess(s.active, id);
      ClosedTidy(env, t.s, r.s, id);
      SparesSame(t.s, r.s, id, []);
      SparesTwice(s, t.s, r.s, id, []);
      RootsSame(t.s, r.s);
      if r.ok {
        WithoutKeeps(env, s, r.s, id);
      } else {
        ActiveStays(env, s, r.s, id);
      }
      GoodIs(env, r.s);
    }
  }

  lemma MayCloseIs(env: Env, s: Sys, id: int)
    requires id in s.chroots && MayClose(env, s, id) && id in s.active
    ensures ContainsNoneLive(env, s, id)
  {
  }

  lemma ActiveHasRoot(env: Env, s: Sys, id: int)
    requires ActiveIsGood(env, s)
    ensures forall d :: d in s.active ==> HasRoot(s, d)
  {
    hide ClearOf, HasRoot;
  }

  lemma RootsSame(s: Sys, s': Sys)
    requires s'.chroots == s.chroots && s'.dirs == s.dirs
    ensures forall d :: HasRoot(s', d) <==> HasRoot(s, d)
  {
  }

  lemma CutOut(before: seq<int>, id: int, after: seq<int>)
    ensures multiset(before + after) == multiset(before + [id] + after) - multiset{id}
  {
  }

  lemma WithoutIs(ids: seq<int>, id: int) returns (before: seq<int>, after: seq<int>)
    requires IndexOf(ids, id) < |ids|
    ensures Without(ids, id) == before + after && ids == before + [id] + after
  {
    var i := IndexOf(ids, id);
    before, after := ids[..i], ids[i + 1..];
  }

  lemma WithoutOne(ids: seq<int>, id: int)
    requires IndexOf(ids, id) < |ids|
    ensures multiset(Without(ids, id)) == multiset(ids) - multiset{id}
    ensures |Without(ids, id)| < |ids|
  {
    hide *;
    var before, after := WithoutIs(ids, id);
    CutOut(before, id, after);
  }

  // Closing once more changes nothing exactly when the chroot was active at most
  // once.
  lemma CloseTwice(env: Env, s: Sys, id: int)
    requires id in s.chroots && Close(env, s, id).ok
    ensures id in Close(env, s, id).s.chroots
    ensures Close(env, Close(env, s, id).s, id) == Close(env, s, id) <==> multiset(s.active)[id] <= 1
  {
    hide *;
    CloseIs(env, s, id);
    TriedIs(env, s, id);
    UnmountKeeps(env, UnmountAndRemove(env, s, id).s, id);
    var r := Close(env, s, id);
    if id in s.active {
      WithoutOne(s.active, id);
      CloseIs(env, r.s, id);
      TriedIs(env, r.s, id);
      UnmountKeeps(env, UnmountAndRemove(env, r.s, id).s, id);
      UnmountKeeps(env, r.s, id);
      InMultiset(r.s.active, id);
      if id in r.s.active {
        WithoutOne(r.s.active, id);
      }
    } else {
      InMultiset(s.active, id);
    }
  }

  lemma InMultiset(ids: seq<int>, id: int)
    ensures id in ids <==> multiset(ids)[id] > 0
  {
  }
}
