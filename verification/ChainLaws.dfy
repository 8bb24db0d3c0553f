// Which config files a chain holds, in which order, and when there is a chain.
module ChainLaws {
  import opened Sequences
  import opened Wrappers
  import opened Configs
  import opened ConfigChain

  // ---------------------------------------------------------- reachability

  // p is referenced within n + 1 steps.
  ghost predicate Reaches(files: Files, root: seq<string>, p: string, n: nat)
    decreases n
  {
    p in root || (n > 0 && exists q :: Reaches(files, root, q, n - 1) && p in RefsOf(files, q))
  }

  ghost predicate Reachable(files: Files, root: seq<string>, p: string) {
    exists n: nat :: Reaches(files, root, p, n)
  }

  lemma ReachRoot(files: Files, root: seq<string>, p: string)
    requires p in root
    ensures Reachable(files, root, p)
  {
    assert Reaches(files, root, p, 0);
  }

  lemma ReachNext(files: Files, root: seq<string>, q: string, p: string)
    requires Reachable(files, root, q) && p in RefsOf(files, q)
    ensures Reachable(files, root, p)
  {
    var n: nat :| Reaches(files, root, q, n);
    assert Reaches(files, root, p, n + 1);
  }

  // ------------------------------------------------------------ references

  // Where a file is referenced: by the config at the root, or by a file.
  datatype Site = Site(owner: Option<string>, index: nat)

  function OwnRefs(files: Files, root: seq<string>, owner: Option<string>): seq<string> {
    if owner.None? then root else RefsOf(files, owner.value)
  }

  ghost predicate IsOwner(files: Files, root: seq<string>, owner: Option<string>) {
    owner.Some? ==> Reachable(files, root, owner.value)
  }

  ghost predicate RefersTo(files: Files, root: seq<string>, s: Site, p: string) {
    && IsOwner(files, root, s.owner)
    && s.index < |OwnRefs(files, root, s.owner)| && OwnRefs(files, root, s.owner)[s.index] == p
  }

  // Some file is referenced in two places.
  ghost predicate IsReferencedTwice(files: Files, root: seq<string>) {
    exists s, t, p :: s != t && RefersTo(files, root, s, p) && RefersTo(files, root, t, p)
  }

  // An error says what is the matter with a file that can be reached.
  ghost predicate IsWrong(files: Files, root: seq<string>, err: ChainError) {
    match err
    case ReferencedTwice(p) => exists s, t :: s != t && RefersTo(files, root, s, p) && RefersTo(files, root, t, p)
    case NotLoaded(p) => Reachable(files, root, p) && p !in files.configs
    case NotValid(p) => Reachable(files, root, p) && p in files.configs && p in files.invalid
  }

  lemma RefIsReachable(files: Files, root: seq<string>, s: Site, p: string)
    requires RefersTo(files, root, s, p)
    ensures Reachable(files, root, p)
  {
    if s.owner.None? {
      ReachRoot(files, root, p);
    } else {
      ReachNext(files, root, s.owner.value, p);
    }
  }

  // Every visited file was first referenced in one place.
  ghost predicate AreSites(files: Files, root: seq<string>, visited: set<string>, sites: map<string, Site>) {
    && sites.Keys == visited
    && forall v :: v in visited ==>
         RefersTo(files, root, sites[v], v) && (sites[v].owner.Some? ==> sites[v].owner.value in visited)
  }

  // The new files are referenced by the current one or by each other.
  ghost predicate Extends(owner: Option<string>, visited: set<string>, sites: map<string, Site>, visited': set<string>, sites': map<string, Site>)
    requires sites.Keys == visited && sites'.Keys == visited'
  {
    && visited <= visited'
    && (forall v :: v in visited ==> sites'[v] == sites[v])
    && forall v :: v in visited' - visited ==>
         sites'[v].owner == owner || (sites'[v].owner.Some? && sites'[v].owner.value in visited' - visited)
  }

  predicate Below(visited: set<string>, sites: map<string, Site>, owner: Option<string>, i: nat)
    requires sites.Keys == visited
  {
    forall v :: v in visited && sites[v].owner == owner ==> sites[v].index < i
  }

  // The search from the i-th reference of one config on: it fails only because
  // of a file that cannot be used or that is referenced twice.
  lemma {:induction false} Search(files: Files, root: seq<string>, owner: Option<string>, i: nat, visited: set<string>, sites: map<string, Site>)
    returns (next: map<string, Site>)
    requires IsOwner(files, root, owner) && (owner.Some? ==> owner.value in visited)
    requires i <= |OwnRefs(files, root, owner)|
    requires AreSites(files, root, visited, sites) && Below(visited, sites, owner, i)
    ensures var w := Visit(files, OwnRefs(files, root, owner)[i..], visited);
      if w.err.None? then AreSites(files, root, w.visited, next) && Extends(owner, visited, sites, w.visited, next)
      else IsWrong(files, root, w.err.value)
    decreases files.configs.Keys - visited, |OwnRefs(files, root, owner)| - i
  {
    hide *;
    var refs := OwnRefs(files, root, owner);
    next := sites;
    if i == |refs| {
      assert refs[i..] == [];
      VisitNothing(files, visited);
      ExtendsItself(files, root, owner, visited, sites);
      return;
    }
    var path := refs[i];
    var here := Site(owner, i);
    assert refs[i..][0] == path && refs[i..][1..] == refs[i + 1..];
    VisitStep(files, refs[i..], visited);
    Here(files, root, owner, i);
    if path in visited {
      TwoSites(files, root, visited, sites, here, path);
    } else if !CanUse(files, path) {
      RefIsReachable(files, root, here, path);
      Unusable(files, root, path);
    } else {
      Usable(files, path);
      RefIsReachable(files, root, here, path);
      var started := sites[path := here];
      StartFile(files, root, visited, sites, here, path);
      var inner := Visit(files, RefsOf(files, path), visited + {path});
      OwnRefsOf(files, root, path);
      var mid := Search(files, root, Some(path), 0, visited + {path}, started);
      assert RefsOf(files, path)[0..] == RefsOf(files, path);
      if inner.err.None? {
        FinishFile(files, root, visited, sites, here, path, inner.visited, mid);
        next := Search(files, root, owner, i + 1, inner.visited, mid);
        var w := Visit(files, refs[i + 1..], inner.visited);
        AfterKeeps(inner.order + [path], w);
        if w.err.None? {
          ExtendsOn(files, root, owner, visited, sites, inner.visited, mid, w.visited, next);
        }
      }
    }
  }

  lemma ExtendsItself(files: Files, root: seq<string>, owner: Option<string>, visited: set<string>, sites: map<string, Site>)
    requires AreSites(files, root, visited, sites)
    ensures sites.Keys == visited && Extends(owner, visited, sites, visited, sites)
  {
    hide RefersTo;
  }

  lemma Here(files: Files, root: seq<string>, owner: Option<string>, i: nat)
    requires IsOwner(files, root, owner) && i < |OwnRefs(files, root, owner)|
    ensures RefersTo(files, root, Site(owner, i), OwnRefs(files, root, owner)[i])
  {
    hide OwnRefs, Reachable;
  }

  lemma TwoSites(files: Files, root: seq<string>, visited: set<string>, sites: map<string, Site>, here: Site, path: string)
    requires AreSites(files, root, visited, sites) && Below(visited, sites, here.owner, here.index)
    requires path in visited && RefersTo(files, root, here, path)
    ensures IsWrong(files, root, ReferencedTwice(path))
  {
    hide RefersTo;
    assert sites[path] != here;
  }

  lemma Unusable(files: Files, root: seq<string>, path: string)
    requires !CanUse(files, path) && Reachable(files, root, path)
    ensures path !in files.configs || path in files.invalid
    ensures IsWrong(files, root, if path !in files.configs then NotLoaded(path) else NotValid(path))
  {
  }

  lemma Usable(files: Files, path: string)
    requires CanUse(files, path)
    ensures path in files.configs.Keys && path !in files.invalid
  {
  }

  lemma OwnRefsOf(files: Files, root: seq<string>, path: string)
    ensures OwnRefs(files, root, Some(path)) == RefsOf(files, path)
  {
  }

  lemma AfterKeeps(before: seq<string>, w: Walk)
    ensures After(before, w).err == w.err && After(before, w).visited == w.visited
  {
  }

  lemma StartFile(files: Files, root: seq<string>, visited: set<string>, sites: map<string, Site>, here: Site, path: string)
    requires AreSites(files, root, visited, sites) && path !in visited && RefersTo(files, root, here, path)
    requires here.owner.Some? ==> here.owner.value in visited
    requires Reachable(files, root, path)
    ensures AreSites(files, root, visited + {path}, sites[path := here])
    ensures sites[path := here].Keys == visited + {path} && Below(visited + {path}, sites[path := here], Some(path), 0)
    ensures IsOwner(files, root, Some(path))
  {
    hide RefersTo, Reachable;
  }

  lemma FinishFile(files: Files, root: seq<string>, visited: set<string>, sites: map<string, Site>, here: Site, path: string,
    inner: set<string>, mid: map<string, Site>)
    requires AreSites(files, root, visited, sites) && Below(visited, sites, here.owner, here.index) && path !in visited
    requires here.owner.Some? ==> here.owner.value in visited
    requires AreSites(files, root, visited + {path}, sites[path := here]) && AreSites(files, root, inner, mid)
    requires Extends(Some(path), visited + {path}, sites[path := here], inner, mid)
    ensures Below(inner, mid, here.owner, here.index + 1) && Extends(here.owner, visited, sites, inner, mid)
    ensures here.owner.Some? ==> here.owner.value in inner
  {
    hide RefersTo;
  }

  lemma ExtendsOn(files: Files, root: seq<string>, owner: Option<string>, visited: set<string>, sites: map<string, Site>,
    inner: set<string>, mid: map<string, Site>, last: set<string>, next: map<string, Site>)
    requires AreSites(files, root, visited, sites) && AreSites(files, root, inner, mid) && AreSites(files, root, last, next)
    requires Extends(owner, visited, sites, inner, mid) && Extends(owner, inner, mid, last, next)
    ensures Extends(owner, visited, sites, last, next)
  {
    hide RefersTo;
  }

  // ------------------------------------------------------- what is visited

  // All references in a list of files.
  function RefCount(files: Files, order: seq<string>): multiset<string> {
    if order == [] then multiset{} else multiset(RefsOf(files, order[0])) + RefCount(files, order[1..])
  }

  lemma {:induction false} RefCountAppend(files: Files, a: seq<string>, b: seq<string>)
    ensures RefCount(files, a + b) == RefCount(files, a) + RefCount(files, b)
  {
    hide RefsOf;
    if a == [] {
      assert a + b == b;
    } else {
      assert (a + b)[1..] == a[1..] + b;
      RefCountAppend(files, a[1..], b);
    }
  }

  // What a search without an error has found: each file once, and each
  // reference to it is the one that led there.
  lemma {:induction false} Found(files: Files, refs: seq<string>, visited: set<string>)
    requires Visit(files, refs, visited).err.None?
    ensures var w := Visit(files, refs, visited);
      && w.visited == visited + Elements(w.order)
      && multiset(w.order) == multiset(refs) + RefCount(files, w.order)
      && (forall x :: multiset(w.order)[x] <= if x in visited then 0 else 1)
    decreases files.configs.Keys - visited, |refs|
  {
    hide *;
    if refs == [] {
      VisitNothing(files, visited);
      NothingFound(files, visited);
    } else {
      VisitStep(files, refs, visited);
      var path := refs[0];
      var inner := Visit(files, RefsOf(files, path), visited + {path});
      Found(files, RefsOf(files, path), visited + {path});
      assert path in files.configs.Keys - visited;
      var rest := Visit(files, refs[1..], inner.visited);
      AfterKeeps(inner.order + [path], rest);
      Found(files, refs[1..], inner.visited);
      AfterOrder(inner.order + [path], rest);
      FoundTogether(files, refs, visited, inner, rest);
    }
  }

  lemma NothingFound(files: Files, visited: set<string>)
    ensures visited == visited + Elements([])
    ensures var none: seq<string> := []; multiset(none) == multiset(none) + RefCount(files, none)
    ensures var none: seq<string> := []; forall x :: multiset(none)[x] == 0
  {
  }

  lemma AfterOrder(before: seq<string>, w: Walk)
    requires w.err.None?
    ensures After(before, w) == Walk(before + w.order, w.visited, None)
  {
  }

  lemma FoundTogether(files: Files, refs: seq<string>, visited: set<string>, inner: Walk, rest: Walk)
    requires refs != [] && refs[0] !in visited
    requires inner.visited == visited + {refs[0]} + Elements(inner.order)
    requires multiset(inner.order) == multiset(RefsOf(files, refs[0])) + RefCount(files, inner.order)
    requires forall x :: multiset(inner.order)[x] <= if x in visited + {refs[0]} then 0 else 1
    requires rest.visited == inner.visited + Elements(rest.order)
    requires multiset(rest.order) == multiset(refs[1..]) + RefCount(files, rest.order)
    requires forall x :: multiset(rest.order)[x] <= if x in inner.visited then 0 else 1
    ensures var order := inner.order + [refs[0]] + rest.order;
      && rest.visited == visited + Elements(order)
      && multiset(order) == multiset(refs) + RefCount(files, order)
      && (forall x :: multiset(order)[x] <= if x in visited then 0 else 1)
  {
    hide *;
    RefsTogether(files, refs, inner.order, rest.order);
    OnceEach(refs[0], inner.order, rest.order);
    forall x ensures multiset(inner.order + [refs[0]] + rest.order)[x] <= if x in visited then 0 else 1 {
      CountIn(inner.order, x);
    }
  }

  lemma RefsTogether(files: Files, refs: seq<string>, a: seq<string>, b: seq<string>)
    requires refs != []
    requires multiset(a) == multiset(RefsOf(files, refs[0])) + RefCount(files, a)
    requires multiset(b) == multiset(refs[1..]) + RefCount(files, b)
    ensures multiset(a + [refs[0]] + b) == multiset(refs) + RefCount(files, a + [refs[0]] + b)
  {
    hide *;
    var path := refs[0];
    assert refs == [path] + refs[1..];
    OneRefCount(files, path);
    RefCountAppend(files, a + [path], b);
    RefCountAppend(files, a, [path]);
  }

  lemma OnceEach(path: string, a: seq<string>, b: seq<string>)
    ensures Elements(a + [path] + b) == Elements(a) + {path} + Elements(b)
    ensures forall x :: multiset(a + [path] + b)[x] == multiset(a)[x] + (if x == path then 1 else 0) + multiset(b)[x]
  {
  }

  lemma CountIn(s: seq<string>, x: string)
    ensures multiset(s)[x] > 0 <==> x in Elements(s)
  {
  }

  lemma OneRefCount(files: Files, path: string)
    ensures RefCount(files, [path]) == multiset(RefsOf(files, path))
  {
    hide RefsOf;
    assert [path][1..] == [];
  }

  // A file comes after all the files that it is based on.
  ghost predicate BasesFirst(files: Files, order: seq<string>) {
    forall k, q :: 0 <= k < |order| && q in RefsOf(files, order[k]) ==> q in order[..k]
  }

  lemma {:induction false} FoundInOrder(files: Files, refs: seq<string>, visited: set<string>)
    requires Visit(files, refs, visited).err.None?
    ensures BasesFirst(files, Visit(files, refs, visited).order)
    decreases files.configs.Keys - visited, |refs|
  {
    hide *;
    if refs == [] {
      VisitNothing(files, visited);
      NoBases(files);
    } else {
      VisitStep(files, refs, visited);
      var path := refs[0];
      var inner := Visit(files, RefsOf(files, path), visited + {path});
      FoundInOrder(files, RefsOf(files, path), visited + {path});
      assert path in files.configs.Keys - visited;
      var rest := Visit(files, refs[1..], inner.visited);
      AfterKeeps(inner.order + [path], rest);
      AfterOrder(inner.order + [path], rest);
      FoundInOrder(files, refs[1..], inner.visited);
      Found(files, RefsOf(files, path), visited + {path});
      InOrderTogether(files, path, inner.order, rest.order);
    }
  }

  lemma NoBases(files: Files)
    ensures BasesFirst(files, [])
  {
  }

  lemma InOrderTogether(files: Files, path: string, a: seq<string>, b: seq<string>)
    requires BasesFirst(files, a) && BasesFirst(files, b)
    requires multiset(a) == multiset(RefsOf(files, path)) + RefCount(files, a)
    ensures BasesFirst(files, a + [path] + b)
  {
    hide RefsOf, RefCount;
    var order := a + [path] + b;
    forall k, q | 0 <= k < |order| && q in RefsOf(files, order[k]) ensures q in order[..k] {
      if k < |a| {
        assert order[..k] == a[..k];
      } else if k == |a| {
        assert order[..k] == a;
        assert q in multiset(RefsOf(files, path)) && q in multiset(a);
      } else {
        var j := k - |a| - 1;
        assert order[k] == b[j] && order[..k] == a + [path] + b[..j];
      }
    }
  }

  // Whatever is found can be reached.
  lemma {:induction false} FoundIsReachable(files: Files, root: seq<string>, refs: seq<string>, visited: set<string>)
    requires Visit(files, refs, visited).err.None?
    requires forall p :: p in refs ==> Reachable(files, root, p)
    ensures forall p :: p in Visit(files, refs, visited).order ==> Reachable(files, root, p)
    decreases files.configs.Keys - visited, |refs|
  {
    hide *;
    if refs == [] {
      VisitNothing(files, visited);
    } else {
      VisitStep(files, refs, visited);
      var path := refs[0];
      var inner := Visit(files, RefsOf(files, path), visited + {path});
      forall p | p in RefsOf(files, path) ensures Reachable(files, root, p) {
        ReachNext(files, root, path, p);
      }
      FoundIsReachable(files, root, RefsOf(files, path), visited + {path});
      assert path in files.configs.Keys - visited;
      var rest := Visit(files, refs[1..], inner.visited);
      AfterKeeps(inner.order + [path], rest);
      AfterOrder(inner.order + [path], rest);
      FoundIsReachable(files, root, refs[1..], inner.visited);
    }
  }

  // A list that has its own references has everything that they lead to.
  lemma {:induction false} ReachableIsFound(files: Files, root: seq<string>, order: seq<string>, p: string, n: nat)
    requires forall q :: q in root ==> q in order
    requires BasesFirst(files, order) && Reaches(files, root, p, n)
    ensures p in order
    decreases n
  {
    hide RefsOf;
    if p !in root {
      var q :| Reaches(files, root, q, n - 1) && p in RefsOf(files, q);
      ReachableIsFound(files, root, order, q, n - 1);
      var k :| 0 <= k < |order| && order[k] == q;
      assert p in order[..k];
    }
  }

  // ---------------------------------------------------------- the main laws

  lemma CountsNoDuplicates(order: seq<string>)
    requires forall x :: multiset(order)[x] <= 1
    ensures NoDuplicates(order)
  {
    forall i, j | 0 <= i < j < |order| ensures order[i] != order[j] {
      if order[i] == order[j] {
        CountTwice(order, i, j);
      }
    }
  }

  // An accepted chain holds exactly the config files that can be reached, each
  // of them once and after all the files that it is based on, and then the
  // config itself.
  lemma AcceptedChain(files: Files, config: Config, dir: string) returns (order: seq<string>)
    requires ChainOf(files, config, dir, {}).Ok?
    ensures forall k :: 0 <= k < |order| ==> CanUse(files, order[k]) && order[k] in files.configs
    ensures ChainOf(files, config, dir, {}).value == Entries(files, order) + [ConfigWithBasePath(config, dir)]
    ensures NoDuplicates(order) && BasesFirst(files, order)
    ensures forall p :: p in order <==> Reachable(files, Refs(files, config, dir), p)
  {
    var root := Refs(files, config, dir);
    var w := Visit(files, root, {});
    order := w.order;
    VisitLoads(files, root, {});
    hide *;
    OkIsFound(files, config, dir);
    Found(files, root, {});
    CountsNoDuplicates(order);
    FoundInOrder(files, root, {});
    forall p | p in root ensures Reachable(files, root, p) {
      ReachRoot(files, root, p);
    }
    FoundIsReachable(files, root, root, {});
    RootIsFound(files, root, order);
    forall p | Reachable(files, root, p) ensures p in order {
      var n := StepsTo(files, root, p);
      ReachableIsFound(files, root, order, p, n);
    }
  }

  lemma OkIsFound(files: Files, config: Config, dir: string)
    ensures ChainOf(files, config, dir, {}).Ok? <==> Visit(files, Refs(files, config, dir), {}).err.None?
    ensures ChainOf(files, config, dir, {}).Ok? ==>
      (forall k :: 0 <= k < |Visit(files, Refs(files, config, dir), {}).order| ==>
        Visit(files, Refs(files, config, dir), {}).order[k] in files.configs) &&
      ChainOf(files, config, dir, {}).value ==
        Entries(files, Visit(files, Refs(files, config, dir), {}).order) + [ConfigWithBasePath(config, dir)]
  {
    hide Visit;
    VisitLoads(files, Refs(files, config, dir), {});
  }

  lemma RootIsFound(files: Files, root: seq<string>, order: seq<string>)
    requires multiset(order) == multiset(root) + RefCount(files, order)
    ensures forall q :: q in root ==> q in order
  {
    forall q | q in root ensures q in order {
      assert q in multiset(root) && q in multiset(order);
    }
  }

  lemma StepsTo(files: Files, root: seq<string>, p: string) returns (n: nat)
    requires Reachable(files, root, p)
    ensures Reaches(files, root, p, n)
  {
    n :| Reaches(files, root, p, n);
  }

  lemma {:induction false} RefsWithin(files: Files, order: seq<string>, j: nat)
    requires j < |order|
    ensures multiset(RefsOf(files, order[j])) <= RefCount(files, order)
    decreases |order|
  {
    hide RefsOf;
    if j == 0 {
    } else {
      RefsWithin(files, order[1..], j - 1);
    }
  }

  lemma {:induction false} TwoRefsWithin(files: Files, order: seq<string>, j: nat, k: nat)
    requires j < k < |order|
    ensures multiset(RefsOf(files, order[j])) + multiset(RefsOf(files, order[k])) <= RefCount(files, order)
    decreases |order|
  {
    hide RefsOf;
    if j > 0 {
      TwoRefsWithin(files, order[1..], j - 1, k - 1);
    } else {
      RefsWithin(files, order[1..], k - 1);
    }
  }

  lemma CountTwice(s: seq<string>, i: nat, j: nat)
    requires i < j < |s| && s[i] == s[j]
    ensures multiset(s)[s[i]] >= 2
  {
    var a, b := s[..j], s[j..];
    assert s == a + b && a[i] == s[i] && b[0] == s[j];
    assert multiset(s) == multiset(a) + multiset(b);
    assert s[i] in multiset(a) && s[i] in multiset(b);
  }

  lemma CountOnce(s: seq<string>, i: nat)
    requires i < |s|
    ensures multiset(s)[s[i]] >= 1
  {
    assert s[i] in multiset(s);
  }

  // Where files are found only once, no two places refer to the same file.
  lemma NoTwoSites(files: Files, root: seq<string>, order: seq<string>, s: Site, t: Site, p: string)
    requires multiset(order) == multiset(root) + RefCount(files, order) && multiset(order)[p] <= 1
    requires forall q :: Reachable(files, root, q) ==> q in order
    requires RefersTo(files, root, s, p) && RefersTo(files, root, t, p)
    ensures s == t
  {
    hide Reachable, RefsOf, RefCount;
    var a, b := OwnRefs(files, root, s.owner), OwnRefs(files, root, t.owner);
    CountOnce(a, s.index);
    CountOnce(b, t.index);
    if s.owner == t.owner {
      if s.index < t.index {
        CountTwice(a, s.index, t.index);
        OwnWithin(files, root, order, s.owner, p);
      } else if t.index < s.index {
        CountTwice(a, t.index, s.index);
        OwnWithin(files, root, order, s.owner, p);
      }
    } else {
      BothWithin(files, root, order, s.owner, t.owner, p);
    }
  }

  lemma OwnWithin(files: Files, root: seq<string>, order: seq<string>, owner: Option<string>, p: string)
    requires owner.Some? ==> owner.value in order
    ensures multiset(OwnRefs(files, root, owner))[p] <= (multiset(root) + RefCount(files, order))[p]
  {
    hide RefsOf, RefCount;
    if owner.Some? {
      var j :| 0 <= j < |order| && order[j] == owner.value;
      RefsWithin(files, order, j);
    }
  }

  lemma BothWithin(files: Files, root: seq<string>, order: seq<string>, a: Option<string>, b: Option<string>, p: string)
    requires a != b && (a.Some? ==> a.value in order) && (b.Some? ==> b.value in order)
    ensures multiset(OwnRefs(files, root, a))[p] + multiset(OwnRefs(files, root, b))[p] <= (multiset(root) + RefCount(files, order))[p]
  {
    hide RefsOf, RefCount;
    if a.Some? && b.Some? {
      var j :| 0 <= j < |order| && order[j] == a.value;
      var k :| 0 <= k < |order| && order[k] == b.value;
      if j < k {
        TwoRefsWithin(files, order, j, k);
      } else {
        TwoRefsWithin(files, order, k, j);
      }
    } else if a.Some? {
      var j :| 0 <= j < |order| && order[j] == a.value;
      RefsWithin(files, order, j);
    } else {
      var k :| 0 <= k < |order| && order[k] == b.value;
      RefsWithin(files, order, k);
    }
  }

  // Everything that can be reached is found.
  lemma AcceptedOrder(files: Files, config: Config, dir: string) returns (order: seq<string>)
    requires Visit(files, Refs(files, config, dir), {}).err.None?
    ensures order == Visit(files, Refs(files, config, dir), {}).order
    ensures forall p :: Reachable(files, Refs(files, config, dir), p) ==> p in order
  {
    hide *;
    var root := Refs(files, config, dir);
    order := Visit(files, root, {}).order;
    Found(files, root, {});
    FoundInOrder(files, root, {});
    RootIsFound(files, root, order);
    forall p | Reachable(files, root, p) ensures p in order {
      var n := StepsTo(files, root, p);
      ReachableIsFound(files, root, order, p, n);
    }
  }

  // There is a chain exactly when every config file that can be reached can be
  // loaded and is valid, and no file is referenced in two places.
  lemma AcceptsWhen(files: Files, config: Config, dir: string)
    ensures ChainOf(files, config, dir, {}).Ok? <==>
      && (forall p :: Reachable(files, Refs(files, config, dir), p) ==> CanUse(files, p))
      && !IsReferencedTwice(files, Refs(files, config, dir))
  {
    hide *;
    var root := Refs(files, config, dir);
    OkIsFound(files, config, dir);
    if Visit(files, root, {}).err.None? {
      var order := AcceptedOrder(files, config, dir);
      VisitLoads(files, root, {});
      NeverTwice(files, root, order);
    } else {
      NothingVisited(files, root);
      assert root[0..] == root;
      var next := Search(files, root, None, 0, {}, map[]);
      WrongIs(files, root, Visit(files, root, {}).err.value);
    }
  }

  lemma WrongIs(files: Files, root: seq<string>, err: ChainError)
    requires IsWrong(files, root, err)
    ensures IsReferencedTwice(files, root) || exists p :: Reachable(files, root, p) && !CanUse(files, p)
  {
    hide RefersTo, Reachable;
  }

  // And where there is none, the error tells why.
  lemma ErrorIs(files: Files, config: Config, dir: string)
    requires ChainOf(files, config, dir, {}).Err?
    ensures IsWrong(files, Refs(files, config, dir), ChainOf(files, config, dir, {}).error)
  {
    hide IsWrong, Visit, RefersTo, RefsOf;
    var root := Refs(files, config, dir);
    NothingVisited(files, root);
    assert root[0..] == root;
    var next := Search(files, root, None, 0, {}, map[]);
  }

  lemma NothingVisited(files: Files, root: seq<string>)
    ensures IsOwner(files, root, None) && OwnRefs(files, root, None) == root
    ensures AreSites(files, root, {}, map[]) && Below({}, map[], None, 0)
  {
    hide RefersTo;
  }

  lemma NeverTwice(files: Files, root: seq<string>, order: seq<string>)
    requires Visit(files, root, {}).err.None?
    requires var w := Visit(files, root, {}); forall p :: Reachable(files, root, p) ==> p in w.order
    ensures !IsReferencedTwice(files, root)
  {
    hide RefersTo, Reachable, RefCount, Visit;
    Found(files, root, {});
    var w := Visit(files, root, {});
    forall s, t, p | RefersTo(files, root, s, p) && RefersTo(files, root, t, p) ensures s == t {
      assert multiset(w.order)[p] <= 1;
      NoTwoSites(files, root, w.order, s, t, p);
    }
  }
}
