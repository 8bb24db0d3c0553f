// In which turn the base configs of a config come, and which files they are.
module ChainOrder {
  import opened Sequences
  import opened Wrappers
  import opened Configs
  import opened ConfigChain
  import opened ChainLaws

  // A base config is named by an absolute path, or by one from the directory of
  // the config that names it.
  predicate IsRef(files: Files, dir: string, base: string, path: string) {
    if base != "" && base[0] == '/' then path == base else path == files.paths.join(dir, base)
  }

  lemma RefsMean(files: Files, config: Config, dir: string, path: string)
    ensures |Refs(files, config, dir)| == |config.baseConfigs|
    ensures forall k :: 0 <= k < |config.baseConfigs| ==> IsRef(files, dir, config.baseConfigs[k], Refs(files, config, dir)[k])
    ensures path in files.configs ==> RefsOf(files, path) == Refs(files, files.configs[path], files.paths.dir(path))
    ensures path !in files.configs ==> RefsOf(files, path) == []
  {
  }

  // What one reference leads to comes before what a later one leads to.
  ghost predicate ComeInTurn(files: Files, refs: seq<string>, order: seq<string>) {
    forall i, j, a, b :: 0 <= i < j < |refs| && 0 <= a < |order| && 0 <= b < |order| ==>
      Reachable(files, [refs[i]], order[a]) && Reachable(files, [refs[j]], order[b]) ==> a < b
  }

  ghost predicate OwnersInTurn(files: Files, order: seq<string>) {
    forall k :: 0 <= k < |order| ==> ComeInTurn(files, RefsOf(files, order[k]), order)
  }

  // Whatever can be reached from a file of a closed list is in it.
  lemma StaysWithin(files: Files, root: string, order: seq<string>, p: string)
    requires root in order && BasesFirst(files, order) && Reachable(files, [root], p)
    ensures p in order
  {
    hide *;
    var n := StepsTo(files, [root], p);
    ReachableIsFound(files, [root], order, p, n);
  }

  lemma PlaceWithin(pre: seq<string>, part: seq<string>, post: seq<string>, a: nat)
    requires NoDuplicates(pre + part + post) && a < |pre + part + post| && (pre + part + post)[a] in part
    ensures |pre| <= a < |pre| + |part| && part[a - |pre|] == (pre + part + post)[a]
  {
    var k :| 0 <= k < |part| && part[k] == (pre + part + post)[a];
    assert (pre + part + post)[|pre| + k] == part[k];
  }

  lemma InTurnWithin(files: Files, refs: seq<string>, pre: seq<string>, part: seq<string>, post: seq<string>)
    requires NoDuplicates(pre + part + post) && BasesFirst(files, part)
    requires (forall r :: r in refs ==> r in part) && ComeInTurn(files, refs, part)
    ensures ComeInTurn(files, refs, pre + part + post)
  {
    hide Reachable, BasesFirst, NoDuplicates;
    var order := pre + part + post;
    forall i, j, a, b | 0 <= i < j < |refs| && 0 <= a < |order| && 0 <= b < |order|
      && Reachable(files, [refs[i]], order[a]) && Reachable(files, [refs[j]], order[b]) ensures a < b
    {
      StaysWithin(files, refs[i], part, order[a]);
      StaysWithin(files, refs[j], part, order[b]);
      PlaceWithin(pre, part, post, a);
      PlaceWithin(pre, part, post, b);
    }
  }

  lemma OwnersWithin(files: Files, pre: seq<string>, part: seq<string>, post: seq<string>, k: nat)
    requires NoDuplicates(pre + part + post) && BasesFirst(files, part) && OwnersInTurn(files, part) && k < |part|
    ensures ComeInTurn(files, RefsOf(files, part[k]), pre + part + post)
  {
    hide NoDuplicates, ComeInTurn, RefsOf;
    forall r | r in RefsOf(files, part[k]) ensures r in part {
      assert r in part[..k];
    }
    InTurnWithin(files, RefsOf(files, part[k]), pre, part, post);
  }

  // The first reference, and the others after it.
  lemma FirstInTurn(files: Files, refs: seq<string>, a: seq<string>, b: seq<string>)
    requires refs != [] && NoDuplicates(a + [refs[0]] + b)
    requires BasesFirst(files, a + [refs[0]]) && BasesFirst(files, b)
    requires (forall r :: r in refs[1..] ==> r in b) && ComeInTurn(files, refs[1..], b)
    ensures ComeInTurn(files, refs, a + [refs[0]] + b)
  {
    var first, order := a + [refs[0]], a + [refs[0]] + b;
    assert [] + first + b == order && first + b + [] == order;
    InTurnWithin(files, refs[1..], first, b, []);
    hide Reachable, BasesFirst, NoDuplicates;
    forall i, j, m, n | 0 <= i < j < |refs| && 0 <= m < |order| && 0 <= n < |order|
      && Reachable(files, [refs[i]], order[m]) && Reachable(files, [refs[j]], order[n]) ensures m < n
    {
      if i == 0 {
        StaysWithin(files, refs[0], first, order[m]);
        assert refs[1..][j - 1] == refs[j];
        StaysWithin(files, refs[j], b, order[n]);
        PlaceWithin([], first, b, m);
        PlaceWithin(first, b, [], n);
      } else {
        assert refs[1..][i - 1] == refs[i] && refs[1..][j - 1] == refs[j];
      }
    }
  }

  lemma {:induction false} FoundInTurn(files: Files, refs: seq<string>, visited: set<string>)
    requires Visit(files, refs, visited).err.None?
    ensures ComeInTurn(files, refs, Visit(files, refs, visited).order)
    ensures OwnersInTurn(files, Visit(files, refs, visited).order)
    decreases files.configs.Keys - visited, |refs|
  {
    hide *;
    if refs == [] {
      VisitNothing(files, visited);
      NoneInTurn(files);
    } else {
      VisitStep(files, refs, visited);
      var path := refs[0];
      var inner := Visit(files, RefsOf(files, path), visited + {path});
      FoundInTurn(files, RefsOf(files, path), visited + {path});
      assert path in files.configs.Keys - visited;
      var rest := Visit(files, refs[1..], inner.visited);
      AfterKeeps(inner.order + [path], rest);
      AfterOrder(inner.order + [path], rest);
      FoundInTurn(files, refs[1..], inner.visited);
      FoundParts(files, refs, visited, inner, rest);
      FirstInTurn(files, refs, inner.order, rest.order);
      AllOwners(files, path, inner.order, rest.order);
    }
  }

  lemma NoneInTurn(files: Files)
    ensures ComeInTurn(files, [], []) && OwnersInTurn(files, [])
  {
  }

  lemma FoundParts(files: Files, refs: seq<string>, visited: set<string>, inner: Walk, rest: Walk)
    requires refs != [] && Visit(files, refs, visited).err.None?
    requires Visit(files, refs, visited).order == inner.order + [refs[0]] + rest.order
    requires inner == Visit(files, RefsOf(files, refs[0]), visited + {refs[0]}) && inner.err.None?
    requires rest == Visit(files, refs[1..], inner.visited) && rest.err.None?
    ensures NoDuplicates(inner.order + [refs[0]] + rest.order)
    ensures BasesFirst(files, inner.order) && BasesFirst(files, inner.order + [refs[0]]) && BasesFirst(files, rest.order)
    ensures forall r :: r in RefsOf(files, refs[0]) ==> r in inner.order
    ensures forall r :: r in refs[1..] ==> r in rest.order
  {
    hide *;
    Found(files, refs, visited);
    CountsNoDuplicates(inner.order + [refs[0]] + rest.order);
    Found(files, RefsOf(files, refs[0]), visited + {refs[0]});
    RootIsFound(files, RefsOf(files, refs[0]), inner.order);
    Found(files, refs[1..], inner.visited);
    RootIsFound(files, refs[1..], rest.order);
    FoundInOrder(files, RefsOf(files, refs[0]), visited + {refs[0]});
    FoundInOrder(files, refs[1..], inner.visited);
    NoBases(files);
    InOrderTogether(files, refs[0], inner.order, []);
    assert inner.order + [refs[0]] + [] == inner.order + [refs[0]];
  }

  lemma AllOwners(files: Files, path: string, a: seq<string>, b: seq<string>)
    requires NoDuplicates(a + [path] + b) && BasesFirst(files, a) && BasesFirst(files, b)
    requires forall r :: r in RefsOf(files, path) ==> r in a
    requires ComeInTurn(files, RefsOf(files, path), a) && OwnersInTurn(files, a) && OwnersInTurn(files, b)
    ensures OwnersInTurn(files, a + [path] + b)
  {
    hide NoDuplicates, ComeInTurn, BasesFirst, RefsOf;
    var order := a + [path] + b;
    assert [] + a + ([path] + b) == order && a + [path] + b + [] == order;
    forall k | 0 <= k < |order| ensures ComeInTurn(files, RefsOf(files, order[k]), order) {
      if k < |a| {
        OwnersWithin(files, [], a, [path] + b, k);
      } else if k == |a| {
        InTurnWithin(files, RefsOf(files, path), [], a, [path] + b);
      } else {
        OwnersWithin(files, a + [path], b, [], k - |a| - 1);
      }
    }
  }

  // In an accepted chain, for every config: all that its first base config is
  // based on comes before all that its second one is, and so on.
  lemma AcceptedInTurn(files: Files, config: Config, dir: string) returns (order: seq<string>)
    requires ChainOf(files, config, dir, {}).Ok?
    ensures forall k :: 0 <= k < |order| ==> order[k] in files.configs
    ensures ChainOf(files, config, dir, {}).value == Entries(files, order) + [ConfigWithBasePath(config, dir)]
    ensures ComeInTurn(files, Refs(files, config, dir), order)
    ensures forall k :: 0 <= k < |order| ==> ComeInTurn(files, RefsOf(files, order[k]), order)
  {
    hide ComeInTurn, ChainOf, Visit, RefsOf;
    order := Visit(files, Refs(files, config, dir), {}).order;
    OkIsFound(files, config, dir);
    FoundInTurn(files, Refs(files, config, dir), {});
  }
}
