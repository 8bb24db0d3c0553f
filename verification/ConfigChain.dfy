// The order in which a config inherits from its base configs
// (toolkit/tools/pkg/imagecustomizerlib/baseconfigs.go).
module ConfigChain {
  import opened Wrappers
  import opened Configs

  // The config files: those that can be loaded, and those of them whose content
  // is not valid.
  datatype Files = Files(configs: map<string, Config>, invalid: set<string>, paths: Paths)

  datatype ChainError = ReferencedTwice(path: string) | NotLoaded(path: string) | NotValid(path: string)

  // The base config files of a config in a directory.
  function Refs(files: Files, config: Config, dir: string): (r: seq<string>)
    ensures |r| == |config.baseConfigs|
    ensures forall k :: 0 <= k < |r| ==> r[k] == GetAbsPathWithBase(files.paths, dir, config.baseConfigs[k])
  {
    seq(|config.baseConfigs|, k requires 0 <= k < |config.baseConfigs| => GetAbsPathWithBase(files.paths, dir, config.baseConfigs[k]))
  }

  // The base config files of a config file.
  function RefsOf(files: Files, path: string): seq<string> {
    if path in files.configs then Refs(files, files.configs[path], files.paths.dir(path)) else []
  }

  predicate CanUse(files: Files, path: string) {
    path in files.configs && path !in files.invalid
  }

  // ---------------------------------------------------- what is computed

  // The files in the order of the chain, the files seen, and what went wrong.
  datatype Walk = Walk(order: seq<string>, visited: set<string>, err: Option<ChainError>)

  function After(before: seq<string>, w: Walk): Walk {
    if w.err.Some? then w else w.(order := before + w.order)
  }

  // From a list of references, depth first: a file comes after its base files.
  function Visit(files: Files, refs: seq<string>, visited: set<string>): (w: Walk)
    ensures visited <= w.visited
    decreases files.configs.Keys - visited, |refs|
  {
    if refs == [] then Walk([], visited, None)
    else
      var path := refs[0];
      if path in visited then Walk([], visited, Some(ReferencedTwice(path)))
      else if path !in files.configs then Walk([], visited + {path}, Some(NotLoaded(path)))
      else if path in files.invalid then Walk([], visited + {path}, Some(NotValid(path)))
      else
        var inner := Visit(files, RefsOf(files, path), visited + {path});
        if inner.err.Some? then inner
        else
          assert path in files.configs.Keys - visited;
          After(inner.order + [path], Visit(files, refs[1..], inner.visited))
  }

  function Entries(files: Files, order: seq<string>): (r: seq<ConfigWithBasePath>)
    requires forall k :: 0 <= k < |order| ==> order[k] in files.configs
    ensures |r| == |order|
    ensures forall k :: 0 <= k < |r| ==> r[k] == ConfigWithBasePath(files.configs[order[k]], files.paths.dir(order[k]))
  {
    seq(|order|, k requires 0 <= k < |order| => ConfigWithBasePath(files.configs[order[k]], files.paths.dir(order[k])))
  }

  lemma {:induction false} VisitLoads(files: Files, refs: seq<string>, visited: set<string>)
    ensures var w := Visit(files, refs, visited);
      w.err.None? ==> forall k :: 0 <= k < |w.order| ==> CanUse(files, w.order[k])
    decreases files.configs.Keys - visited, |refs|
  {
    hide RefsOf, After;
    if refs == [] {
    } else if refs[0] !in visited && CanUse(files, refs[0]) {
      VisitLoads(files, RefsOf(files, refs[0]), visited + {refs[0]});
      var inner := Visit(files, RefsOf(files, refs[0]), visited + {refs[0]});
      if inner.err.None? {
        assert refs[0] in files.configs.Keys - visited;
        VisitLoads(files, refs[1..], inner.visited);
        LoadsTogether(files, inner.order, refs[0], Visit(files, refs[1..], inner.visited));
      }
    }
  }

  lemma LoadsTogether(files: Files, before: seq<string>, path: string, w: Walk)
    requires forall k :: 0 <= k < |before| ==> CanUse(files, before[k])
    requires CanUse(files, path)
    requires w.err.None? ==> forall k :: 0 <= k < |w.order| ==> CanUse(files, w.order[k])
    ensures var r := After(before + [path], w);
      r.err.None? ==> forall k :: 0 <= k < |r.order| ==> CanUse(files, r.order[k])
  {
    hide CanUse;
    var r := After(before + [path], w);
    if r.err.None? {
      forall k | 0 <= k < |r.order| ensures CanUse(files, r.order[k]) {
        if k > |before| {
          assert r.order[k] == w.order[k - |before| - 1];
        }
      }
    }
  }

  // The chain that ends in a config.
  function ChainOf(files: Files, config: Config, dir: string, visited: set<string>): Result<seq<ConfigWithBasePath>, ChainError> {
    var w := Visit(files, Refs(files, config, dir), visited);
    VisitLoads(files, Refs(files, config, dir), visited);
    if w.err.Some? then Err(w.err.value)
    else Ok(Entries(files, w.order) + [ConfigWithBasePath(config, dir)])
  }

  // --------------------------------------------------------- the algorithm

  class ChainBuilder {
    const files: Files

    // Shared by all levels of the search.
    var visited: set<string>

    constructor (files: Files)
      ensures this.files == files && visited == {}
    {
      this.files := files;
      visited := {};
    }

    method BuildConfigChainHelper(config: Config, configDir: string) returns (r: Result<seq<ConfigWithBasePath>, ChainError>)
      modifies this
      ensures r == ChainOf(files, config, configDir, old(visited))
      ensures visited == Visit(files, Refs(files, config, configDir), old(visited)).visited
      decreases files.configs.Keys - visited
    {
      hide Visit, RefsOf, After;
      ghost var refs := Refs(files, config, configDir);
      ghost var goal := Visit(files, refs, visited);
      ghost var order: seq<string> := [];
      var chain: seq<ConfigWithBasePath> := [];
      AfterNothing(goal);
      assert refs[0..] == refs;
      VisitLoads(files, refs, visited);
      for i := 0 to |config.baseConfigs|
        invariant old(visited) <= visited
        invariant forall k :: 0 <= k < |order| ==> order[k] in files.configs
        invariant chain == Entries(files, order)
        invariant After(order, Visit(files, refs[i..], visited)) == goal
      {
        var absPath := GetAbsPathWithBase(files.paths, configDir, config.baseConfigs[i]);
        assert refs[i..][0] == absPath && refs[i..][1..] == refs[i + 1..];
        VisitStep(files, refs[i..], visited);
        ghost var seen := visited;
        if absPath in visited {
          AfterError(order, Visit(files, refs[i..], visited));
          return Err(ReferencedTwice(absPath));
        }
        visited := visited + {absPath};
        if absPath !in files.configs {
          AfterError(order, Visit(files, refs[i..], seen));
          return Err(NotLoaded(absPath));
        }
        var baseCfg := files.configs[absPath];
        if absPath in files.invalid {
          AfterError(order, Visit(files, refs[i..], seen));
          return Err(NotValid(absPath));
        }
        RefsOfIs(files, absPath);
        assert absPath in files.configs.Keys - old(visited);
        ghost var inner := Visit(files, RefsOf(files, absPath), visited);
        VisitLoads(files, RefsOf(files, absPath), visited);
        var subChain := BuildConfigChainHelper(baseCfg, files.paths.dir(absPath));
        if subChain.Err? {
          AfterError(order, Visit(files, refs[i..], seen));
          return Err(subChain.error);
        }
        EntriesAppend(files, order, inner.order, absPath);
        AfterAfter(order, inner.order + [absPath], Visit(files, refs[i + 1..], visited));
        chain := chain + subChain.value;
        order := order + (inner.order + [absPath]);
      }
      assert refs[|refs|..] == [];
      VisitNothing(files, visited);
      AfterAll(order, visited);
      chain := chain + [ConfigWithBasePath(config, configDir)];
      return Ok(chain);
    }
  }

  method BuildConfigChain(files: Files, config: Config, baseConfigPath: string) returns (r: Result<seq<ConfigWithBasePath>, ChainError>)
    ensures r == ChainOf(files, config, baseConfigPath, {})
  {
    var builder := new ChainBuilder(files);
    r := builder.BuildConfigChainHelper(config, baseConfigPath);
  }

  // ------------------------------------------------------------- its steps

  lemma AfterNothing(w: Walk)
    ensures After([], w) == w
  {
    assert [] + w.order == w.order;
  }

  lemma AfterAfter(a: seq<string>, b: seq<string>, w: Walk)
    ensures After(a, After(b, w)) == After(a + b, w)
  {
    assert a + (b + w.order) == a + b + w.order;
  }

  lemma AfterError(a: seq<string>, w: Walk)
    requires w.err.Some?
    ensures After(a, w) == w
  {
  }

  lemma AfterAll(a: seq<string>, visited: set<string>)
    ensures After(a, Walk([], visited, None)) == Walk(a, visited, None)
  {
    assert a + [] == a;
  }

  lemma VisitNothing(files: Files, visited: set<string>)
    ensures Visit(files, [], visited) == Walk([], visited, None)
  {
  }

  lemma VisitStep(files: Files, refs: seq<string>, visited: set<string>)
    requires refs != []
    ensures var path := refs[0];
      Visit(files, refs, visited) ==
        if path in visited then Walk([], visited, Some(ReferencedTwice(path)))
        else if path !in files.configs then Walk([], visited + {path}, Some(NotLoaded(path)))
        else if path in files.invalid then Walk([], visited + {path}, Some(NotValid(path)))
        else
          var inner := Visit(files, RefsOf(files, path), visited + {path});
          if inner.err.Some? then inner else After(inner.order + [path], Visit(files, refs[1..], inner.visited))
  {
    hide RefsOf, After;
  }

  lemma RefsOfIs(files: Files, path: string)
    requires path in files.configs
    ensures RefsOf(files, path) == Refs(files, files.configs[path], files.paths.dir(path))
  {
  }

  lemma EntriesAppend(files: Files, order: seq<string>, inner: seq<string>, path: string)
    requires forall k :: 0 <= k < |order| ==> order[k] in files.configs
    requires forall k :: 0 <= k < |inner| ==> inner[k] in files.configs
    requires path in files.configs
    ensures Entries(files, order + (inner + [path])) ==
      Entries(files, order) + (Entries(files, inner) + [ConfigWithBasePath(files.configs[path], files.paths.dir(path))])
  {
  }
}
