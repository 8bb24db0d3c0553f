// Resolving a chain of configs to one, field by field
// (toolkit/tools/pkg/imagecustomizerlib/configvalidation.go:832-1100).
module ConfigMerge {
  import opened Sequences
  import opened Wrappers
  import opened Configs

  type Chain = seq<ConfigWithBasePath>

  // ---------------------------------------- the last value in a chain wins

  function LastSet<T>(chain: Chain, get: Config -> Option<T>): Option<T> {
    if chain == [] then None
    else
      var last := get(chain[|chain| - 1].config);
      if last.Some? then last else LastSet(chain[..|chain| - 1], get)
  }

  // The value of a later config overrides that of an earlier one.
  function Override<T>(base: Option<T>, current: Option<T>): Option<T> {
    if current.Some? then current else base
  }

  lemma {:induction false} LastSetAppend<T>(a: Chain, b: Chain, get: Config -> Option<T>)
    ensures LastSet(a + b, get) == Override(LastSet(a, get), LastSet(b, get))
  {
    if b == [] {
      assert a + b == a;
    } else {
      assert (a + b)[..|a + b| - 1] == a + b[..|b| - 1];
      LastSetAppend(a, b[..|b| - 1], get);
    }
  }

  // A scan from the end, one step at a time.
  lemma LastSetStep<T>(chain: Chain, i: nat, get: Config -> Option<T>)
    requires i < |chain|
    ensures LastSet(chain[..i + 1], get) == Override(LastSet(chain[..i], get), get(chain[i].config))
  {
    assert chain[..i + 1][..i] == chain[..i];
  }

  function OrDefault<T>(x: Option<T>, default: T): T {
    if x.Some? then x.value else default
  }

  // Strings are set when they are not empty.
  function NonEmpty(s: string): Option<string> {
    if s != "" then Some(s) else None
  }

  function HostnameOf(c: Config): Option<string> {
    if c.os.Some? then NonEmpty(c.os.value.hostname) else None
  }

  function SELinuxOf(c: Config): Option<string> {
    if c.os.Some? then NonEmpty(c.os.value.seLinuxMode) else None
  }

  function UkiOf(c: Config): Option<string> {
    if c.os.Some? then c.os.value.uki else None
  }

  const HARD_RESET := "hard-reset"

  // Only a hard reset is inherited.
  function ResetTypeOf(c: Config): Option<string> {
    if c.os.Some? && c.os.value.bootLoaderResetType == HARD_RESET then Some(HARD_RESET) else None
  }

  function IsoInitramfsOf(c: Config): Option<string> {
    if c.iso.Some? then NonEmpty(c.iso.value.initramfsType) else None
  }

  function IsoKdumpOf(c: Config): Option<string> {
    if c.iso.Some? then c.iso.value.kdumpBootFiles else None
  }

  function PxeInitramfsOf(c: Config): Option<string> {
    if c.pxe.Some? then NonEmpty(c.pxe.value.initramfsType) else None
  }

  function PxeKdumpOf(c: Config): Option<string> {
    if c.pxe.Some? then c.pxe.value.kdumpBootFiles else None
  }

  function PxeBaseUrlOf(c: Config): Option<string> {
    if c.pxe.Some? then NonEmpty(c.pxe.value.bootstrapBaseUrl) else None
  }

  function PxeFileUrlOf(c: Config): Option<string> {
    if c.pxe.Some? then NonEmpty(c.pxe.value.bootstrapFileUrl) else None
  }

  function CosiLevelOf(c: Config): Option<int> {
    c.cosiCompressionLevel
  }

  function ImageHistoryOf(c: Config): Option<string> {
    if c.os.Some? then NonEmpty(c.os.value.imageHistory) else None
  }

  function RemovePackageManagerOf(c: Config): Option<bool> {
    if c.os.Some? then c.os.value.removePackageManager else None
  }

  method ResolveImageHistory(chain: Chain) returns (r: string)
    ensures r == OrDefault(LastSet(chain, ImageHistoryOf), "")
  {
    r := ScanString(chain, ImageHistoryOf);
  }

  // A later config can keep the package manager that an earlier one removes.
  method ResolveRemovePackageManager(chain: Chain) returns (r: bool)
    ensures r <==> LastSet(chain, RemovePackageManagerOf) == Some(true)
  {
    var last := Scan(chain, RemovePackageManagerOf);
    r := last == Some(true);
  }

  method ResolveHostname(chain: Chain) returns (r: string)
    ensures r == OrDefault(LastSet(chain, HostnameOf), "")
  {
    r := ScanString(chain, HostnameOf);
  }

  method ResolveSELinux(chain: Chain) returns (mode: string)
    ensures mode == OrDefault(LastSet(chain, SELinuxOf), "")
  {
    mode := ScanString(chain, SELinuxOf);
  }

  method ResolveUki(chain: Chain) returns (r: Option<string>)
    ensures r == LastSet(chain, UkiOf)
  {
    r := Scan(chain, UkiOf);
  }

  method ResolveBootLoaderResetType(chain: Chain) returns (r: string)
    ensures r == OrDefault(LastSet(chain, ResetTypeOf), "")
    ensures r == "hard-reset" <==>
      exists k :: 0 <= k < |chain| && chain[k].config.os.Some? && chain[k].config.os.value.bootLoaderResetType == "hard-reset"
    ensures r == "hard-reset" || r == ""
  {
    assert chain[..|chain|] == chain;
    for i := |chain| downto 0
      invariant LastSet(chain, ResetTypeOf) == LastSet(chain[..i], ResetTypeOf)
      invariant forall k :: i <= k < |chain| ==> chain[k].config.os.None? || chain[k].config.os.value.bootLoaderResetType != HARD_RESET
    {
      LastSetStep(chain, i, ResetTypeOf);
      var config := chain[i].config;
      if config.os.None? {
        continue;
      }
      if config.os.value.bootLoaderResetType == HARD_RESET {
        return HARD_RESET;
      }
    }
    return "";
  }

  // The backward scan that all the fields share.
  method Scan<T>(chain: Chain, get: Config -> Option<T>) returns (r: Option<T>)
    ensures r == LastSet(chain, get)
  {
    assert chain[..|chain|] == chain;
    for i := |chain| downto 0
      invariant LastSet(chain, get) == LastSet(chain[..i], get)
    {
      LastSetStep(chain, i, get);
      var value := get(chain[i].config);
      if value.Some? {
        return value;
      }
    }
    return None;
  }

  method ScanString(chain: Chain, get: Config -> Option<string>) returns (r: string)
    ensures r == OrDefault(LastSet(chain, get), "")
  {
    var value := Scan(chain, get);
    return OrDefault(value, "");
  }

  method ResolveCosiCompressionLevel(chain: Chain, cliLevel: Option<int>, defaultLevel: int) returns (level: int)
    ensures level == OrDefault(Override(LastSet(chain, CosiLevelOf), cliLevel), defaultLevel)
    ensures cliLevel.Some? ==> level == cliLevel.value
    ensures cliLevel.None? && LastSet(chain, CosiLevelOf).None? ==> level == defaultLevel
  {
    if cliLevel.Some? {
      return cliLevel.value;
    }
    var inherited := Scan(chain, CosiLevelOf);
    return OrDefault(inherited, defaultLevel);
  }

  // -------------------------------------------- lists are concatenated

  function Concat<T>(chain: Chain, get: ConfigWithBasePath -> seq<T>): seq<T> {
    if chain == [] then [] else Concat(chain[..|chain| - 1], get) + get(chain[|chain| - 1])
  }

  lemma {:induction false} ConcatAppend<T>(a: Chain, b: Chain, get: ConfigWithBasePath -> seq<T>)
    ensures Concat(a + b, get) == Concat(a, get) + Concat(b, get)
  {
    if b == [] {
      assert a + b == a;
    } else {
      assert (a + b)[..|a + b| - 1] == a + b[..|b| - 1];
      ConcatAppend(a, b[..|b| - 1], get);
    }
  }

  lemma ConcatStep<T>(chain: Chain, i: nat, get: ConfigWithBasePath -> seq<T>)
    requires i < |chain|
    ensures Concat(chain[..i + 1], get) == Concat(chain[..i], get) + get(chain[i])
  {
    assert chain[..i + 1][..i] == chain[..i];
  }

  function OsArgsOf(c: Config): seq<string> {
    if c.os.Some? then c.os.value.extraCommandLine else []
  }

  function IsoArgsOf(c: Config): seq<string> {
    if c.iso.Some? then c.iso.value.extraCommandLine else []
  }

  function PxeArgsOf(c: Config): seq<string> {
    if c.pxe.Some? then c.pxe.value.extraCommandLine else []
  }

  function IsoFilesOf(c: Config): seq<AdditionalFile> {
    if c.iso.Some? then c.iso.value.additionalFiles else []
  }

  function PxeFilesOf(c: Config): seq<AdditionalFile> {
    if c.pxe.Some? then c.pxe.value.additionalFiles else []
  }

  method MergeKernelCommandLine(chain: Chain, getArgs: Config -> seq<string>) returns (mergedArgs: seq<string>)
    ensures mergedArgs == Concat(chain, (c: ConfigWithBasePath) => getArgs(c.config))
  {
    mergedArgs := [];
    for i := 0 to |chain|
      invariant mergedArgs == Concat(chain[..i], (c: ConfigWithBasePath) => getArgs(c.config))
    {
      ConcatStep(chain, i, (c: ConfigWithBasePath) => getArgs(c.config));
      var args := getArgs(chain[i].config);
      if |args| > 0 {
        mergedArgs := mergedArgs + args;
      }
    }
    assert chain[..|chain|] == chain;
  }

  // A file with its source resolved against the config that names it.
  function ResolvedFile(paths: Paths, baseConfigPath: string, f: AdditionalFile): AdditionalFile {
    if f.source != "" then f.(source := GetAbsPathWithBase(paths, baseConfigPath, f.source)) else f
  }

  function ResolvedFiles(paths: Paths, baseConfigPath: string, files: seq<AdditionalFile>): (r: seq<AdditionalFile>)
    ensures |r| == |files| && forall k :: 0 <= k < |r| ==> r[k] == ResolvedFile(paths, baseConfigPath, files[k])
  {
    seq(|files|, k requires 0 <= k < |files| => ResolvedFile(paths, baseConfigPath, files[k]))
  }

  method MergeAdditionalFiles(paths: Paths, chain: Chain, getFiles: Config -> seq<AdditionalFile>) returns (merged: seq<AdditionalFile>)
    ensures merged == Concat(chain, (c: ConfigWithBasePath) => ResolvedFiles(paths, c.baseConfigPath, getFiles(c.config)))
  {
    hide ResolvedFile;
    ghost var get := (c: ConfigWithBasePath) => ResolvedFiles(paths, c.baseConfigPath, getFiles(c.config));
    merged := [];
    for i := 0 to |chain|
      invariant merged == Concat(chain[..i], get)
    {
      ConcatStep(chain, i, get);
      var files := getFiles(chain[i].config);
      ghost var before := merged;
      ghost var added := ResolvedFiles(paths, chain[i].baseConfigPath, files);
      for j := 0 to |files|
        invariant merged == before + added[..j]
      {
        ResolvedFileIs(paths, chain[i].baseConfigPath, files[j]);
        var resolvedFile := files[j];
        if files[j].source != "" {
          resolvedFile := resolvedFile.(source := GetAbsPathWithBase(paths, chain[i].baseConfigPath, files[j].source));
        }
        merged := merged + [resolvedFile];
        assert added[..j + 1] == added[..j] + [resolvedFile];
      }
      assert added[..|files|] == added;
    }
    assert chain[..|chain|] == chain;
  }

  lemma ResolvedFileIs(paths: Paths, baseConfigPath: string, f: AdditionalFile)
    ensures ResolvedFile(paths, baseConfigPath, f) ==
      if f.source != "" then f.(source := GetAbsPathWithBase(paths, baseConfigPath, f.source)) else f
  {
  }

  // ------------------------------------- artifact types are listed once each

  // The items without those that were there before.
  function Distinct(items: seq<string>): seq<string> {
    if items == [] then []
    else
      var n := |items| - 1;
      Distinct(items[..n]) + if items[n] in items[..n] then [] else [items[n]]
  }

  lemma {:induction false} DistinctItems(items: seq<string>)
    ensures forall x :: x in Distinct(items) <==> x in items
    ensures NoDuplicates(Distinct(items))
  {
    if items == [] {
    } else {
      var n := |items| - 1;
      DistinctItems(items[..n]);
      assert items == items[..n] + [items[n]];
    }
  }

  lemma DistinctStep(items: seq<string>, i: nat, before: seq<string>)
    requires i < |items|
    ensures Distinct(before + items[..i + 1]) ==
      Distinct(before + items[..i]) + if items[i] in before + items[..i] then [] else [items[i]]
  {
    var all := before + items[..i + 1];
    assert all[..|all| - 1] == before + items[..i] && all[|all| - 1] == items[i];
  }

  // Items that were listed once before can be listed once more.
  lemma {:induction false} DistinctFront(a: seq<string>, b: seq<string>)
    ensures Distinct(Distinct(a) + b) == Distinct(a + b)
    decreases |b|
  {
    var n := |b| - 1;
    if b == [] {
      assert Distinct(a) + b == Distinct(a) && a + b == a;
      DistinctTwice(a);
    } else {
      DistinctFront(a, b[..n]);
      assert b[..n + 1] == b;
      DistinctStep(b, n, Distinct(a));
      DistinctStep(b, n, a);
      DistinctItems(a);
    }
  }

  lemma {:induction false} DistinctTwice(a: seq<string>)
    ensures Distinct(Distinct(a)) == Distinct(a)
  {
    if a == [] {
    } else {
      var n := |a| - 1;
      var d := Distinct(a[..n]);
      DistinctTwice(a[..n]);
      DistinctItems(a[..n]);
      if a[n] !in a[..n] {
        assert (d + [a[n]])[..|d|] == d;
      } else {
        assert d + [] == d;
      }
    }
  }

  lemma {:induction false} DistinctBack(a: seq<string>, b: seq<string>)
    ensures Distinct(a + Distinct(b)) == Distinct(a + b)
    decreases |b|
  {
    if b == [] {
    } else {
      var n := |b| - 1;
      var d := Distinct(b[..n]);
      DistinctBack(a, b[..n]);
      DistinctItems(b[..n]);
      assert b[..n + 1] == b;
      DistinctStep(b, n, a);
      if b[n] !in b[..n] {
        assert (d + [b[n]])[..|d|] == d && (d + [b[n]])[..|d| + 1] == d + [b[n]];
        DistinctStep(d + [b[n]], |d|, a);
      } else {
        assert d + [] == d;
      }
    }
  }

  method MergeOutputArtifactTypes(base: seq<string>, current: seq<string>) returns (merged: seq<string>)
    ensures merged == Distinct(base + current)
  {
    hide Distinct;
    var seen: set<string> := {};
    merged := [];
    NoTypes(base);
    for i := 0 to |base|
      invariant merged == Distinct([] + base[..i])
      invariant seen == Elements([] + base[..i])
    {
      DistinctStep(base, i, []);
      ElementsStep(base, i, []);
      if base[i] !in seen {
        merged := merged + [base[i]];
        seen := seen + {base[i]};
      }
    }
    AllTypes(base, current);
    for i := 0 to |current|
      invariant merged == Distinct(base + current[..i])
      invariant seen == Elements(base + current[..i])
    {
      DistinctStep(current, i, base);
      ElementsStep(current, i, base);
      if current[i] !in seen {
        merged := merged + [current[i]];
        seen := seen + {current[i]};
      }
    }
    assert current[..|current|] == current;
  }

  lemma ElementsStep(items: seq<string>, i: nat, before: seq<string>)
    requires i < |items|
    ensures Elements(before + items[..i + 1]) == Elements(before + items[..i]) + {items[i]}
    ensures items[i] in Elements(before + items[..i]) <==> items[i] in before + items[..i]
  {
    assert items[..i + 1] == items[..i] + [items[i]];
  }

  lemma NoTypes(base: seq<string>)
    ensures Distinct([] + base[..0]) == [] && Elements([] + base[..0]) == {}
  {
  }

  lemma AllTypes(base: seq<string>, current: seq<string>)
    ensures [] + base[..|base|] == base + current[..0]
  {
  }

  // What two lists of artifact types are merged to.
  function MergedTypes(base: seq<string>, current: seq<string>): seq<string> {
    Distinct(base + current)
  }

  lemma MergedTypesAssociate(a: seq<string>, b: seq<string>, c: seq<string>)
    ensures MergedTypes(MergedTypes(a, b), c) == MergedTypes(a, MergedTypes(b, c)) == Distinct(a + b + c)
  {
    hide Distinct;
    DistinctFront(a + b, c);
    DistinctBack(a, b + c);
    assert a + (b + c) == a + b + c;
  }

  // The merged list begins with the base items, has every item, and has none
  // twice.
  lemma MergedTypesAre(base: seq<string>, current: seq<string>)
    ensures var m := MergedTypes(base, current);
      && Distinct(base) <= m
      && (forall x :: x in m <==> x in base || x in current)
      && NoDuplicates(m)
  {
    DistinctItems(base + current);
    DistinctPrefix(base, current);
  }

  lemma {:induction false} DistinctPrefix(a: seq<string>, b: seq<string>)
    ensures Distinct(a) <= Distinct(a + b)
    decreases |b|
  {
    if b == [] {
      assert a + b == a;
    } else {
      DistinctPrefix(a, b[..|b| - 1]);
      assert b[..|b| - 1 + 1] == b;
      DistinctStep(b, |b| - 1, a);
    }
  }

  // ------------------------------------------------------- output artifacts

  // What the artifacts of the configs so far become with those of one more.
  function WithArtifacts(paths: Paths, before: Option<Artifacts>, c: ConfigWithBasePath): Option<Artifacts> {
    if c.config.artifacts.None? then before
    else
      var base := OrDefault(before, Artifacts([], ""));
      var a := c.config.artifacts.value;
      Some(Artifacts(MergedTypes(base.items, a.items),
        if a.path != "" then GetAbsPathWithBase(paths, c.baseConfigPath, a.path) else base.path))
  }

  function ArtifactsOf(paths: Paths, chain: Chain): Option<Artifacts> {
    if chain == [] then None
    else WithArtifacts(paths, ArtifactsOf(paths, chain[..|chain| - 1]), chain[|chain| - 1])
  }

  method ResolveOutputArtifacts(paths: Paths, chain: Chain) returns (artifacts: Option<Artifacts>)
    ensures artifacts == ArtifactsOf(paths, chain)
  {
    hide Distinct;
    artifacts := None;
    for i := 0 to |chain|
      invariant artifacts == ArtifactsOf(paths, chain[..i])
    {
      assert chain[..i + 1][..i] == chain[..i];
      if chain[i].config.artifacts.Some? {
        var current := chain[i].config.artifacts.value;
        if artifacts.None? {
          artifacts := Some(Artifacts([], ""));
        }
        if current.path != "" {
          artifacts := Some(artifacts.value.(path := GetAbsPathWithBase(paths, chain[i].baseConfigPath, current.path)));
        }
        var items := MergeOutputArtifactTypes(artifacts.value.items, current.items);
        artifacts := Some(artifacts.value.(items := items));
      }
    }
    assert chain[..|chain|] == chain;
  }

  function MergedArtifacts(base: Option<Artifacts>, current: Option<Artifacts>): Option<Artifacts> {
    if current.None? then base
    else if base.None? then current
    else Some(Artifacts(MergedTypes(base.value.items, current.value.items), Later(base.value.path, current.value.path)))
  }

  lemma MergedArtifactsAssociate(a: Option<Artifacts>, b: Option<Artifacts>, c: Option<Artifacts>)
    ensures MergedArtifacts(MergedArtifacts(a, b), c) == MergedArtifacts(a, MergedArtifacts(b, c))
  {
    hide MergedTypes;
    if a.Some? && b.Some? && c.Some? {
      MergedTypesAssociate(a.value.items, b.value.items, c.value.items);
    }
  }

  // A path that is not empty is not joined to an empty one.
  ghost predicate JoinsNonEmpty(paths: Paths) {
    forall dir, path :: path != "" ==> paths.join(dir, path) != ""
  }

  // One more config is merged like a chain of its own.
  lemma WithArtifactsMerges(paths: Paths, before: Option<Artifacts>, c: ConfigWithBasePath)
    requires JoinsNonEmpty(paths)
    ensures WithArtifacts(paths, before, c) == MergedArtifacts(before, WithArtifacts(paths, None, c))
  {
    hide Distinct;
    if before.Some? && c.config.artifacts.Some? {
      var items := c.config.artifacts.value.items;
      assert [] + items == items;
      DistinctBack(before.value.items, items);
    }
  }

  lemma {:induction false} ArtifactsAppend(paths: Paths, a: Chain, b: Chain)
    requires JoinsNonEmpty(paths)
    ensures ArtifactsOf(paths, a + b) == MergedArtifacts(ArtifactsOf(paths, a), ArtifactsOf(paths, b))
    decreases |b|
  {
    hide MergedArtifacts, WithArtifacts, JoinsNonEmpty;
    if b == [] {
      assert a + b == a;
      NoArtifacts(ArtifactsOf(paths, a));
    } else {
      var front, last := b[..|b| - 1], b[|b| - 1];
      assert (a + b)[..|a + b| - 1] == a + front;
      ArtifactsAppend(paths, a, front);
      WithArtifactsMerges(paths, ArtifactsOf(paths, a + front), last);
      WithArtifactsMerges(paths, ArtifactsOf(paths, front), last);
      MergedArtifactsAssociate(ArtifactsOf(paths, a), ArtifactsOf(paths, front), WithArtifacts(paths, None, last));
    }
  }

  lemma NoArtifacts(a: Option<Artifacts>)
    ensures MergedArtifacts(a, None) == a
  {
  }

  // ---------------------------------------------------------------- storage

  datatype StorageChoice = NoStorage | OneStorage(text: string) | MoreThanOne

  function ChoiceOf(storage: Option<string>): StorageChoice {
    if storage.Some? then OneStorage(storage.value) else NoStorage
  }

  function BothStorages(a: StorageChoice, b: StorageChoice): StorageChoice {
    if a.NoStorage? then b else if b.NoStorage? then a else MoreThanOne
  }

  function StorageOf(chain: Chain): StorageChoice {
    if chain == [] then NoStorage
    else BothStorages(StorageOf(chain[..|chain| - 1]), ChoiceOf(chain[|chain| - 1].config.storage))
  }

  predicate HasStorage(chain: Chain, k: nat)
    requires k < |chain|
  {
    chain[k].config.storage.Some?
  }

  // Storage may be specified in one config only.
  lemma {:induction false} StorageMeans(chain: Chain)
    ensures StorageOf(chain).MoreThanOne? <==> exists j, k :: 0 <= j < k < |chain| && HasStorage(chain, j) && HasStorage(chain, k)
    ensures StorageOf(chain).NoStorage? <==> forall k :: 0 <= k < |chain| ==> !HasStorage(chain, k)
    ensures StorageOf(chain).OneStorage? ==>
      exists k :: 0 <= k < |chain| && HasStorage(chain, k) && StorageOf(chain).text == chain[k].config.storage.value
  {
    if chain == [] {
    } else {
      var n := |chain| - 1;
      StorageMeans(chain[..n]);
      assert forall k :: 0 <= k < n ==> HasStorage(chain[..n], k) == HasStorage(chain, k) && chain[..n][k] == chain[k];
      if HasStorage(chain, n) {
        forall k | 0 <= k < n && HasStorage(chain[..n], k) ensures StorageOf(chain).MoreThanOne? {
          assert !StorageOf(chain[..n]).NoStorage?;
        }
      }
    }
  }

  method ResolveStorage(chain: Chain) returns (r: StorageChoice)
    ensures r == StorageOf(chain)
  {
    var foundStorage: Option<string> := None;
    var foundStorageCount := 0;
    for i := 0 to |chain|
      invariant foundStorageCount > 0 ==> foundStorage.Some?
      invariant StorageOf(chain[..i]) == if foundStorageCount > 1 then MoreThanOne else ChoiceOf(foundStorage)
      invariant foundStorageCount == 0 ==> foundStorage.None?
      invariant foundStorageCount >= 0
    {
      assert chain[..i + 1][..i] == chain[..i];
      var storage := chain[i].config.storage;
      if storage.Some? {
        foundStorage := storage;
        foundStorageCount := foundStorageCount + 1;
      }
    }
    assert chain[..|chain|] == chain;
    if foundStorageCount > 1 {
      return MoreThanOne;
    }
    return ChoiceOf(foundStorage);
  }

  lemma {:induction false} StorageAppend(a: Chain, b: Chain)
    ensures StorageOf(a + b) == BothStorages(StorageOf(a), StorageOf(b))
    decreases |b|
  {
    if b == [] {
      assert a + b == a;
    } else {
      assert (a + b)[..|a + b| - 1] == a + b[..|b| - 1];
      StorageAppend(a, b[..|b| - 1]);
    }
  }

  // ------------------------------------------------------- the whole config

  datatype ResolvedConfig = ResolvedConfig(hostname: string, seLinuxMode: string, uki: Option<string>, bootLoaderResetType: string,
    osArgs: seq<string>, iso: Iso, pxe: Pxe, artifacts: Option<Artifacts>, cosiLevel: Option<int>,
    imageHistory: string, removePackageManager: Option<bool>, storage: StorageChoice)

  function StringOf(chain: Chain, get: Config -> Option<string>): string {
    OrDefault(LastSet(chain, get), "")
  }

  function ArgsOf(chain: Chain, get: Config -> seq<string>): seq<string> {
    Concat(chain, (c: ConfigWithBasePath) => get(c.config))
  }

  function FilesOf(paths: Paths, chain: Chain, get: Config -> seq<AdditionalFile>): seq<AdditionalFile> {
    Concat(chain, (c: ConfigWithBasePath) => ResolvedFiles(paths, c.baseConfigPath, get(c.config)))
  }

  function IsoOf(paths: Paths, chain: Chain): Iso {
    Iso(FilesOf(paths, chain, IsoFilesOf), ArgsOf(chain, IsoArgsOf), StringOf(chain, IsoInitramfsOf), LastSet(chain, IsoKdumpOf))
  }

  function PxeOf(paths: Paths, chain: Chain): Pxe {
    Pxe(FilesOf(paths, chain, PxeFilesOf), ArgsOf(chain, PxeArgsOf), StringOf(chain, PxeInitramfsOf), LastSet(chain, PxeKdumpOf),
      StringOf(chain, PxeBaseUrlOf), StringOf(chain, PxeFileUrlOf))
  }

  function Resolve(paths: Paths, chain: Chain): ResolvedConfig {
    ResolvedConfig(StringOf(chain, HostnameOf), StringOf(chain, SELinuxOf), LastSet(chain, UkiOf), StringOf(chain, ResetTypeOf),
      ArgsOf(chain, OsArgsOf), IsoOf(paths, chain), PxeOf(paths, chain), ArtifactsOf(paths, chain), LastSet(chain, CosiLevelOf),
      StringOf(chain, ImageHistoryOf), LastSet(chain, RemovePackageManagerOf), StorageOf(chain))
  }

  method ResolveIsoConfig(paths: Paths, chain: Chain) returns (iso: Iso)
    ensures iso == IsoOf(paths, chain)
  {
    var files := MergeAdditionalFiles(paths, chain, IsoFilesOf);
    var args := MergeKernelCommandLine(chain, IsoArgsOf);
    var initramfsType := ScanString(chain, IsoInitramfsOf);
    var kdumpBootFiles := Scan(chain, IsoKdumpOf);
    return Iso(files, args, initramfsType, kdumpBootFiles);
  }

  method ResolvePxeConfig(paths: Paths, chain: Chain) returns (pxe: Pxe)
    ensures pxe == PxeOf(paths, chain)
  {
    var files := MergeAdditionalFiles(paths, chain, PxeFilesOf);
    var args := MergeKernelCommandLine(chain, PxeArgsOf);
    var initramfsType := ScanString(chain, PxeInitramfsOf);
    var kdumpBootFiles := Scan(chain, PxeKdumpOf);
    var baseUrl := ScanString(chain, PxeBaseUrlOf);
    var fileUrl := ScanString(chain, PxeFileUrlOf);
    return Pxe(files, args, initramfsType, kdumpBootFiles, baseUrl, fileUrl);
  }

  method ResolveConfig(paths: Paths, chain: Chain) returns (r: ResolvedConfig)
    ensures r == Resolve(paths, chain)
  {
    hide IsoOf, PxeOf, ArtifactsOf, StorageOf;
    var hostname := ResolveHostname(chain);
    var seLinuxMode := ResolveSELinux(chain);
    var uki := ResolveUki(chain);
    var resetType := ResolveBootLoaderResetType(chain);
    var osArgs := MergeKernelCommandLine(chain, OsArgsOf);
    var iso := ResolveIsoConfig(paths, chain);
    var pxe := ResolvePxeConfig(paths, chain);
    var artifacts := ResolveOutputArtifacts(paths, chain);
    var cosiLevel := Scan(chain, CosiLevelOf);
    var imageHistory := ResolveImageHistory(chain);
    var removePackageManager := Scan(chain, RemovePackageManagerOf);
    var storage := ResolveStorage(chain);
    return ResolvedConfig(hostname, seLinuxMode, uki, resetType, osArgs, iso, pxe, artifacts, cosiLevel,
      imageHistory, removePackageManager, storage);
  }

  // A string overrides another unless it is empty.
  function Later(base: string, current: string): string {
    if current != "" then current else base
  }

  function MergedIso(a: Iso, b: Iso): Iso {
    Iso(a.additionalFiles + b.additionalFiles, a.extraCommandLine + b.extraCommandLine, Later(a.initramfsType, b.initramfsType),
      Override(a.kdumpBootFiles, b.kdumpBootFiles))
  }

  function MergedPxe(a: Pxe, b: Pxe): Pxe {
    Pxe(a.additionalFiles + b.additionalFiles, a.extraCommandLine + b.extraCommandLine, Later(a.initramfsType, b.initramfsType),
      Override(a.kdumpBootFiles, b.kdumpBootFiles), Later(a.bootstrapBaseUrl, b.bootstrapBaseUrl), Later(a.bootstrapFileUrl, b.bootstrapFileUrl))
  }

  // Two resolved configs as one: scalars of the second override, lists are
  // concatenated, artifact types are listed once.
  function Merged(a: ResolvedConfig, b: ResolvedConfig): ResolvedConfig {
    ResolvedConfig(Later(a.hostname, b.hostname), Later(a.seLinuxMode, b.seLinuxMode), Override(a.uki, b.uki),
      Later(a.bootLoaderResetType, b.bootLoaderResetType), a.osArgs + b.osArgs, MergedIso(a.iso, b.iso), MergedPxe(a.pxe, b.pxe),
      MergedArtifacts(a.artifacts, b.artifacts), Override(a.cosiLevel, b.cosiLevel),
      Later(a.imageHistory, b.imageHistory), Override(a.removePackageManager, b.removePackageManager), BothStorages(a.storage, b.storage))
  }

  ghost predicate YieldsNonEmpty(get: Config -> Option<string>) {
    forall c :: get(c).Some? ==> get(c).value != ""
  }

  lemma {:induction false} LastSetNonEmpty(chain: Chain, get: Config -> Option<string>)
    requires YieldsNonEmpty(get)
    ensures LastSet(chain, get).Some? ==> LastSet(chain, get).value != ""
  {
    if chain == [] {
    } else {
      LastSetNonEmpty(chain[..|chain| - 1], get);
    }
  }

  lemma StringAppend(a: Chain, b: Chain, get: Config -> Option<string>)
    requires YieldsNonEmpty(get)
    ensures StringOf(a + b, get) == Later(StringOf(a, get), StringOf(b, get))
  {
    hide LastSet, YieldsNonEmpty;
    LastSetAppend(a, b, get);
    LastSetNonEmpty(b, get);
  }

  lemma ArgsAppend(a: Chain, b: Chain, get: Config -> seq<string>)
    ensures ArgsOf(a + b, get) == ArgsOf(a, get) + ArgsOf(b, get)
  {
    ConcatAppend(a, b, (c: ConfigWithBasePath) => get(c.config));
  }

  lemma FilesAppend(paths: Paths, a: Chain, b: Chain, get: Config -> seq<AdditionalFile>)
    ensures FilesOf(paths, a + b, get) == FilesOf(paths, a, get) + FilesOf(paths, b, get)
  {
    ConcatAppend(a, b, (c: ConfigWithBasePath) => ResolvedFiles(paths, c.baseConfigPath, get(c.config)));
  }

  lemma IsoAppend(paths: Paths, a: Chain, b: Chain)
    ensures IsoOf(paths, a + b) == MergedIso(IsoOf(paths, a), IsoOf(paths, b))
  {
    hide StringOf, ArgsOf, FilesOf, LastSet, Later, Override;
    FilesAppend(paths, a, b, IsoFilesOf);
    ArgsAppend(a, b, IsoArgsOf);
    StringAppend(a, b, IsoInitramfsOf);
    LastSetAppend(a, b, IsoKdumpOf);
  }

  lemma PxeAppend(paths: Paths, a: Chain, b: Chain)
    ensures PxeOf(paths, a + b) == MergedPxe(PxeOf(paths, a), PxeOf(paths, b))
  {
    hide StringOf, ArgsOf, FilesOf, LastSet, Later, Override;
    FilesAppend(paths, a, b, PxeFilesOf);
    ArgsAppend(a, b, PxeArgsOf);
    StringAppend(a, b, PxeInitramfsOf);
    LastSetAppend(a, b, PxeKdumpOf);
    StringAppend(a, b, PxeBaseUrlOf);
    StringAppend(a, b, PxeFileUrlOf);
  }

  // Resolving two chains one after the other is merging what they resolve to.
  lemma ResolveMerges(paths: Paths, a: Chain, b: Chain)
    requires JoinsNonEmpty(paths)
    ensures Resolve(paths, a + b) == Merged(Resolve(paths, a), Resolve(paths, b))
  {
    hide StringOf, ArgsOf, LastSet, Later, Override, IsoOf, PxeOf, ArtifactsOf, MergedIso, MergedPxe, MergedArtifacts, JoinsNonEmpty, StorageOf, BothStorages;
    StringAppend(a, b, ImageHistoryOf);
    LastSetAppend(a, b, RemovePackageManagerOf);
    StorageAppend(a, b);
    StringAppend(a, b, HostnameOf);
    StringAppend(a, b, SELinuxOf);
    LastSetAppend(a, b, UkiOf);
    StringAppend(a, b, ResetTypeOf);
    ArgsAppend(a, b, OsArgsOf);
    IsoAppend(paths, a, b);
    PxeAppend(paths, a, b);
    ArtifactsAppend(paths, a, b);
    LastSetAppend(a, b, CosiLevelOf);
  }
}
