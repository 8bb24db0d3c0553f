// Which config of a chain each field of the resolved config comes from, said of
// the fields themselves.
module ConfigFields {
  import opened Sequences
  import opened Wrappers
  import opened Configs
  import opened ConfigMerge

  // -------------------------------------------------------------- single values

  // The last text of the chain that is not empty.
  ghost predicate IsLastText(chain: Chain, text: Config -> string, r: string) {
    if r == "" then forall k :: 0 <= k < |chain| ==> text(chain[k].config) == ""
    else exists k :: 0 <= k < |chain| && text(chain[k].config) == r && forall j :: k < j < |chain| ==> text(chain[j].config) == ""
  }

  // The last value that is there.
  ghost predicate IsLastValue<T>(chain: Chain, value: Config -> Option<T>, r: Option<T>) {
    if r.None? then forall k :: 0 <= k < |chain| ==> value(chain[k].config).None?
    else exists k :: 0 <= k < |chain| && value(chain[k].config) == r && forall j :: k < j < |chain| ==> value(chain[j].config).None?
  }

  lemma {:induction false} ValueIsLast<T>(chain: Chain, get: Config -> Option<T>)
    ensures IsLastValue(chain, get, LastSet(chain, get))
  {
    if chain == [] {
    } else {
      var n := |chain| - 1;
      ValueIsLast(chain[..n], get);
      var r := LastSet(chain[..n], get);
      if get(chain[n].config).Some? {
        assert IsLastValue(chain, get, get(chain[n].config));
      } else if r.Some? {
        var k :| 0 <= k < n && get(chain[..n][k].config) == r && forall j :: k < j < n ==> get(chain[..n][j].config).None?;
        assert get(chain[k].config) == r && forall j :: k < j < n ==> get(chain[j].config) == get(chain[..n][j].config);
      } else {
        assert forall k :: 0 <= k < n ==> get(chain[k].config) == get(chain[..n][k].config);
      }
    }
  }

  lemma SameValue<T>(chain: Chain, get: Config -> Option<T>, value: Config -> Option<T>)
    requires forall c :: get(c) == value(c)
    ensures IsLastValue(chain, value, LastSet(chain, get))
  {
    ValueIsLast(chain, get);
    hide LastSet;
  }

  lemma TextIsLast(chain: Chain, get: Config -> Option<string>, text: Config -> string)
    requires forall c :: get(c) == if text(c) == "" then None else Some(text(c))
    ensures IsLastText(chain, text, StringOf(chain, get))
  {
    ValueIsLast(chain, get);
    hide LastSet;
    var r := LastSet(chain, get);
    assert forall k :: 0 <= k < |chain| ==> get(chain[k].config) == if text(chain[k].config) == "" then None else Some(text(chain[k].config));
    if r.Some? {
      var k :| 0 <= k < |chain| && get(chain[k].config) == r && forall j :: k < j < |chain| ==> get(chain[j].config).None?;
      assert text(chain[k].config) == r.value && forall j :: k < j < |chain| ==> text(chain[j].config) == "";
    }
  }

  lemma OsTexts(paths: Paths, chain: Chain)
    ensures IsLastText(chain, (c: Config) => if c.os.Some? then c.os.value.hostname else "", Resolve(paths, chain).hostname)
    ensures IsLastText(chain, (c: Config) => if c.os.Some? then c.os.value.seLinuxMode else "", Resolve(paths, chain).seLinuxMode)
    ensures IsLastText(chain, (c: Config) => if c.os.Some? then c.os.value.imageHistory else "", Resolve(paths, chain).imageHistory)
    ensures IsLastText(chain, (c: Config) => if c.os.Some? && c.os.value.bootLoaderResetType == "hard-reset" then "hard-reset" else "",
      Resolve(paths, chain).bootLoaderResetType)
  {
    hide StringOf, IsLastText, IsoOf, PxeOf, ArtifactsOf, StorageOf, ArgsOf, LastSet;
    TextIsLast(chain, HostnameOf, (c: Config) => if c.os.Some? then c.os.value.hostname else "");
    TextIsLast(chain, SELinuxOf, (c: Config) => if c.os.Some? then c.os.value.seLinuxMode else "");
    TextIsLast(chain, ImageHistoryOf, (c: Config) => if c.os.Some? then c.os.value.imageHistory else "");
    TextIsLast(chain, ResetTypeOf,
      (c: Config) => if c.os.Some? && c.os.value.bootLoaderResetType == "hard-reset" then "hard-reset" else "");
  }

  lemma IsoTexts(paths: Paths, chain: Chain)
    ensures IsLastText(chain, (c: Config) => if c.iso.Some? then c.iso.value.initramfsType else "", Resolve(paths, chain).iso.initramfsType)
    ensures IsLastText(chain, (c: Config) => if c.pxe.Some? then c.pxe.value.initramfsType else "", Resolve(paths, chain).pxe.initramfsType)
    ensures IsLastText(chain, (c: Config) => if c.pxe.Some? then c.pxe.value.bootstrapBaseUrl else "", Resolve(paths, chain).pxe.bootstrapBaseUrl)
    ensures IsLastText(chain, (c: Config) => if c.pxe.Some? then c.pxe.value.bootstrapFileUrl else "", Resolve(paths, chain).pxe.bootstrapFileUrl)
  {
    hide StringOf, IsLastText, ArtifactsOf, StorageOf, ArgsOf, LastSet, FilesOf;
    TextIsLast(chain, IsoInitramfsOf, (c: Config) => if c.iso.Some? then c.iso.value.initramfsType else "");
    TextIsLast(chain, PxeInitramfsOf, (c: Config) => if c.pxe.Some? then c.pxe.value.initramfsType else "");
    TextIsLast(chain, PxeBaseUrlOf, (c: Config) => if c.pxe.Some? then c.pxe.value.bootstrapBaseUrl else "");
    TextIsLast(chain, PxeFileUrlOf, (c: Config) => if c.pxe.Some? then c.pxe.value.bootstrapFileUrl else "");
  }

  lemma OptionalValues(paths: Paths, chain: Chain)
    ensures IsLastValue(chain, (c: Config) => if c.os.Some? then c.os.value.uki else None, Resolve(paths, chain).uki)
    ensures IsLastValue(chain, (c: Config) => if c.os.Some? then c.os.value.removePackageManager else None, Resolve(paths, chain).removePackageManager)
    ensures IsLastValue(chain, (c: Config) => c.cosiCompressionLevel, Resolve(paths, chain).cosiLevel)
    ensures IsLastValue(chain, (c: Config) => if c.iso.Some? then c.iso.value.kdumpBootFiles else None, Resolve(paths, chain).iso.kdumpBootFiles)
    ensures IsLastValue(chain, (c: Config) => if c.pxe.Some? then c.pxe.value.kdumpBootFiles else None, Resolve(paths, chain).pxe.kdumpBootFiles)
  {
    hide StringOf, IsLastValue, ArtifactsOf, StorageOf, ArgsOf, LastSet, FilesOf;
    SameValue(chain, UkiOf, (c: Config) => if c.os.Some? then c.os.value.uki else None);
    SameValue(chain, RemovePackageManagerOf, (c: Config) => if c.os.Some? then c.os.value.removePackageManager else None);
    SameValue(chain, CosiLevelOf, (c: Config) => c.cosiCompressionLevel);
    SameValue(chain, IsoKdumpOf, (c: Config) => if c.iso.Some? then c.iso.value.kdumpBootFiles else None);
    SameValue(chain, PxeKdumpOf, (c: Config) => if c.pxe.Some? then c.pxe.value.kdumpBootFiles else None);
  }

  // ---------------------------------------------------------------------- lists

  // The parts of a list that the configs before, one config and the configs
  // after contribute.
  lemma {:induction false} ConcatSplits<T>(chain: Chain, k: nat, get: ConfigWithBasePath -> seq<T>)
    requires k < |chain|
    ensures Concat(chain, get) == Concat(chain[..k], get) + get(chain[k]) + Concat(chain[k + 1..], get)
  {
    hide Concat;
    assert chain == chain[..k + 1] + chain[k + 1..];
    ConcatAppend(chain[..k + 1], chain[k + 1..], get);
    ConcatStep(chain, k, get);
  }

  lemma NoLists(paths: Paths)
    ensures Resolve(paths, []).osArgs == [] && Resolve(paths, []).iso.extraCommandLine == [] && Resolve(paths, []).pxe.extraCommandLine == []
    ensures Resolve(paths, []).iso.additionalFiles == [] && Resolve(paths, []).pxe.additionalFiles == []
  {
  }

  // The kernel arguments of each config are in their place in the chain.
  lemma KernelArguments(paths: Paths, chain: Chain, k: nat)
    requires k < |chain|
    ensures var before, c, after := Resolve(paths, chain[..k]), chain[k].config, Resolve(paths, chain[k + 1..]);
      Resolve(paths, chain).osArgs == before.osArgs + (if c.os.Some? then c.os.value.extraCommandLine else []) + after.osArgs
    ensures var before, c, after := Resolve(paths, chain[..k]).iso, chain[k].config, Resolve(paths, chain[k + 1..]).iso;
      Resolve(paths, chain).iso.extraCommandLine ==
        before.extraCommandLine + (if c.iso.Some? then c.iso.value.extraCommandLine else []) + after.extraCommandLine
    ensures var before, c, after := Resolve(paths, chain[..k]).pxe, chain[k].config, Resolve(paths, chain[k + 1..]).pxe;
      Resolve(paths, chain).pxe.extraCommandLine ==
        before.extraCommandLine + (if c.pxe.Some? then c.pxe.value.extraCommandLine else []) + after.extraCommandLine
  {
    hide StringOf, ArtifactsOf, StorageOf, LastSet, FilesOf, ArgsOf;
    ArgsSplit(chain, k, OsArgsOf);
    ArgsSplit(chain, k, IsoArgsOf);
    ArgsSplit(chain, k, PxeArgsOf);
  }

  lemma ArgsSplit(chain: Chain, k: nat, get: Config -> seq<string>)
    requires k < |chain|
    ensures ArgsOf(chain, get) == ArgsOf(chain[..k], get) + get(chain[k].config) + ArgsOf(chain[k + 1..], get)
  {
    hide Concat;
    ConcatSplits(chain, k, (c: ConfigWithBasePath) => get(c.config));
  }

  // The same file, with its source found from where the config is.
  predicate IsResolvedFile(paths: Paths, dir: string, f: AdditionalFile, r: AdditionalFile) {
    && r.destination == f.destination && r.content == f.content && r.permissions == f.permissions
    && r.source == if f.source == "" then "" else if f.source[0] == '/' then f.source else paths.join(dir, f.source)
  }

  predicate AreResolvedFiles(paths: Paths, dir: string, files: seq<AdditionalFile>, r: seq<AdditionalFile>) {
    |r| == |files| && forall k :: 0 <= k < |r| ==> IsResolvedFile(paths, dir, files[k], r[k])
  }

  lemma FilesAreResolved(paths: Paths, dir: string, files: seq<AdditionalFile>)
    ensures AreResolvedFiles(paths, dir, files, ResolvedFiles(paths, dir, files))
  {
  }

  lemma FilesSplit(paths: Paths, chain: Chain, k: nat, get: Config -> seq<AdditionalFile>)
    requires k < |chain|
    ensures FilesOf(paths, chain, get) ==
      FilesOf(paths, chain[..k], get) + ResolvedFiles(paths, chain[k].baseConfigPath, get(chain[k].config)) + FilesOf(paths, chain[k + 1..], get)
  {
    hide Concat, ResolvedFiles;
    ConcatSplits(chain, k, (c: ConfigWithBasePath) => ResolvedFiles(paths, c.baseConfigPath, get(c.config)));
  }

  // And so are the additional files, resolved against the config they come from.
  lemma AdditionalFiles(paths: Paths, chain: Chain, k: nat) returns (iso: seq<AdditionalFile>, pxe: seq<AdditionalFile>)
    requires k < |chain|
    ensures Resolve(paths, chain).iso.additionalFiles ==
      Resolve(paths, chain[..k]).iso.additionalFiles + iso + Resolve(paths, chain[k + 1..]).iso.additionalFiles
    ensures Resolve(paths, chain).pxe.additionalFiles ==
      Resolve(paths, chain[..k]).pxe.additionalFiles + pxe + Resolve(paths, chain[k + 1..]).pxe.additionalFiles
    ensures var c := chain[k].config;
      && AreResolvedFiles(paths, chain[k].baseConfigPath, if c.iso.Some? then c.iso.value.additionalFiles else [], iso)
      && AreResolvedFiles(paths, chain[k].baseConfigPath, if c.pxe.Some? then c.pxe.value.additionalFiles else [], pxe)
  {
    hide StringOf, ArtifactsOf, StorageOf, LastSet, FilesOf, ArgsOf, ResolvedFiles, AreResolvedFiles;
    var c := chain[k];
    FilesSplit(paths, chain, k, IsoFilesOf);
    FilesSplit(paths, chain, k, PxeFilesOf);
    iso := ResolvedFiles(paths, c.baseConfigPath, IsoFilesOf(c.config));
    pxe := ResolvedFiles(paths, c.baseConfigPath, PxeFilesOf(c.config));
    FilesAreResolved(paths, c.baseConfigPath, IsoFilesOf(c.config));
    FilesAreResolved(paths, c.baseConfigPath, PxeFilesOf(c.config));
  }

  // ------------------------------------------------------------------ artifacts

  // Every item once, in the order in which they first come.
  ghost predicate ListsOnce(items: seq<string>, r: seq<string>) {
    && (forall x :: x in r <==> x in items)
    && NoDuplicates(r)
    && forall i, j :: 0 <= i < j < |r| ==> ComesFirst(items, r[i], r[j])
  }

  ghost predicate ComesFirst(items: seq<string>, x: string, y: string) {
    exists k :: 0 <= k < |items| && items[k] == x && y !in items[..k]
  }

  lemma {:induction false} DistinctListsOnce(items: seq<string>)
    ensures ListsOnce(items, Distinct(items))
  {
    DistinctItems(items);
    if items == [] {
    } else {
      var n := |items| - 1;
      DistinctListsOnce(items[..n]);
      var d, r := Distinct(items[..n]), Distinct(items);
      forall i, j | 0 <= i < j < |r| ensures ComesFirst(items, r[i], r[j]) {
        if j < |d| {
          ComesFirstStill(items, n, r[i], r[j]);
        } else {
          assert r[i] in items[..n];
          var k :| 0 <= k < n && items[..n][k] == r[i];
          assert items[..k] == items[..n][..k] && items[k] == r[i];
          assert r[j] !in items[..n];
        }
      }
    }
  }

  lemma ComesFirstStill(items: seq<string>, n: nat, x: string, y: string)
    requires n <= |items| && ComesFirst(items[..n], x, y)
    ensures ComesFirst(items, x, y)
  {
    var k :| 0 <= k < n && items[..n][k] == x && y !in items[..n][..k];
    assert items[k] == x && items[..n][..k] == items[..k];
  }

  lemma MergedListsOnce(base: seq<string>, current: seq<string>)
    ensures ListsOnce(base + current, MergedTypes(base, current))
  {
    DistinctListsOnce(base + current);
  }

  // All the items of a chain, with their repetitions.
  function AllItems(chain: Chain): seq<string> {
    if chain == [] then []
    else
      var last := chain[|chain| - 1].config.artifacts;
      AllItems(chain[..|chain| - 1]) + if last.Some? then last.value.items else []
  }

  // The path of the last config that has one.
  predicate IsArtifactPath(paths: Paths, c: ConfigWithBasePath, path: string) {
    && c.config.artifacts.Some? && c.config.artifacts.value.path != ""
    && path == if c.config.artifacts.value.path[0] == '/' then c.config.artifacts.value.path
               else paths.join(c.baseConfigPath, c.config.artifacts.value.path)
  }

  predicate SaysNoPath(c: ConfigWithBasePath) {
    c.config.artifacts.Some? ==> c.config.artifacts.value.path == ""
  }

  ghost predicate IsLastPath(paths: Paths, chain: Chain, path: string) {
    || (path == "" && forall k :: 0 <= k < |chain| ==> SaysNoPath(chain[k]))
    || exists k :: 0 <= k < |chain| && IsArtifactPath(paths, chain[k], path) && forall j :: k < j < |chain| ==> SaysNoPath(chain[j])
  }

  lemma LastPathStep(paths: Paths, chain: Chain, path: string)
    requires chain != []
    ensures IsArtifactPath(paths, chain[|chain| - 1], path) ==> IsLastPath(paths, chain, path)
    ensures SaysNoPath(chain[|chain| - 1]) && IsLastPath(paths, chain[..|chain| - 1], path) ==> IsLastPath(paths, chain, path)
  {
    hide IsArtifactPath, SaysNoPath;
    var n := |chain| - 1;
    if IsArtifactPath(paths, chain[n], path) {
      assert IsLastPath(paths, chain, path);
    } else if SaysNoPath(chain[n]) && IsLastPath(paths, chain[..n], path) {
      assert forall k :: 0 <= k < n ==> chain[..n][k] == chain[k];
      if k :| 0 <= k < n && IsArtifactPath(paths, chain[..n][k], path) && forall j :: k < j < n ==> SaysNoPath(chain[..n][j]) {
        assert IsArtifactPath(paths, chain[k], path) && forall j :: k < j < |chain| ==> SaysNoPath(chain[j]);
      }
    }
  }

  ghost predicate ArtifactsAre(paths: Paths, chain: Chain, r: Option<Artifacts>) {
    && (r.None? <==> forall k :: 0 <= k < |chain| ==> chain[k].config.artifacts.None?)
    && (r.Some? ==> r.value.items == Distinct(AllItems(chain)) && IsLastPath(paths, chain, r.value.path))
    && (r.None? ==> AllItems(chain) == [] && IsLastPath(paths, chain, ""))
  }

  lemma {:induction false} ArtifactsOfChain(paths: Paths, chain: Chain)
    ensures ArtifactsAre(paths, chain, ArtifactsOf(paths, chain))
  {
    hide Distinct, IsLastPath;
    if chain == [] {
      NoPaths(paths);
    } else {
      var n := |chain| - 1;
      ArtifactsOfChain(paths, chain[..n]);
      assert forall k :: 0 <= k < n ==> chain[..n][k] == chain[k];
      var before := ArtifactsOf(paths, chain[..n]);
      if chain[n].config.artifacts.Some? {
        ItemsGrow(AllItems(chain[..n]), chain[n].config.artifacts.value.items);
        LastPathStep(paths, chain, WithArtifacts(paths, before, chain[n]).value.path);
      } else {
        assert AllItems(chain[..n]) + [] == AllItems(chain[..n]);
        LastPathStep(paths, chain, if before.Some? then before.value.path else "");
      }
    }
  }

  lemma NoPaths(paths: Paths)
    ensures IsLastPath(paths, [], "")
  {
  }

  lemma ItemsGrow(a: seq<string>, b: seq<string>)
    ensures MergedTypes(Distinct(a), b) == Distinct(a + b)
    ensures MergedTypes([], b) == Distinct([] + b)
  {
    DistinctFront(a, b);
  }

  // There are artifacts if some config has any: all their items, once each in
  // order, under the last path.
  lemma ArtifactsMean(paths: Paths, chain: Chain)
    ensures var r := Resolve(paths, chain).artifacts;
      && (r.Some? <==> exists k :: 0 <= k < |chain| && chain[k].config.artifacts.Some?)
      && (r.Some? ==> ListsOnce(AllItems(chain), r.value.items) && IsLastPath(paths, chain, r.value.path))
  {
    ArtifactsOfChain(paths, chain);
    DistinctListsOnce(AllItems(chain));
    hide Distinct, IsLastPath, ListsOnce, ArtifactsOf, IsoOf, PxeOf, StringOf, LastSet, StorageOf, ArgsOf;
  }
}
