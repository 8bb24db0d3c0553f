// What the arguments of an options value are, and which of them have a name: in
// terms of the text alone.
module BlsNames {
  import opened BlsArgs
  import opened BlsUpdate

  // ------------------------------------------------------- names and values

  // The name of an argument is what stands before its first '=', or all of it.
  predicate HasName(tok: string, name: string) {
    '=' !in name && (tok == name || name + "=" <= tok)
  }

  lemma ArgIs(tok: string, name: string)
    requires '=' !in name
    ensures tok == name ==> ArgOf(tok) == Arg(tok, name, "")
    ensures name + "=" <= tok ==> ArgOf(tok) == Arg(tok, name, tok[|name| + 1..])
  {
    if name + "=" <= tok {
      assert tok[..|name|] == (name + "=")[..|name|] == name;
      assert forall k :: 0 <= k < |name| ==> tok[k] == name[k];
      assert tok[|name|] == (name + "=")[|name|];
      IndexIs(tok, |name|);
    } else if tok == name {
      IndexIs(tok, |name|);
    }
  }

  lemma IndexIs(tok: string, n: nat)
    requires n <= |tok| && (n < |tok| ==> tok[n] == '=') && forall k :: 0 <= k < n ==> tok[k] != '='
    ensures ArgOf(tok) == if n < |tok| then Arg(tok, tok[..n], tok[n + 1..]) else Arg(tok, tok, "")
  {
    IndexUnique(tok, n);
  }

  lemma NameOf(tok: string)
    ensures HasName(tok, ArgOf(tok).name)
  {
    var n := |ArgOf(tok).name|;
    if n < |tok| {
      assert tok[..n] + "=" == tok[..n + 1];
    }
  }

  // An argument has exactly one name.
  lemma NameMeans(tok: string, name: string)
    ensures HasName(tok, name) <==> ArgOf(tok).name == name
  {
    NameOf(tok);
    if HasName(tok, name) {
      ArgIs(tok, name);
    }
    hide ArgOf;
  }

  // A name and a value, or a name alone, are parsed as such.
  lemma NameAndValue(name: string, value: string)
    requires '=' !in name
    ensures ArgsOf([name + ("=" + value)]) == [Arg(name + ("=" + value), name, value)]
    ensures ArgsOf([name]) == [Arg(name, name, "")]
  {
    var tok := name + ("=" + value);
    assert tok == (name + "=") + value;
    assert tok[|name| + 1..] == value;
    ArgIs(tok, name);
    ArgIs(name, name);
    hide ArgOf;
  }

  // ------------------------------------------------------ what is removed

  predicate IsRemoved(tok: string, remove: seq<string>) {
    exists k :: 0 <= k < |remove| && HasName(tok, remove[k])
  }

  // The arguments without a removed name, in order.
  function Staying(toks: seq<string>, remove: seq<string>): seq<string> {
    if toks == [] then []
    else Staying(toks[..|toks| - 1], remove) + if IsRemoved(toks[|toks| - 1], remove) then [] else [toks[|toks| - 1]]
  }

  lemma RemovedMeans(tok: string, remove: seq<string>)
    ensures ArgOf(tok).name in remove <==> IsRemoved(tok, remove)
  {
    hide ArgOf, HasName;
    NameOf(tok);
    forall k | 0 <= k < |remove| ensures HasName(tok, remove[k]) <==> ArgOf(tok).name == remove[k] {
      NameMeans(tok, remove[k]);
    }
  }

  lemma {:induction false} StayingCons(tok: string, rest: seq<string>, remove: seq<string>)
    ensures Staying([tok] + rest, remove) == (if IsRemoved(tok, remove) then [] else [tok]) + Staying(rest, remove)
    decreases |rest|
  {
    hide *;
    var first: seq<string> := if IsRemoved(tok, remove) then [] else [tok];
    StayingNone(remove);
    if rest == [] {
      StayingLast([], tok, remove);
      assert [] + [tok] == [tok] + rest && [] + first == first + [];
    } else {
      var n := |rest| - 1;
      var last: seq<string> := if IsRemoved(rest[n], remove) then [] else [rest[n]];
      StayingCons(tok, rest[..n], remove);
      StayingLast([tok] + rest[..n], rest[n], remove);
      StayingLast(rest[..n], rest[n], remove);
      assert rest == rest[..n] + [rest[n]] && [tok] + rest[..n] + [rest[n]] == [tok] + rest;
      Joined3(first, Staying(rest[..n], remove), last);
    }
  }

  lemma StayingLast(front: seq<string>, tok: string, remove: seq<string>)
    ensures Staying(front + [tok], remove) == Staying(front, remove) + if IsRemoved(tok, remove) then [] else [tok]
  {
    hide IsRemoved;
    var all := front + [tok];
    assert all[..|all| - 1] == front && all[|all| - 1] == tok;
  }

  lemma Joined3(a: seq<string>, b: seq<string>, c: seq<string>)
    ensures a + b + c == a + (b + c)
  {
  }

  // Removing drops exactly the arguments that are, or begin with "=" behind, a
  // removed name.
  lemma {:induction false} KeptAre(toks: seq<string>, remove: seq<string>)
    ensures Kept(toks, remove) == Staying(toks, remove)
  {
    hide ArgOf, IsRemoved, Staying;
    if toks == [] {
      StayingNone(remove);
    } else {
      KeptAre(toks[1..], remove);
      RemovedMeans(toks[0], remove);
      StayingCons(toks[0], toks[1..], remove);
      assert toks == [toks[0]] + toks[1..];
    }
  }

  lemma StayingNone(remove: seq<string>)
    ensures Staying([], remove) == []
  {
  }

  // ------------------------------------------------- the text of a value

  // A stretch of an argument, as it stands or in double quotes.
  datatype Chunk = Open(text: string) | Grouped(text: string)

  predicate IsChunk(c: Chunk) {
    && '"' !in c.text
    && (c.Open? ==> ' ' !in c.text && '\t' !in c.text)
  }

  predicate AreChunks(chunks: seq<Chunk>) {
    forall k :: 0 <= k < |chunks| ==> IsChunk(chunks[k])
  }

  function ChunkText(c: Chunk): string {
    if c.Open? then c.text else "\"" + c.text + "\""
  }

  function ChunksText(chunks: seq<Chunk>): string {
    if chunks == [] then "" else ChunkText(chunks[0]) + ChunksText(chunks[1..])
  }

  function ChunksMean(chunks: seq<Chunk>): string {
    if chunks == [] then "" else chunks[0].text + ChunksMean(chunks[1..])
  }

  // An argument and the blanks behind it.
  datatype Spaced = Spaced(chunks: seq<Chunk>, gap: string)

  predicate IsGap(gap: string) {
    forall k :: 0 <= k < |gap| ==> gap[k] == ' ' || gap[k] == '\t'
  }

  // Blanks separate any two arguments.
  predicate AreSpaced(args: seq<Spaced>) {
    forall k :: 0 <= k < |args| ==>
      AreChunks(args[k].chunks) && IsGap(args[k].gap) && (k + 1 < |args| ==> args[k].gap != "")
  }

  function SpacedText(args: seq<Spaced>): string {
    if args == [] then "" else ChunksText(args[0].chunks) + (args[0].gap + SpacedText(args[1..]))
  }

  // The arguments, without those that are nothing but quotes.
  function SpacedMean(args: seq<Spaced>): seq<string> {
    if args == [] then []
    else (if ChunksMean(args[0].chunks) == "" then [] else [ChunksMean(args[0].chunks)]) + SpacedMean(args[1..])
  }

  lemma TextAssoc(a: string, b: string, c: string)
    ensures a + b + c == a + (b + c)
  {
  }

  lemma {:induction false} ChunksAreSplit(chunks: seq<Chunk>, rest: string, cur: string)
    requires AreChunks(chunks)
    ensures Split(ChunksText(chunks) + rest, cur, false) == Split(rest, cur + ChunksMean(chunks), false)
    decreases |chunks|
  {
    hide Split;
    if chunks == [] {
      assert "" + rest == rest && cur + "" == cur;
    } else {
      var c, more := chunks[0], ChunksText(chunks[1..]) + rest;
      assert IsChunk(c);
      TextAssoc(ChunkText(c), ChunksText(chunks[1..]), rest);
      TextAssoc(cur, c.text, ChunksMean(chunks[1..]));
      if c.Open? {
        OpenIsSplit(c.text, more, cur);
      } else {
        GroupedIsSplit(c.text, more, cur);
      }
      ChunksAreSplit(chunks[1..], rest, cur + c.text);
    }
  }

  lemma OpenIsSplit(x: string, rest: string, cur: string)
    requires '"' !in x && ' ' !in x && '\t' !in x
    ensures Split(x + rest, cur, false) == Split(rest, cur + x, false)
  {
    hide Split;
    SplitPlain(x, rest, cur);
  }

  lemma GroupedIsSplit(x: string, rest: string, cur: string)
    requires '"' !in x
    ensures Split("\"" + x + "\"" + rest, cur, false) == Split(rest, cur + x, false)
  {
    var t := "\"" + x + "\"" + rest;
    assert t[1..] == x + ("\"" + rest);
    SplitQuoted(x, rest, cur);
  }

  lemma {:induction false} GapIsSplit(gap: string, rest: string, cur: string)
    requires IsGap(gap) && (gap == "" ==> cur == "")
    ensures Split(gap + rest, cur, false) == Flush(cur) + Split(rest, "", false)
  {
    var t := gap + rest;
    if gap == "" {
      assert t == rest && Flush(cur) + Split(rest, "", false) == Split(rest, "", false);
    } else {
      assert t[1..] == gap[1..] + rest;
      GapIsSplit(gap[1..], rest, "");
      assert [] + Split(rest, "", false) == Split(rest, "", false);
    }
  }

  // A value is split at its blanks, but for those within double quotes, and loses
  // its double quotes.
  lemma {:induction false} ValueMeans(args: seq<Spaced>)
    requires AreSpaced(args)
    ensures OptionTokens(SpacedText(args)) == SpacedMean(args)
  {
    hide Split, ChunksText, ChunksMean, AreChunks, IsGap;
    if args == [] {
      NothingSplit("");
    } else {
      var a, more := args[0], SpacedText(args[1..]);
      var mean := ChunksMean(a.chunks);
      ChunksAreSplit(a.chunks, a.gap + more, "");
      assert "" + mean == mean;
      if |args| == 1 {
        LastIsSplit(a.gap, mean);
        assert SpacedMean(args[1..]) == [] && a.gap + "" == a.gap;
      } else {
        GapIsSplit(a.gap, more, mean);
        ValueMeans(args[1..]);
      }
      FlushIs(mean);
    }
  }

  lemma NothingSplit(cur: string)
    ensures Split("", cur, false) == Flush(cur)
    ensures Flush("") == []
  {
  }

  lemma FlushIs(cur: string)
    ensures Flush(cur) == if cur == "" then [] else [cur]
  {
  }

  lemma LastIsSplit(gap: string, cur: string)
    requires IsGap(gap)
    ensures Split(gap, cur, false) == Flush(cur)
  {
    hide IsGap;
    NothingSplit(cur);
    NothingSplit("");
    if gap != "" {
      GapIsSplit(gap, "", cur);
      assert gap + "" == gap && Flush(cur) + [] == Flush(cur);
    }
  }

  // The blanks before the first argument do not count.
  lemma LeadingBlanks(lead: string, args: seq<Spaced>)
    requires IsGap(lead) && AreSpaced(args)
    ensures OptionTokens(lead + SpacedText(args)) == SpacedMean(args)
  {
    hide Split, SpacedText, SpacedMean, AreSpaced, IsGap;
    GapIsSplit(lead, SpacedText(args), "");
    ValueMeans(args);
    NothingSplit("");
    assert [] + SpacedMean(args) == SpacedMean(args);
  }
}
