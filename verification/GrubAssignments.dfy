// What the assignments of a file are in terms of its items: a reading that
// knows nothing of locations, and can be taken apart at line ends.
module GrubAssignments {
  import opened FileScanning
  import opened GrubTokens
  import opened Wrappers
  import opened DefaultGrub

  type Pair = (string, string)

  // ---------------------------------------------------------------- reading

  // The index of the first token that ends a line, or the number of tokens.
  function FirstEnd(tokens: seq<Bare>): (n: nat)
    ensures n <= |tokens|
    ensures forall k :: 0 <= k < n ==> !EndsLine(tokens[k].kind)
    ensures n < |tokens| ==> EndsLine(tokens[n].kind)
  {
    if tokens == [] || EndsLine(tokens[0].kind) then 0 else 1 + FirstEnd(tokens[1..])
  }

  function ReadOne(line: seq<Bare>): Parsed<seq<Pair>> {
    AsList(ReadLine(line))
  }

  function AsList(r: Parsed<Option<Pair>>): Parsed<seq<Pair>> {
    match r
    case Err(e) => Err(e)
    case Ok(None) => Ok([])
    case Ok(Some(p)) => Ok([p])
  }

  function Both(a: Parsed<seq<Pair>>, b: Parsed<seq<Pair>>): Parsed<seq<Pair>> {
    if a.Err? then a else if b.Err? then b else Ok(a.value + b.value)
  }

  // The names and values that a list of tokens assigns, line by line.
  function Read(tokens: seq<Bare>): Parsed<seq<Pair>>
    decreases |tokens|
  {
    var n := FirstEnd(tokens);
    if n == |tokens| then ReadOne(tokens)
    else Both(ReadOne(tokens[..n]), Read(tokens[n + 1..]))
  }

  lemma BothAssoc(a: Parsed<seq<Pair>>, b: Parsed<seq<Pair>>, c: Parsed<seq<Pair>>)
    ensures Both(a, Both(b, c)) == Both(Both(a, b), c)
  {
    if a.Ok? && b.Ok? && c.Ok? {
      assert a.value + (b.value + c.value) == a.value + b.value + c.value;
    }
  }

  lemma BothNothing(a: Parsed<seq<Pair>>)
    ensures Both(Ok([]), a) == a && Both(a, Ok([])) == a
  {
    if a.Ok? {
      assert [] + a.value == a.value && a.value + [] == a.value;
    }
  }

  lemma ReadNothing()
    ensures Read([]) == Ok([]) && ReadOne([]) == Ok([])
  {
  }

  // The next token begins a line.
  predicate AtLineStart(tokens: seq<Bare>) {
    tokens == [] || EndsLine(tokens[|tokens| - 1].kind)
  }

  // The previous token is the last of its line.
  predicate AtLineEnd(tokens: seq<Bare>) {
    tokens == [] || EndsLine(tokens[0].kind)
  }

  lemma {:induction false} FirstEndIs(tokens: seq<Bare>, n: nat)
    requires n <= |tokens| && forall k :: 0 <= k < n ==> !EndsLine(tokens[k].kind)
    requires n < |tokens| ==> EndsLine(tokens[n].kind)
    ensures FirstEnd(tokens) == n
  {
    if n == 0 {
    } else {
      FirstEndIs(tokens[1..], n - 1);
    }
  }

  // Whole lines are read independently of what follows.
  lemma {:induction false} ReadAppend(a: seq<Bare>, b: seq<Bare>)
    requires AtLineStart(a)
    ensures Read(a + b) == Both(Read(a), Read(b))
    decreases |a|
  {
    hide ReadOne, Both;
    if a == [] {
      ReadNothing();
      BothNothing(Read(b));
      assert a + b == b;
    } else {
      var n := FirstEnd(a);
      assert n < |a|;
      assert forall k :: 0 <= k < |a| ==> (a + b)[k] == a[k];
      FirstEndIs(a + b, n);
      assert (a + b)[..n] == a[..n] && (a + b)[n + 1..] == a[n + 1..] + b;
      ReadAppend(a[n + 1..], b);
      BothAssoc(ReadOne(a[..n]), Read(a[n + 1..]), Read(b));
    }
  }

  // A token alone on its line.
  lemma ReadAlone(w: Bare, rest: seq<Bare>)
    requires !EndsLine(w.kind) && AtLineEnd(rest)
    ensures Read([w] + rest) == Both(ReadOne([w]), Read(rest))
  {
    hide ReadOne, Both;
    var t := [w] + rest;
    FirstEndIs(t, 1);
    ReadNothing();
    assert t[..1] == [w];
    if rest == [] {
      BothNothing(ReadOne([w]));
      assert t == [w];
    } else {
      assert t[2..] == rest[1..];
      FirstEndIs(rest, 0);
      assert rest[..0] == [];
      BothNothing(Read(rest[1..]));
    }
  }

  lemma ReadBlankLine(e: Bare, rest: seq<Bare>)
    requires EndsLine(e.kind)
    ensures Read([e] + rest) == Read(rest)
  {
    hide ReadOne, Both;
    var t := [e] + rest;
    FirstEndIs(t, 0);
    ReadNothing();
    assert t[..0] == [] && t[1..] == rest;
    BothNothing(Read(rest));
  }

  // ------------------------------------------- the assignments are the reading

  function PairsOf(assigns: seq<VarAssign>): (r: seq<Pair>)
    ensures |r| == |assigns|
    ensures forall k :: 0 <= k < |r| ==> r[k] == (assigns[k].name, assigns[k].value)
  {
    seq(|assigns|, k requires 0 <= k < |assigns| => (assigns[k].name, assigns[k].value))
  }

  function Names(r: Parsed<seq<VarAssign>>): Parsed<seq<Pair>> {
    match r
    case Ok(assigns) => Ok(PairsOf(assigns))
    case Err(e) => Err(e)
  }

  // The index of the token that ends the first line.
  function LineEnd(tokens: seq<Token>): (n: nat)
    ensures n <= |tokens|
    ensures tokens != [] && EndsLine(tokens[0].kind) ==> n == 0
  {
    FirstEnd(BareTokens(tokens))
  }

  lemma LineEndStep(tokens: seq<Token>)
    requires tokens != [] && !EndsLine(tokens[0].kind)
    ensures LineEnd(tokens) == 1 + LineEnd(tokens[1..])
  {
    assert BareTokens(tokens)[1..] == BareTokens(tokens[1..]);
  }

  lemma {:induction false} LinesPeel(tokens: seq<Token>, cur: seq<Token>)
    ensures var n := LineEnd(tokens);
      LinesOf(tokens, cur) ==
        if n == |tokens| then NewLine(cur + tokens, None)
        else NewLine(cur + tokens[..n], Some(tokens[n])) + LinesOf(tokens[n + 1..], [])
    decreases |tokens|
  {
    hide LineEnd, EndsLine, NewLine;
    if tokens == [] {
      assert cur + tokens == cur;
    } else if EndsLine(tokens[0].kind) {
      assert cur + tokens[..0] == cur;
    } else {
      LinesPeel(tokens[1..], cur + [tokens[0]]);
      LineEndStep(tokens);
      var n := LineEnd(tokens);
      assert cur + [tokens[0]] + tokens[1..] == cur + tokens;
      if n < |tokens| {
        assert cur + [tokens[0]] + tokens[1..][..n - 1] == cur + tokens[..n];
        assert tokens[1..][n..] == tokens[n + 1..];
      }
    }
  }

  // The first line's end and the lines after it.
  function FirstLineEnd(tokens: seq<Token>): Option<Token> {
    if LineEnd(tokens) == |tokens| then None else Some(tokens[LineEnd(tokens)])
  }

  function OtherLines(tokens: seq<Token>): seq<Line> {
    if LineEnd(tokens) == |tokens| then [] else LinesOf(tokens[LineEnd(tokens) + 1..], [])
  }

  // What the first line assigns.
  function ReadFirst(tokens: seq<Token>): (r: Parsed<Option<Pair>>)
    ensures r.Ok? && r.value.Some? ==> LineEnd(tokens) == 1
  {
    ReadLine(BareTokens(tokens[..LineEnd(tokens)]))
  }

  // What a line assigns, if anything, before the assignments of other lines.
  function WithFirst(first: Parsed<Option<Pair>>, line: Line, rest: Parsed<seq<VarAssign>>): Parsed<seq<VarAssign>> {
    match first
    case Err(e) => Err(e)
    case Ok(None) => rest
    case Ok(Some(p)) => if |line.tokens| != 1 then rest else Before([VarAssign(line.tokens[0], line, p.0, p.1)], rest)
  }

  // The assignments of the first line, then those of the others.
  lemma AssignsPeel(tokens: seq<Token>)
    ensures AssignsOf(LinesOf(tokens, [])) ==
      WithFirst(ReadFirst(tokens), Line(tokens[..LineEnd(tokens)], FirstLineEnd(tokens)), AssignsOf(OtherLines(tokens)))
  {
    hide LineEnd, LinesOf, ReadLine, AssignsOf, BareTokens, OtherLines, FirstLineEnd, Before;
    LinesFront(tokens);
    var n := LineEnd(tokens);
    if n > 0 {
      AssignsCons(Line(tokens[..n], FirstLineEnd(tokens)), OtherLines(tokens));
    } else {
      EmptyLine(tokens[..n]);
    }
  }

  lemma LinesFront(tokens: seq<Token>)
    ensures var n := LineEnd(tokens);
      LinesOf(tokens, []) ==
        if n == 0 then OtherLines(tokens) else [Line(tokens[..n], FirstLineEnd(tokens))] + OtherLines(tokens)
  {
    hide *;
    LinesPeel(tokens, []);
    LinesAfter(tokens);
    var n := LineEnd(tokens);
    FrontTokens(tokens, n);
    if n == |tokens| {
      LinesAround(Line(tokens[..n], None), []);
    } else {
      LinesAround(Line(tokens[..n], Some(tokens[n])), LinesOf(tokens[n + 1..], []));
    }
  }

  lemma LinesAfter(tokens: seq<Token>)
    ensures var n := LineEnd(tokens);
      && OtherLines(tokens) == (if n == |tokens| then [] else LinesOf(tokens[n + 1..], []))
      && FirstLineEnd(tokens) == (if n == |tokens| then None else Some(tokens[n]))
      && NewLine(tokens[..n], FirstLineEnd(tokens)) == if n == 0 then [] else [Line(tokens[..n], FirstLineEnd(tokens))]
  {
    hide LineEnd, LinesOf;
  }

  lemma FrontTokens(tokens: seq<Token>, n: nat)
    requires n <= |tokens|
    ensures [] + tokens[..n] == tokens[..n] && [] + tokens == tokens
    ensures n == |tokens| ==> tokens[..n] == tokens
  {
  }

  lemma LinesAround(line: Line, rest: seq<Line>)
    ensures [line] + [] == [line] && [] + rest == rest
  {
  }

  lemma AssignsCons(line: Line, rest: seq<Line>)
    ensures AssignsOf([line] + rest) == WithFirst(ReadLine(BareTokens(line.tokens)), line, AssignsOf(rest))
  {
    hide Spell, IndexOf, BareSubWords;
    assert ([line] + rest)[1..] == rest;
  }

  lemma EmptyLine(tokens: seq<Token>)
    requires tokens == []
    ensures ReadLine(BareTokens(tokens)) == Ok(None)
  {
  }

  // The reading takes a file apart the same way.
  lemma ReadPeel(tokens: seq<Token>)
    ensures var n := LineEnd(tokens);
      Read(BareTokens(tokens)) ==
        Both(ReadOne(BareTokens(tokens[..n])), if n == |tokens| then Ok([]) else Read(BareTokens(tokens[n + 1..])))
  {
    hide ReadOne, Both, FirstEnd;
    var bare := BareTokens(tokens);
    var n := LineEnd(tokens);
    assert bare[..n] == BareTokens(tokens[..n]);
    if n < |tokens| {
      assert bare[n + 1..] == BareTokens(tokens[n + 1..]);
    } else {
      assert bare[..n] == bare;
      BothNothing(ReadOne(bare));
    }
  }

  lemma {:induction false} NamesAreRead(tokens: seq<Token>)
    ensures Names(AssignsOf(LinesOf(tokens, []))) == Read(BareTokens(tokens))
    decreases |tokens|
  {
    hide ReadLine, LinesOf, LineEnd, Read, Both, BareTokens, WithFirst, PairsOf;
    PairsNone();
    AssignsPeel(tokens);
    ReadPeel(tokens);
    var n := LineEnd(tokens);
    if n == |tokens| {
    } else {
      NamesAreRead(tokens[n + 1..]);
    }
    var rest := AssignsOf(OtherLines(tokens));
    BothNames(ReadFirst(tokens), Line(tokens[..n], FirstLineEnd(tokens)), rest);
  }

  lemma BothNames(first: Parsed<Option<Pair>>, line: Line, rest: Parsed<seq<VarAssign>>)
    requires first.Ok? && first.value.Some? ==> |line.tokens| == 1
    ensures Names(WithFirst(first, line, rest)) == Both(AsList(first), Names(rest))
  {
    hide PairsOf;
    BothNothing(Names(rest));
    if first.Ok? && first.value.Some? && rest.Ok? {
      PairsCons(VarAssign(line.tokens[0], line, first.value.value.0, first.value.value.1), rest.value);
    }
  }

  lemma PairsNone()
    ensures Names(AssignsOf([])) == Ok([])
  {
  }

  lemma PairsCons(v: VarAssign, rest: seq<VarAssign>)
    ensures PairsOf([v] + rest) == [(v.name, v.value)] + PairsOf(rest)
    ensures PairsOf([]) == []
  {
  }

  // The k-th assignment is a token alone on its line, between the tokens that
  // make the assignments before it and those that make the ones after.
  predicate AssignedBy(tokens: seq<Token>, a: nat, assigns: seq<VarAssign>, k: nat)
    requires a < |tokens| && k < |assigns|
  {
    && assigns[k].token == tokens[a]
    && assigns[k].line == Line([tokens[a]], if a + 1 == |tokens| then None else Some(tokens[a + 1]))
    && AtLineStart(BareTokens(tokens[..a]))
    && AtLineEnd(BareTokens(tokens[a + 1..]))
    && !EndsLine(tokens[a].kind)
    && Read(BareTokens(tokens[..a])) == Ok(PairsOf(assigns[..k]))
    && ReadOne([BareToken(tokens[a])]) == Ok([(assigns[k].name, assigns[k].value)])
    && Read(BareTokens(tokens[a + 1..])) == Ok(PairsOf(assigns[k + 1..]))
  }

  lemma {:induction false} FindAssign(tokens: seq<Token>, assigns: seq<VarAssign>, k: nat) returns (a: nat)
    requires AssignsOf(LinesOf(tokens, [])) == Ok(assigns) && k < |assigns|
    ensures a < |tokens| && AssignedBy(tokens, a, assigns, k)
    decreases |tokens|
  {
    hide ReadLine, AssignsOf, LinesOf, LineEnd, AssignedBy, ReadFirst;
    AssignsPeel(tokens);
    var n := LineEnd(tokens);
    var first := ReadFirst(tokens).value;
    if first.Some? && k == 0 {
      a := 0;
      FirstAssign(tokens, assigns);
    } else {
      assert first.Some? ==> assigns[1..] == AssignsOf(OtherLines(tokens)).value;
      if n == |tokens| {
        NoLines();
        assert false;
      }
      var b := FindAssign(tokens[n + 1..], if first.Some? then assigns[1..] else assigns, if first.Some? then k - 1 else k);
      a := n + 1 + b;
      LaterAssign(tokens, assigns, k, b);
    }
  }

  lemma NoLines()
    ensures AssignsOf([]) == Ok([])
  {
  }

  lemma FirstAssign(tokens: seq<Token>, assigns: seq<VarAssign>)
    requires AssignsOf(LinesOf(tokens, [])) == Ok(assigns)
    requires ReadFirst(tokens).Ok? && ReadFirst(tokens).value.Some?
    ensures |assigns| > 0 && |tokens| > 0 && AssignedBy(tokens, 0, assigns, 0)
  {
    hide ReadLine, AssignsOf, LinesOf, Read;
    AssignsPeel(tokens);
    var bare := BareTokens(tokens);
    ReadNothing();
    assert BareTokens(tokens[..0]) == [] && PairsOf(assigns[..0]) == [];
    assert tokens[..1] == [tokens[0]];
    assert BareTokens(tokens[..1]) == [BareToken(tokens[0])];
    NoLines();
    if |tokens| == 1 {
      assert BareTokens(tokens[1..]) == [];
      assert PairsOf(assigns[1..]) == [];
    } else {
      NamesAreRead(tokens[2..]);
      assert BareTokens(tokens[1..]) == [bare[1]] + BareTokens(tokens[2..]);
      ReadBlankLine(bare[1], BareTokens(tokens[2..]));
      assert assigns[1..] == AssignsOf(OtherLines(tokens)).value;
    }
  }

  lemma LaterAssign(tokens: seq<Token>, assigns: seq<VarAssign>, k: nat, b: nat)
    requires AssignsOf(LinesOf(tokens, [])) == Ok(assigns) && k < |assigns|
    requires ReadFirst(tokens).Ok? && LineEnd(tokens) < |tokens|
    requires ReadFirst(tokens).value.Some? ==> k > 0
    requires var rest := tokens[LineEnd(tokens) + 1..];
      b < |rest| && (if ReadFirst(tokens).value.Some? then AssignedBy(rest, b, assigns[1..], k - 1) else AssignedBy(rest, b, assigns, k))
    ensures AssignedBy(tokens, LineEnd(tokens) + 1 + b, assigns, k)
  {
    hide ReadLine, AssignsOf, LinesOf, LineEnd, Read, BareToken, AtLineStart, AtLineEnd, EndsLine;
    AssignsPeel(tokens);
    var n := LineEnd(tokens);
    var a := n + 1 + b;
    var rest := tokens[n + 1..];
    assert rest[..b] == tokens[n + 1..a] && rest[b + 1..] == tokens[a + 1..];
    ReadFront(tokens, n, a);
    if ReadFirst(tokens).value.Some? {
      assert assigns[1..][..k - 1] == assigns[1..k] && assigns[1..][k..] == assigns[k + 1..];
      assert PairsOf(assigns[..k]) == [PairsOf(assigns)[0]] + PairsOf(assigns[1..k]);
    } else {
      BothNothing(Ok(PairsOf(assigns[..k])));
    }
  }

  lemma ReadFront(tokens: seq<Token>, n: nat, a: nat)
    requires n == LineEnd(tokens) < a <= |tokens|
    ensures Read(BareTokens(tokens[..a])) == Both(ReadOne(BareTokens(tokens[..n])), Read(BareTokens(tokens[n + 1..a])))
    ensures AtLineStart(BareTokens(tokens[n + 1..a])) ==> AtLineStart(BareTokens(tokens[..a]))
  {
    hide ReadOne, Both, Read, AtLineStart;
    var bare := BareTokens(tokens);
    assert bare[..a] == BareTokens(tokens[..a]);
    assert bare[..n] == BareTokens(tokens[..n]);
    assert bare[n + 1..a] == BareTokens(tokens[n + 1..a]);
    ReadFrontBare(bare, n, a);
  }

  lemma ReadFrontBare(bare: seq<Bare>, n: nat, a: nat)
    requires n == FirstEnd(bare) < a <= |bare|
    ensures Read(bare[..a]) == Both(ReadOne(bare[..n]), Read(bare[n + 1..a]))
    ensures AtLineStart(bare[n + 1..a]) ==> AtLineStart(bare[..a])
  {
    hide *;
    FirstEndIs(bare[..a], n);
    TakeParts(bare, n, a);
    ReadFirstLine(bare[..a]);
    SameStart(bare[..a], bare[n + 1..a]);
  }

  lemma ReadFirstLine(t: seq<Bare>)
    requires FirstEnd(t) < |t|
    ensures Read(t) == Both(ReadOne(t[..FirstEnd(t)]), Read(t[FirstEnd(t) + 1..]))
  {
    hide ReadOne, Both, FirstEnd;
  }

  lemma SameStart(t: seq<Bare>, end: seq<Bare>)
    requires |end| < |t| && end == t[|t| - |end|..] && EndsLine(t[|t| - |end| - 1].kind)
    ensures AtLineStart(end) ==> AtLineStart(t)
  {
    hide EndsLine;
  }

  lemma TakeParts(bare: seq<Bare>, n: nat, a: nat)
    requires n < a <= |bare|
    ensures bare[..a][..n] == bare[..n] && bare[..a][n + 1..] == bare[n + 1..a]
  {
  }

  // -------------------------------------------------------------- from items

  function BarePieces(pieces: seq<Piece>): seq<Glyph> {
    if pieces == [] then [] else [Glyph(pieces[0].kind, pieces[0].value)] + BarePieces(pieces[1..])
  }

  function BareItem(item: Item): Bare
    requires item.Lexeme?
  {
    Bare(item.kind, BarePieces(item.pieces))
  }

  function BareItems(items: seq<Item>): seq<Bare> {
    if items == [] then []
    else (if items[0].Lexeme? then [BareItem(items[0])] else []) + BareItems(items[1..])
  }

  lemma {:induction false} BareItemsAppend(a: seq<Item>, b: seq<Item>)
    ensures BareItems(a + b) == BareItems(a) + BareItems(b)
  {
    hide BareItem;
    if a == [] {
      assert a + b == b;
    } else {
      BareItemsAppend(a[1..], b);
      assert (a + b)[1..] == a[1..] + b;
      BareAssoc(if a[0].Lexeme? then [BareItem(a[0])] else [], BareItems(a[1..]), BareItems(b));
    }
  }

  lemma BareAssoc(a: seq<Bare>, b: seq<Bare>, c: seq<Bare>)
    ensures a + (b + c) == a + b + c
  {
  }

  lemma {:induction false} BarePlacePieces(s: string, i: nat, pieces: seq<Piece>)
    ensures BareSubWords(PlacePieces(s, i, pieces)) == BarePieces(pieces)
    decreases |pieces|
  {
    hide SpanOf, Slice;
    if pieces == [] {
    } else {
      BarePlacePieces(s, i + pieces[0].len, pieces[1..]);
      var rest := PlacePieces(s, i + pieces[0].len, pieces[1..]);
      assert ([PlacePiece(s, i, pieces[0])] + rest)[1..] == rest;
    }
  }

  lemma {:induction false} BarePlace(s: string, i: nat, items: seq<Item>)
    ensures BareTokens(Place(s, i, items)) == BareItems(items)
    decreases |items|
  {
    hide SpanOf, Slice;
    if items == [] {
    } else {
      BarePlace(s, i + ItemLen(items[0]), items[1..]);
      var rest := Place(s, i + ItemLen(items[0]), items[1..]);
      if items[0].Lexeme? {
        BarePlacePieces(s, i, items[0].pieces);
        assert BareTokens([PlaceToken(s, i, items[0])] + rest) == [BareItem(items[0])] + BareTokens(rest);
      }
    }
  }

  // The names and values a file assigns.
  function Assignments(content: string): Parsed<seq<Pair>> {
    Names(FindAssigns(content))
  }

  lemma AssignmentsAreRead(content: string)
    requires Lex(content).fault.None?
    ensures Assignments(content) == Read(BareItems(Lex(content).items))
  {
    hide Lex, LinesOf, AssignsOf, Read;
    NamesAreRead(Tokens(content));
    BarePlace(content, 0, Lex(content).items);
  }

  // Where the a-th token comes from.
  lemma {:induction false} PlaceNth(s: string, i: nat, items: seq<Item>, a: nat) returns (m: nat)
    requires a < |Place(s, i, items)|
    ensures m < |items| && items[m].Lexeme?
    ensures var tokens := Place(s, i, items);
      && tokens[a] == PlaceToken(s, i + Extent(items[..m]), items[m])
      && tokens[..a] == Place(s, i, items[..m])
      && tokens[a + 1..] == Place(s, i + Extent(items[..m]) + ItemLen(items[m]), items[m + 1..])
    ensures Extent(items[..m]) + ItemLen(items[m]) + Extent(items[m + 1..]) == Extent(items)
    decreases |items|
  {
    hide *;
    PlaceUnfold(s, i, items);
    ExtentUnfold(items);
    if items[0].Lexeme? && a == 0 {
      m := 0;
      PlaceHead(PlaceToken(s, i, items[0]), Place(s, i + ItemLen(items[0]), items[1..]), items);
      NoItems(s, i);
    } else {
      var b := if items[0].Lexeme? then a - 1 else a;
      var j := PlaceNth(s, i + ItemLen(items[0]), items[1..], b);
      m := j + 1;
      TakeItems(items, j);
      PlaceUnfold(s, i, items[..m]);
      ExtentUnfold(items[..m]);
      PlaceLater(s, i, items, a, b);
    }
  }

  lemma PlaceUnfold(s: string, i: nat, items: seq<Item>)
    ensures Place(s, i, items) ==
      if items == [] then []
      else (if items[0].Lexeme? then [PlaceToken(s, i, items[0])] else []) + Place(s, i + ItemLen(items[0]), items[1..])
  {
    hide PlaceToken, ItemLen;
  }

  lemma ExtentUnfold(items: seq<Item>)
    ensures Extent(items) == if items == [] then 0 else ItemLen(items[0]) + Extent(items[1..])
  {
    hide ItemLen;
  }

  lemma NoItems(s: string, i: nat)
    ensures Place(s, i, []) == [] && Extent([]) == 0
  {
  }

  lemma PlaceHead(token: Token, others: seq<Token>, items: seq<Item>)
    ensures ([token] + others)[..0] == [] && ([token] + others)[1..] == others && ([token] + others)[0] == token
    ensures items[..0] == []
  {
  }

  lemma TakeItems(items: seq<Item>, j: nat)
    requires j + 1 < |items|
    ensures items[..j + 1][1..] == items[1..][..j] && items[..j + 1][0] == items[0]
    ensures items[1..][j + 1..] == items[j + 2..]
  {
  }

  lemma PlaceLater(s: string, i: nat, items: seq<Item>, a: nat, b: nat)
    requires items != [] && b == (if items[0].Lexeme? then a - 1 else a) && a < |Place(s, i, items)|
    requires items[0].Lexeme? ==> a > 0
    ensures var others := Place(s, i + ItemLen(items[0]), items[1..]);
      && b < |others| && Place(s, i, items)[a] == others[b]
      && Place(s, i, items)[a + 1..] == others[b + 1..]
      && Place(s, i, items)[..a] == (if items[0].Lexeme? then [PlaceToken(s, i, items[0])] else []) + others[..b]
  {
    hide *;
    PlaceUnfold(s, i, items);
  }
}
