// What a whole file says, line by line: which variables it assigns, and what.
module GrubFiles {
  import opened GrubTokens
  import opened Wrappers
  import opened DefaultGrub
  import opened GrubAssignments
  import opened GrubWords
  import opened GrubLocality

  // ------------------------------------------------------------- the grammar

  // A word with the blanks behind it: an assignment, or any other word.
  datatype Element = Assign(name: string, value: seq<Segment>) | Other(word: seq<Segment>)

  datatype Gapped = Gapped(element: Element, gap: string)

  // A line: blanks, words, a comment, and what ends it.
  datatype FileLine = FileLine(indent: string, words: seq<Gapped>, remark: Option<string>, end: char)

  predicate IsBlanks(s: string) {
    forall k :: 0 <= k < |s| ==> s[k] == ' ' || s[k] == '\t'
  }

  // The unquoted runes of a key.
  function Runes(key: string): seq<Loose> {
    if key == "" then [] else [Rune(key[0])] + Runes(key[1..])
  }

  predicate AreRunes(key: string) {
    forall k :: 0 <= k < |key| ==> IsLooseRune(key[k])
  }

  // The word that assigns: a key directly followed by a value.
  function Attached(key: string, value: seq<Segment>): seq<Segment> {
    if value != [] && value[0].Open? then [Open(Runes(key) + value[0].bs)] + value[1..] else [Open(Runes(key))] + value
  }

  function WordOf(e: Element): seq<Segment> {
    match e
    case Assign(name, value) => Attached(name + "=", value)
    case Other(word) => word
  }

  predicate IsElement(e: Element) {
    && IsWord(WordOf(e)) && WordOf(e) != []
    && WordText(WordOf(e))[..1] != "#"
    && (e.Assign? ==> AreRunes(e.name) && '=' !in e.name)
  }

  predicate AreGapped(words: seq<Gapped>) {
    forall k :: 0 <= k < |words| ==> IsElement(words[k].element) && IsBlanks(words[k].gap) && (k + 1 < |words| ==> words[k].gap != "")
  }

  // A line with a single word is an assignment.
  predicate IsLine(l: FileLine) {
    && IsBlanks(l.indent) && AreGapped(l.words)
    && (|l.words| == 1 ==> l.words[0].element.Assign?)
    && (l.remark.Some? ==> '\n' !in l.remark.value && l.end == '\n' && (l.words != [] ==> l.words[|l.words| - 1].gap != ""))
    && (l.end == '\n' || l.end == ';')
  }

  function GappedText(words: seq<Gapped>): string {
    if words == [] then "" else WordText(WordOf(words[0].element)) + (words[0].gap + GappedText(words[1..]))
  }

  function RemarkText(remark: Option<string>): string {
    if remark.Some? then "#" + remark.value else ""
  }

  function LineText(l: FileLine): string {
    l.indent + (GappedText(l.words) + (RemarkText(l.remark) + [l.end]))
  }

  function LineMeans(l: FileLine): Parsed<seq<Pair>> {
    if |l.words| == 1 && l.words[0].element.Assign? then
      match WordMeans(l.words[0].element.value)
      case Err(e) => Err(e)
      case Ok(value) => Ok([(l.words[0].element.name, value)])
    else Ok([])
  }

  function FileText(lines: seq<FileLine>): string {
    if lines == [] then "" else LineText(lines[0]) + FileText(lines[1..])
  }

  function FileMeans(lines: seq<FileLine>): Parsed<seq<Pair>> {
    if lines == [] then Ok([]) else Both(LineMeans(lines[0]), FileMeans(lines[1..]))
  }

  predicate AreLines(lines: seq<FileLine>) {
    forall k :: 0 <= k < |lines| ==> IsLine(lines[k])
  }

  // ------------------------------------------------------------------ items

  // The text lexes, to tokens with these contents.
  predicate Yields(t: string, bares: seq<Bare>) {
    Lex(t).fault.None? && BareItems(Lex(t).items) == bares
  }

  lemma ConsYields(t: string, item: Item, n: nat, bares: seq<Bare>)
    requires t != "" && First(t).0 == item && First(t).1.fault.None? && First(t).1.n == n && Yields(t[n..], bares)
    ensures Yields(t, (if item.Lexeme? then [BareItem(item)] else []) + bares)
  {
    hide First, BareItem;
    LexIs(t);
    var rest := Lex(t[n..]).items;
    assert ([item] + rest)[1..] == rest;
  }

  lemma {:induction false} BlanksYield(blanks: string, rest: string, bares: seq<Bare>)
    requires IsBlanks(blanks) && Yields(rest, bares)
    ensures Yields(blanks + rest, bares)
  {
    hide Yields;
    var t := blanks + rest;
    if blanks == "" {
      assert t == rest;
    } else {
      assert t[1..] == blanks[1..] + rest;
      BlanksYield(blanks[1..], rest, bares);
      ConsYields(t, Space, 1, bares);
      assert [] + bares == bares;
    }
  }

  lemma EndYields(end: char, rest: string, bares: seq<Bare>)
    requires end == '\n' || end == ';'
    requires Yields(rest, bares)
    ensures Yields([end] + rest, [EndOf(end)] + bares)
  {
    hide Yields;
    var t := [end] + rest;
    assert t[1..] == rest;
    ConsYields(t, Lexeme(if end == '\n' then NEWLINE else SEMICOLON, 1, []), 1, bares);
  }

  function EndOf(end: char): Bare {
    Bare.Bare(if end == '\n' then NEWLINE else SEMICOLON, [])
  }

  lemma RemarkYields(text: string, rest: string, bares: seq<Bare>)
    requires '\n' !in text && Yields("\n" + rest, bares)
    ensures Yields("#" + text + ("\n" + rest), bares)
  {
    hide Yields;
    var t := "#" + text + ("\n" + rest);
    assert t[0] == '#' && t[|text| + 1..] == "\n" + rest;
    assert forall k :: 0 <= k < |text| ==> t[k + 1] == text[k];
    assert forall k :: 0 <= k < |text| + 1 ==> t[k] != '\n';
    CommentIs(t, |text| + 1);
    ConsYields(t, Comment(|text| + 1), |text| + 1, bares);
    assert [] + bares == bares;
  }

  lemma {:induction false} CommentIs(t: string, n: nat)
    requires n < |t| && t[n] == '\n' && forall k :: 0 <= k < n ==> t[k] != '\n'
    ensures CommentLen(t) == n
  {
    if n == 0 {
    } else {
      CommentIs(t[1..], n - 1);
    }
  }

  // What a word of the grammar is as a token.
  ghost predicate Spells(b: Bare, word: seq<Segment>) {
    b.kind == WORD && Spell(b.glyphs) == WordMeans(word)
  }

  lemma WordYields(word: seq<Segment>, rest: string, bares: seq<Bare>) returns (b: Bare)
    requires IsWord(word) && word != [] && WordText(word)[..1] != "#" && EndsWord(rest) && Yields(rest, bares)
    ensures Yields(WordText(word) + rest, [b] + bares) && Spells(b, word)
    ensures b == BareItem(Lexeme(WORD, |WordText(word)|, Word(WordText(word) + rest, false).pieces))
  {
    hide *;
    var t := WordText(word) + rest;
    WordReads(word, rest, false);
    var r := Word(t, false);
    ReadsIs(r, |WordText(word)|, WordMeans(word));
    WordBegins(word);
    FirstIsWord(t, WordText(word), rest);
    var item := Lexeme(WORD, r.n, r.pieces);
    b := BareItem(item);
    SpellsIs(item, word);
    ConsYields(t, item, r.n, bares);
  }

  lemma WordBegins(word: seq<Segment>)
    requires IsWord(word) && word != []
    ensures WordText(word) != "" && !EndsWord(WordText(word))
  {
    WordUnfold(word);
    SegmentBegins(word[0], word[1..]);
    hide WordText, SegmentText, IsWord, IsSegment;
  }

  lemma FirstIsWord(t: string, w: string, rest: string)
    requires t == w + rest && w != "" && !EndsWord(w) && w[..1] != "#"
    requires Word(t, false).fault.None? && Word(t, false).n == |w|
    ensures t != "" && First(t).0 == Lexeme(WORD, |w|, Word(t, false).pieces)
    ensures First(t).1.fault.None? && First(t).1.n == |w| && t[|w|..] == rest
  {
    hide Word;
    assert t[0] == w[0] && w[..1] == [w[0]];
  }

  lemma SpellsIs(item: Item, word: seq<Segment>)
    requires item.Lexeme? && item.kind == WORD && SpellPieces(item.pieces) == WordMeans(word)
    ensures Spells(BareItem(item), word)
  {
    hide Spell, WordMeans;
  }

  // ------------------------------------------------------------- assignments

  // An unquoted string is a keyword up to its first backslash.
  lemma {:induction false} KeywordRuns(key: string, more: string, seen: nat, sb: string)
    requires AreRunes(key) && (sb + key != "" && (seen == 0 ==> sb == ""))
    ensures var p := Unquoted(key + more, seen, sb, false).pieces;
      p != [] && p[0].kind == KEYWORD_STRING && sb + key <= p[0].value
    decreases |key|
  {
    hide IsStop;
    var t := key + more;
    if key == "" {
      assert t == more && sb + key == sb;
      KeywordStays(more, seen, sb);
    } else {
      StopsIs(t);
      assert t[0] == key[0] && t[1..] == key[1..] + more;
      assert sb + [key[0]] + key[1..] == sb + key;
      KeywordRuns(key[1..], more, seen + 1, sb + [key[0]]);
    }
  }

  lemma {:induction false} KeywordStays(t: string, seen: nat, sb: string)
    requires sb != "" && seen > 0
    ensures var p := Unquoted(t, seen, sb, false).pieces;
      p != [] && p[0].kind == KEYWORD_STRING && sb <= p[0].value
    decreases |t|
  {
    hide IsStop;
    if t == "" || IsStop(t[0]) || t[0] == '\\' {
    } else {
      KeywordStays(t[1..], seen + 1, sb + [t[0]]);
    }
  }

  lemma {:induction false} RunesAre(key: string)
    ensures LoosesText(Runes(key)) == key && LoosesMean(Runes(key)) == key
    ensures AreRunes(key) ==> AreLoose(Runes(key))
    ensures key != "" ==> Runes(key) != []
  {
    if key == "" {
    } else {
      RunesAre(key[1..]);
      assert Runes(key)[1..] == Runes(key[1..]);
      assert key == [key[0]] + key[1..];
    }
  }

  lemma {:induction false} LoosesAppend(a: seq<Loose>, b: seq<Loose>)
    ensures LoosesText(a + b) == LoosesText(a) + LoosesText(b)
    ensures LoosesMean(a + b) == LoosesMean(a) + LoosesMean(b)
  {
    hide LooseText, LooseMeans;
    if a == [] {
      assert a + b == b && "" + LoosesText(b) == LoosesText(b) && "" + LoosesMean(b) == LoosesMean(b);
    } else {
      LoosesAppend(a[1..], b);
      assert (a + b)[1..] == a[1..] + b && (a + b)[0] == a[0];
      Assoc(LooseText(a[0]), LoosesText(a[1..]), LoosesText(b));
      Assoc(LooseMeans(a[0]), LoosesMean(a[1..]), LoosesMean(b));
    }
  }

  lemma AttachedIs(key: string, value: seq<Segment>)
    ensures WordText(Attached(key, value)) == key + WordText(value)
    ensures WordMeans(Attached(key, value)) == InTurn(Ok(key), WordMeans(value))
  {
    RunesAre(key);
    WordUnfold(Attached(key, value));
    WordUnfold(value);
    hide WordText, WordMeans;
    if value != [] && value[0].Open? {
      LoosesAppend(Runes(key), value[0].bs);
      assert Attached(key, value)[1..] == value[1..];
      Assoc(key, LoosesText(value[0].bs), WordText(value[1..]));
      InTurnIs(Ok(key), Ok(LoosesMean(value[0].bs)), WordMeans(value[1..]));
    } else {
      assert Attached(key, value)[1..] == value;
    }
  }

  lemma AssignReads(e: Element, rest: string, b: Bare)
    requires e.Assign? && IsElement(e) && Spells(b, WordOf(e))
    requires b == BareItem(Lexeme(WORD, |WordText(WordOf(e))|, Word(WordText(WordOf(e)) + rest, false).pieces))
    ensures ReadOne([b]) ==
      match WordMeans(e.value)
      case Err(x) => Err(x)
      case Ok(value) => Ok([(e.name, value)])
  {
    hide *;
    var key := e.name + "=";
    ElementIs(e);
    AttachedIs(key, e.value);
    Assoc(key, WordText(e.value), rest);
    KeyFirst(key, WordText(e.value) + rest);
    var pieces := Word(WordText(WordOf(e)) + rest, false).pieces;
    FirstGlyph(pieces, key, b);
    SpellsMeans(b, WordOf(e));
    ReadKey(b, e.name, WordMeans(e.value));
  }

  lemma SpellsMeans(b: Bare, word: seq<Segment>)
    ensures Spells(b, word) <==> b.kind == WORD && Spell(b.glyphs) == WordMeans(word)
  {
    hide Spell, WordMeans;
  }

  lemma ElementIs(e: Element)
    requires e.Assign? && IsElement(e)
    ensures WordOf(e) == Attached(e.name + "=", e.value) && AreRunes(e.name + "=") && '=' !in e.name
  {
    hide IsWord;
    assert IsLooseRune('=');
  }

  lemma KeyFirst(key: string, more: string)
    requires AreRunes(key) && key != ""
    ensures var p := Word(key + more, false).pieces; p != [] && p[0].kind == KEYWORD_STRING && key <= p[0].value
  {
    var t := key + more;
    assert t[0] == key[0];
    StopsIs(t);
    KeywordRuns(key, more, 0, "");
    assert "" + key == key;
    hide Unquoted, IsStop, IsBreak, AreRunes;
    RunesNoQuote(t[0]);
  }

  lemma RunesNoQuote(c: char)
    requires IsStop(c) == false
    ensures !IsBreak(c) && c != '"' && c != '\'' && c != '$'
  {
  }

  lemma FirstGlyph(pieces: seq<Piece>, key: string, b: Bare)
    requires pieces != [] && pieces[0].kind == KEYWORD_STRING && key <= pieces[0].value
    requires exists n: nat :: b == BareItem(Lexeme(WORD, n, pieces))
    ensures b.glyphs != [] && b.glyphs[0].kind == KEYWORD_STRING && key <= b.glyphs[0].value
  {
  }

  lemma ReadKey(b: Bare, name: string, means: Parsed<string>)
    requires b.glyphs != [] && b.glyphs[0].kind == KEYWORD_STRING && name + "=" <= b.glyphs[0].value
    requires '=' !in name && Spell(b.glyphs) == InTurn(Ok(name + "="), means)
    ensures ReadOne([b]) ==
      match means
      case Err(x) => Err(x)
      case Ok(value) => Ok([(name, value)])
  {
    hide Spell;
    assert b.glyphs[0].value[|name|] == (name + "=")[|name|];
    assert IsVarAssign([b]);
    if means.Ok? {
      var text := name + "=" + means.value;
      assert text[|name|] == '=' && text[..|name|] == name && text[|name| + 1..] == means.value;
      IndexOfIs(text, '=', |name|);
    }
  }

  // --------------------------------------------------------------------- lines

  // A list of words, each followed by blanks.
  lemma {:induction false} GappedYield(words: seq<Gapped>, rest: string, bares: seq<Bare>) returns (bs: seq<Bare>)
    requires AreGapped(words) && Yields(rest, bares)
    requires words != [] && words[|words| - 1].gap == "" ==> EndsWord(rest)
    ensures Yields(GappedText(words) + rest, bs + bares) && |bs| == |words|
    ensures forall k :: 0 <= k < |bs| ==> bs[k].kind == WORD
    ensures |words| == 1 && words[0].element.Assign? ==>
      ReadOne(bs) == match WordMeans(words[0].element.value) case Err(x) => Err(x) case Ok(value) => Ok([(words[0].element.name, value)])
  {
    hide *;
    GappedUnfold(words);
    if words == [] {
      bs := [];
      assert "" + rest == rest && [] + bares == bares;
    } else {
      var w, more := words[0], GappedText(words[1..]) + rest;
      var rest' := GappedYield(words[1..], rest, bares);
      BlanksYield(w.gap, more, rest' + bares);
      GapEnds(words, rest);
      var text := WordText(WordOf(w.element));
      Assoc(text, w.gap + GappedText(words[1..]), rest);
      Assoc(w.gap, GappedText(words[1..]), rest);
      var b := WordYields(WordOf(w.element), w.gap + more, rest' + bares);
      SpellsMeans(b, WordOf(w.element));
      bs := [b] + rest';
      assert [b] + (rest' + bares) == bs + bares;
      if |words| == 1 && w.element.Assign? {
        AssignReads(w.element, w.gap + more, b);
        assert bs == [b];
      }
    }
  }

  lemma GappedUnfold(words: seq<Gapped>)
    ensures words == [] ==> GappedText(words) == ""
    ensures words != [] ==> GappedText(words) == WordText(WordOf(words[0].element)) + (words[0].gap + GappedText(words[1..]))
    ensures words != [] && AreGapped(words) ==>
      && AreGapped(words[1..]) && IsElement(words[0].element) && IsBlanks(words[0].gap)
      && IsWord(WordOf(words[0].element)) && WordOf(words[0].element) != []
      && WordText(WordOf(words[0].element))[..1] != "#"
  {
    hide IsWord, WordText, WordOf;
  }

  // What stands behind a word ends it.
  lemma GapEnds(words: seq<Gapped>, rest: string)
    requires AreGapped(words) && words != [] && (words[|words| - 1].gap == "" ==> EndsWord(rest))
    ensures EndsWord(words[0].gap + (GappedText(words[1..]) + rest))
  {
    hide IsElement, WordText;
    var t := words[0].gap + (GappedText(words[1..]) + rest);
    if words[0].gap == "" {
      assert t == rest;
    } else {
      assert t[0] == words[0].gap[0];
    }
  }

  lemma LineYields(l: FileLine, rest: string, bares: seq<Bare>) returns (bs: seq<Bare>)
    requires IsLine(l) && Yields(rest, bares)
    ensures Yields(LineText(l) + rest, bs + ([EndOf(l.end)] + bares))
    ensures forall k :: 0 <= k < |bs| ==> bs[k].kind == WORD
    ensures ReadOne(bs) == LineMeans(l)
  {
    hide *;
    LineIs(l, rest);
    EndYields(l.end, rest, bares);
    var tail := RemarkText(l.remark) + ([l.end] + rest);
    if l.remark.Some? {
      RemarkYields(l.remark.value, rest, [EndOf(l.end)] + bares);
    } else {
      assert "" + ([l.end] + rest) == [l.end] + rest;
    }
    bs := GappedYield(l.words, tail, [EndOf(l.end)] + bares);
    BlanksYield(l.indent, GappedText(l.words) + tail, bs + ([EndOf(l.end)] + bares));
    LineMeansIs(l, bs);
  }

  lemma LineIs(l: FileLine, rest: string)
    requires IsLine(l)
    ensures LineText(l) + rest == l.indent + (GappedText(l.words) + (RemarkText(l.remark) + ([l.end] + rest)))
    ensures IsBlanks(l.indent) && AreGapped(l.words) && (l.end == '\n' || l.end == ';')
    ensures l.remark.Some? ==> RemarkText(l.remark) == "#" + l.remark.value && '\n' !in l.remark.value && [l.end] == "\n"
    ensures l.remark.None? ==> RemarkText(l.remark) == ""
    ensures l.words != [] && l.words[|l.words| - 1].gap == "" ==> EndsWord(RemarkText(l.remark) + ([l.end] + rest))
  {
    hide GappedText, AreGapped, IsBlanks;
    Assoc(l.indent, GappedText(l.words) + (RemarkText(l.remark) + [l.end]), rest);
    Assoc(GappedText(l.words), RemarkText(l.remark) + [l.end], rest);
    Assoc(RemarkText(l.remark), [l.end], rest);
  }

  lemma LineMeansIs(l: FileLine, bs: seq<Bare>)
    requires IsLine(l) && |bs| == |l.words|
    requires |l.words| == 1 && l.words[0].element.Assign? ==>
      ReadOne(bs) == match WordMeans(l.words[0].element.value) case Err(x) => Err(x) case Ok(value) => Ok([(l.words[0].element.name, value)])
    ensures ReadOne(bs) == LineMeans(l)
  {
    hide WordMeans, AreGapped, Spell;
  }

  lemma LineReads(bs: seq<Bare>, end: Bare, bares: seq<Bare>)
    requires (forall k :: 0 <= k < |bs| ==> bs[k].kind == WORD) && EndsLine(end.kind)
    ensures Read(bs + ([end] + bares)) == Both(ReadOne(bs), Read(bares))
  {
    hide ReadOne, Both;
    var t := bs + ([end] + bares);
    FirstEndIs(t, |bs|);
    assert t[..|bs|] == bs && t[|bs| + 1..] == bares;
  }

  lemma EndOfEnds(end: char)
    ensures EndsLine(EndOf(end).kind)
  {
  }

  lemma {:induction false} FileYields(lines: seq<FileLine>) returns (bares: seq<Bare>)
    requires AreLines(lines)
    ensures Yields(FileText(lines), bares) && Read(bares) == FileMeans(lines)
  {
    hide *;
    FileUnfold(lines);
    if lines == [] {
      bares := [];
      NothingYields();
      ReadNothing();
    } else {
      var rest := FileYields(lines[1..]);
      var bs := LineYields(lines[0], FileText(lines[1..]), rest);
      EndOfEnds(lines[0].end);
      LineReads(bs, EndOf(lines[0].end), rest);
      bares := bs + ([EndOf(lines[0].end)] + rest);
    }
  }

  lemma NothingYields()
    ensures Yields("", [])
  {
  }

  lemma FileUnfold(lines: seq<FileLine>)
    ensures lines == [] ==> FileText(lines) == "" && FileMeans(lines) == Ok([])
    ensures lines != [] ==> FileText(lines) == LineText(lines[0]) + FileText(lines[1..])
    ensures lines != [] ==> FileMeans(lines) == Both(LineMeans(lines[0]), FileMeans(lines[1..]))
    ensures lines != [] && AreLines(lines) ==> IsLine(lines[0]) && AreLines(lines[1..])
  {
    hide IsLine, LineText, LineMeans;
  }

  // The variables that a file assigns, and their values, are what its lines say:
  // a line with one word that begins with an unquoted name and '=' assigns what
  // the segments behind it mean, and all other lines assign nothing.
  lemma FileIsRead(lines: seq<FileLine>)
    requires AreLines(lines)
    ensures Lex(FileText(lines)).fault.None? && Assignments(FileText(lines)) == FileMeans(lines)
  {
    hide *;
    var bares := FileYields(lines);
    YieldsIs(FileText(lines), bares);
    AssignmentsAreRead(FileText(lines));
  }

  lemma YieldsIs(t: string, bares: seq<Bare>)
    ensures Yields(t, bares) <==> Lex(t).fault.None? && BareItems(Lex(t).items) == bares
  {
    hide Lex;
  }
}
