// What a word of a grub file means, in terms of the runes that it is written
// with: the text of a word is put together from its parts, and lexing it gives
// the meaning of the parts.
module GrubWords {
  import opened GrubTokens
  import opened Wrappers
  import opened DefaultGrub
  import opened GrubAssignments

  // ------------------------------------------------------------- the grammar

  predicate IsNameRune(c: char) {
    'A' <= c <= 'Z' || 'a' <= c <= 'z' || '0' <= c <= '9' || c == '_'
  }

  predicate IsName(name: string) {
    name != "" && forall k :: 0 <= k < |name| ==> IsNameRune(name[k])
  }

  predicate NoNameAhead(ahead: string) {
    ahead == "" || !IsNameRune(ahead[0])
  }

  // Within double quotes: a rune, an escaped rune, a backslash that joins two
  // lines, a backslash that stays, an expansion, and a dollar sign.
  datatype Quote = Plain(c: char) | Escaped(c: char) | Joined | Stays(c: char) | Var(name: string, braced: bool) | Dollar

  predicate IsQuote(q: Quote, ahead: string) {
    match q
    case Plain(c) => c !in "\"\\$"
    case Escaped(c) => c in "\"\\$"
    case Joined => true
    case Stays(c) => c !in "\"\\$\n"
    case Var(name, braced) => IsName(name) && (braced || NoNameAhead(ahead))
    case Dollar => NoNameAhead(ahead) && (ahead == "" || ahead[0] != '{')
  }

  predicate AreQuotes(qs: seq<Quote>) {
    qs == [] || (IsQuote(qs[0], QuotesText(qs[1..])) && AreQuotes(qs[1..]))
  }

  function VarText(name: string, braced: bool): string {
    if braced then "${" + name + "}" else "$" + name
  }

  function QuoteText(q: Quote): string {
    match q
    case Plain(c) => [c]
    case Escaped(c) => ['\\', c]
    case Joined => "\\\n"
    case Stays(c) => ['\\', c]
    case Var(name, braced) => VarText(name, braced)
    case Dollar => "$"
  }

  function QuotesText(qs: seq<Quote>): string {
    if qs == [] then "" else QuoteText(qs[0]) + QuotesText(qs[1..])
  }

  function QuoteMeans(q: Quote): Parsed<string> {
    match q
    case Plain(c) => Ok([c])
    case Escaped(c) => Ok([c])
    case Joined => Ok("")
    case Stays(c) => Ok(['\\', c])
    case Var(name, _) => if name == "kernelopts" then Ok("$kernelopts") else Err(UnexpectedQuotedExpansion(name))
    case Dollar => Ok("$")
  }

  // One after the other; the first error counts.
  function InTurn(a: Parsed<string>, b: Parsed<string>): Parsed<string> {
    if a.Err? then a else if b.Err? then b else Ok(a.value + b.value)
  }

  function QuotesMean(qs: seq<Quote>): Parsed<string> {
    if qs == [] then Ok("") else InTurn(QuoteMeans(qs[0]), QuotesMean(qs[1..]))
  }

  // Outside of quotes: a rune, an escaped rune, and a backslash that joins two
  // lines.
  datatype Loose = Rune(c: char) | Slashed(c: char) | Join

  predicate IsLooseRune(c: char) {
    c !in "{}|&;<>\n \t\"'$\\"
  }

  predicate IsLoose(b: Loose) {
    match b
    case Rune(c) => IsLooseRune(c)
    case Slashed(c) => c != '\n'
    case Join => true
  }

  predicate AreLoose(bs: seq<Loose>) {
    forall k :: 0 <= k < |bs| ==> IsLoose(bs[k])
  }

  function LooseText(b: Loose): string {
    match b
    case Rune(c) => [c]
    case Slashed(c) => ['\\', c]
    case Join => "\\\n"
  }

  function LoosesText(bs: seq<Loose>): string {
    if bs == [] then "" else LooseText(bs[0]) + LoosesText(bs[1..])
  }

  function LooseMeans(b: Loose): string {
    match b
    case Rune(c) => [c]
    case Slashed(c) => [c]
    case Join => ""
  }

  function LoosesMean(bs: seq<Loose>): string {
    if bs == [] then "" else LooseMeans(bs[0]) + LoosesMean(bs[1..])
  }

  // A word is made of quoted and unquoted strings and of expansions.
  datatype Segment = Double(qs: seq<Quote>) | Single(text: string) | Open(bs: seq<Loose>) | Expands(name: string, braced: bool)

  predicate IsSegment(s: Segment, ahead: seq<Segment>) {
    match s
    case Double(qs) => AreQuotes(qs)
    case Single(text) => '\'' !in text
    case Open(bs) => bs != [] && AreLoose(bs) && (ahead == [] || !ahead[0].Open?)
    case Expands(name, braced) => IsName(name) && (braced || NoNameAhead(WordText(ahead)))
  }

  predicate IsWord(word: seq<Segment>) {
    word == [] || (IsSegment(word[0], word[1..]) && IsWord(word[1..]))
  }

  function SegmentText(s: Segment): string {
    match s
    case Double(qs) => "\"" + QuotesText(qs) + "\""
    case Single(text) => "'" + text + "'"
    case Open(bs) => LoosesText(bs)
    case Expands(name, braced) => VarText(name, braced)
  }

  function WordText(word: seq<Segment>): string {
    if word == [] then "" else SegmentText(word[0]) + WordText(word[1..])
  }

  function SegmentMeans(s: Segment): Parsed<string> {
    match s
    case Double(qs) => QuotesMean(qs)
    case Single(text) => Ok(text)
    case Open(bs) => Ok(LoosesMean(bs))
    case Expands(name, _) => Err(UnexpectedExpansion(name))
  }

  function WordMeans(word: seq<Segment>): Parsed<string> {
    if word == [] then Ok("") else InTurn(SegmentMeans(word[0]), WordMeans(word[1..]))
  }

  // A word ends at the end of the text or at one of these runes.
  predicate EndsWord(rest: string) {
    rest == "" || rest[0] in "{}|&;<>\n \t"
  }

  // ---------------------------------------------------------------- spelling

  lemma Assoc(a: string, b: string, c: string)
    ensures a + b + c == a + (b + c)
  {
  }

  lemma OnFrontIs(a: string, b: string, r: Parsed<string>)
    ensures OnFront(a, r) == InTurn(Ok(a), r)
    ensures OnFront(a + b, r) == OnFront(a, OnFront(b, r))
    ensures OnFront("", r) == r
  {
    if r.Ok? {
      Assoc(a, b, r.value);
      assert "" + r.value == r.value;
    }
  }

  lemma InTurnIs(a: Parsed<string>, b: Parsed<string>, c: Parsed<string>)
    ensures InTurn(a, InTurn(b, c)) == InTurn(InTurn(a, b), c)
    ensures InTurn(a, Ok("")) == a
  {
    if a.Ok? {
      assert a.value + "" == a.value;
      if b.Ok? && c.Ok? {
        Assoc(a.value, b.value, c.value);
      }
    }
  }

  // What a list of sub-words spells.
  function SpellPieces(pieces: seq<Piece>): Parsed<string> {
    Spell(BarePieces(pieces))
  }

  lemma SpellCons(p: Piece, rest: seq<Piece>)
    ensures p.kind == STRING || p.kind == KEYWORD_STRING ==> SpellPieces([p] + rest) == OnFront(p.value, SpellPieces(rest))
    ensures p.kind == QUOTED_VAR_EXPANSION ==> SpellPieces([p] + rest) == InTurn(QuoteMeans(Var(p.value, true)), SpellPieces(rest))
    ensures p.kind == VAR_EXPANSION ==> SpellPieces([p] + rest) == Err(UnexpectedExpansion(p.value))
    ensures SpellPieces([]) == Ok("")
  {
    assert ([p] + rest)[1..] == rest;
    var g := Glyph(p.kind, p.value);
    assert BarePieces([p] + rest) == [g] + BarePieces(rest);
    assert ([g] + BarePieces(rest))[1..] == BarePieces(rest);
    assert "$" + KERNEL_OPTS == "$kernelopts";
    OnFrontIs("$kernelopts", "", SpellPieces(rest));
  }

  lemma SpellOne(p: Piece)
    requires p.kind == STRING || p.kind == KEYWORD_STRING
    ensures SpellPieces([p]) == Ok(p.value)
  {
    SpellCons(p, []);
    assert [p] + [] == [p] && p.value + "" == p.value;
  }

  lemma {:induction false} SpellAppend(a: seq<Piece>, b: seq<Piece>)
    ensures SpellPieces(a + b) == InTurn(SpellPieces(a), SpellPieces(b))
  {
    hide SpellPieces;
    if a == [] {
      assert a + b == b;
      SpellNone();
      OnFrontIs("", "", SpellPieces(b));
    } else {
      var p, more := a[0], a[1..];
      assert a == [p] + more && a + b == [p] + (more + b);
      SpellAppend(more, b);
      SpellCons(p, more);
      SpellCons(p, more + b);
      OnFrontIs(p.value, "", SpellPieces(more));
      OnFrontIs(p.value, "", SpellPieces(more + b));
      InTurnIs(Ok(p.value), SpellPieces(more), SpellPieces(b));
      InTurnIs(QuoteMeans(Var(p.value, true)), SpellPieces(more), SpellPieces(b));
    }
  }

  lemma SpellNone()
    ensures SpellPieces([]) == Ok("")
  {
  }

  // ----------------------------------------------------------- double quotes

  lemma BracedExpansion(name: string, ahead: string, kind: SubWordType)
    requires IsName(name)
    ensures Expansion("${" + name + "}" + ahead, kind) == Scan(|name| + 3, [Piece(kind, |name| + 3, name)], None)
  {
    var t := "${" + name + "}" + ahead;
    assert t[2..] == name + ("}" + ahead);
    NameRunes(name, "}" + ahead);
    hide NameLen;
    assert t[2..2 + |name|] == name && t[2 + |name|] == '}';
  }

  lemma OpenExpansion(name: string, ahead: string, kind: SubWordType)
    requires IsName(name) && NoNameAhead(ahead)
    ensures Expansion("$" + name + ahead, kind) == Scan(|name| + 1, [Piece(kind, |name| + 1, name)], None)
  {
    var t := "$" + name + ahead;
    assert t[1] == name[0] && t[1..] == name + ahead;
    NameRunes(name, ahead);
    hide NameLen;
    assert t[1..1 + |name|] == name;
  }

  lemma NameRunes(name: string, ahead: string)
    requires IsName(name) && NoNameAhead(ahead)
    ensures NameLen(name + ahead) == |name|
  {
    var t := name + ahead;
    assert forall k :: 0 <= k < |name| ==> t[k] == name[k];
    hide NameLen;
    NameLenUnique(t, |name|);
  }

  lemma ExpansionOf(name: string, braced: bool, ahead: string, kind: SubWordType)
    requires IsName(name) && (braced || NoNameAhead(ahead))
    ensures VarText(name, braced) + ahead != "" && (VarText(name, braced) + ahead)[0] == '$'
    ensures Expansion(VarText(name, braced) + ahead, kind) ==
      Scan(|VarText(name, braced)|, [Piece(kind, |VarText(name, braced)|, name)], None)
  {
    hide Expansion;
    if braced {
      BracedExpansion(name, ahead, kind);
    } else {
      OpenExpansion(name, ahead, kind);
    }
  }

  lemma DollarAlone(ahead: string, kind: SubWordType)
    requires NoNameAhead(ahead) && (ahead == "" || ahead[0] != '{')
    ensures Expansion("$" + ahead, kind) == Scan(1, [Piece(STRING, 1, "$")], None)
  {
    var t := "$" + ahead;
    assert t[1..] == ahead;
    NameLenUnique(ahead, 0);
    assert t[1..1] == "";
  }

  // The closing quote.
  lemma QuoteCloses(rest: string, seen: nat, sb: string)
    ensures DoubleQuoted("\"" + rest, seen, sb) == Scan(1, [Piece(STRING, seen + 1, sb)], None)
  {
  }

  // One element of a double-quoted string that is no expansion.
  lemma QuoteStep(q: Quote, more: string, seen: nat, sb: string)
    requires IsQuote(q, more) && !q.Var? && !q.Dollar?
    ensures QuoteMeans(q).Ok?
    ensures DoubleQuoted(QuoteText(q) + more, seen, sb) ==
      Skip(|QuoteText(q)|, DoubleQuoted(more, seen + |QuoteText(q)|, sb + QuoteMeans(q).value))
  {
    var t := QuoteText(q) + more;
    if q.Plain? {
      assert t[1..] == more;
    } else {
      assert t[0] == '\\' && t[2..] == more && |t| > 1;
    }
  }

  // An expansion, or a lone dollar sign, ends a sub-word.
  lemma DollarStep(q: Quote, more: string, seen: nat, sb: string)
    requires IsQuote(q, more) && (q.Var? || q.Dollar?)
    ensures DoubleQuoted(QuoteText(q) + more, 0, "") ==
      Then(Scan(|QuoteText(q)|, [DollarPiece(q)], None), DoubleQuoted(more, 0, ""))
    ensures seen > 0 ==>
      DoubleQuoted(QuoteText(q) + more, seen, sb) ==
        Prepend(Piece(STRING, seen, sb), DoubleQuoted(QuoteText(q) + more, 0, ""))
  {
    var t := QuoteText(q) + more;
    if q.Var? {
      ExpansionOf(q.name, q.braced, more, QUOTED_VAR_EXPANSION);
    } else {
      DollarAlone(more, QUOTED_VAR_EXPANSION);
    }
    hide Expansion;
    assert t[0] == '$' && t[|QuoteText(q)|..] == more;
  }

  function DollarPiece(q: Quote): Piece
    requires q.Var? || q.Dollar?
  {
    if q.Var? then Piece(QUOTED_VAR_EXPANSION, |QuoteText(q)|, q.name) else Piece(STRING, 1, "$")
  }

  lemma DollarSpells(q: Quote, rest: seq<Piece>)
    requires q.Var? || q.Dollar?
    ensures SpellPieces([DollarPiece(q)] + rest) == InTurn(QuoteMeans(q), SpellPieces(rest))
  {
    hide SpellPieces;
    SpellCons(DollarPiece(q), rest);
    OnFrontIs("$", "", SpellPieces(rest));
  }

  predicate Reads(r: Scan, n: nat, means: Parsed<string>) {
    r.fault.None? && r.n == n && SpellPieces(r.pieces) == means
  }

  lemma {:induction false} QuotesRead(qs: seq<Quote>, rest: string, seen: nat, sb: string)
    requires AreQuotes(qs) && (seen == 0 ==> sb == "")
    ensures Reads(DoubleQuoted(QuotesText(qs) + ("\"" + rest), seen, sb), |QuotesText(qs)| + 1, OnFront(sb, QuotesMean(qs)))
    decreases |qs|
  {
    hide *;
    QuotesUnfold(qs);
    if qs == [] {
      QuoteCloses(rest, seen, sb);
      assert "" + ("\"" + rest) == "\"" + rest;
      SpellOne(Piece(STRING, seen + 1, sb));
      NothingMore(sb);
      ReadsIs(DoubleQuoted("\"" + rest, seen, sb), 1, Ok(sb));
    } else {
      var q, more := qs[0], QuotesText(qs[1..]) + ("\"" + rest);
      Assoc(QuoteText(q), QuotesText(qs[1..]), "\"" + rest);
      AheadStays(q, QuotesText(qs[1..]), rest);
      if q.Var? || q.Dollar? {
        QuotesRead(qs[1..], rest, 0, "");
        DollarReads(q, more, seen, sb, |QuotesText(qs[1..])| + 1, QuotesMean(qs[1..]));
      } else {
        QuoteStep(q, more, seen, sb);
        QuoteTextLen(q);
        QuotesRead(qs[1..], rest, seen + |QuoteText(q)|, sb + QuoteMeans(q).value);
        OnFrontIs(sb, QuoteMeans(q).value, QuotesMean(qs[1..]));
        OnFrontIs(QuoteMeans(q).value, "", QuotesMean(qs[1..]));
        SkipReads(|QuoteText(q)|, DoubleQuoted(more, seen + |QuoteText(q)|, sb + QuoteMeans(q).value),
          |QuotesText(qs[1..])| + 1, OnFront(sb + QuoteMeans(q).value, QuotesMean(qs[1..])));
      }
    }
  }

  lemma QuotesUnfold(qs: seq<Quote>)
    ensures qs == [] ==> QuotesText(qs) == "" && QuotesMean(qs) == Ok("")
    ensures qs != [] ==> QuotesText(qs) == QuoteText(qs[0]) + QuotesText(qs[1..])
    ensures qs != [] ==> QuotesMean(qs) == InTurn(QuoteMeans(qs[0]), QuotesMean(qs[1..]))
    ensures AreQuotes(qs) && qs != [] ==> IsQuote(qs[0], QuotesText(qs[1..])) && AreQuotes(qs[1..])
  {
    hide IsQuote, QuoteText, QuoteMeans;
  }

  lemma NothingMore(sb: string)
    ensures OnFront(sb, Ok("")) == Ok(sb) && |""| + 1 == 1
  {
    assert sb + "" == sb;
  }

  lemma ReadsIs(r: Scan, n: nat, means: Parsed<string>)
    ensures Reads(r, n, means) <==> r.fault.None? && r.n == n && SpellPieces(r.pieces) == means
  {
  }

  lemma QuoteTextLen(q: Quote)
    ensures |QuoteText(q)| > 0
  {
  }

  lemma AheadStays(q: Quote, ahead: string, rest: string)
    requires IsQuote(q, ahead)
    ensures IsQuote(q, ahead + ("\"" + rest))
  {
  }

  lemma SkipReads(k: nat, r: Scan, n: nat, means: Parsed<string>)
    requires Reads(r, n, means)
    ensures Reads(Skip(k, r), k + n, means)
  {
  }

  lemma DollarReads(q: Quote, more: string, seen: nat, sb: string, n: nat, means: Parsed<string>)
    requires IsQuote(q, more) && (q.Var? || q.Dollar?) && (seen == 0 ==> sb == "")
    requires Reads(DoubleQuoted(more, 0, ""), n, OnFront("", means))
    ensures Reads(DoubleQuoted(QuoteText(q) + more, seen, sb), |QuoteText(q)| + n, OnFront(sb, InTurn(QuoteMeans(q), means)))
  {
    hide IsQuote, DoubleQuoted, SpellPieces, QuoteMeans, QuoteText, DollarPiece, Total;
    DollarStep(q, more, seen, sb);
    var r := DoubleQuoted(more, 0, "");
    DollarSpells(q, r.pieces);
    OnFrontIs("", "", means);
    var all := [DollarPiece(q)] + r.pieces;
    OnFrontIs(sb, "", InTurn(QuoteMeans(q), means));
    if seen > 0 {
      SpellCons(Piece(STRING, seen, sb), all);
    } else {
      OnFrontIs("", "", InTurn(QuoteMeans(q), means));
    }
  }

  // Without expansions, a double-quoted string is a single sub-word.
  predicate NoDollars(qs: seq<Quote>) {
    forall k :: 0 <= k < |qs| ==> !qs[k].Var? && !qs[k].Dollar?
  }

  lemma {:induction false} QuotesAreOnePiece(qs: seq<Quote>, rest: string, seen: nat, sb: string)
    requires AreQuotes(qs) && NoDollars(qs)
    ensures QuotesMean(qs).Ok?
    ensures DoubleQuoted(QuotesText(qs) + ("\"" + rest), seen, sb) ==
      Scan(|QuotesText(qs)| + 1, [Piece(STRING, seen + |QuotesText(qs)| + 1, sb + QuotesMean(qs).value)], None)
    decreases |qs|
  {
    hide IsQuote, QuoteText, QuoteMeans, DoubleQuoted;
    if qs == [] {
      QuoteCloses(rest, seen, sb);
      assert "" + ("\"" + rest) == "\"" + rest && sb + "" == sb;
    } else {
      var q, more := qs[0], QuotesText(qs[1..]) + ("\"" + rest);
      Assoc(QuoteText(q), QuotesText(qs[1..]), "\"" + rest);
      AheadStays(q, QuotesText(qs[1..]), rest);
      QuoteStep(q, more, seen, sb);
      QuotesAreOnePiece(qs[1..], rest, seen + |QuoteText(q)|, sb + QuoteMeans(q).value);
      Assoc(sb, QuoteMeans(q).value, QuotesMean(qs[1..]).value);
    }
  }

  // For every double-quoted text without expansions: one word with one string
  // sub-word. A backslash before a dollar sign, a double quote or a backslash goes,
  // one before a newline goes with it, and any other stays.
  lemma DoubleQuotedMeans(qs: seq<Quote>)
    requires AreQuotes(qs) && NoDollars(qs)
    ensures QuotesMean(qs).Ok?
    ensures var t := "\"" + QuotesText(qs) + "\"";
      Lex(t) == Lexed([Lexeme(WORD, |t|, [Piece(STRING, |t|, QuotesMean(qs).value)])], None)
  {
    hide *;
    QuotesAreOnePiece(qs, "", 1, "");
    assert "" + QuotesMean(qs).value == QuotesMean(qs).value;
    var x, p := QuotesText(qs), [Piece(STRING, |QuotesText(qs)| + 2, QuotesMean(qs).value)];
    assert "\"" + x + "\"" == "\"" + (x + ("\"" + ""));
    OnePart(x + ("\"" + ""), p);
  }

  // A string in double quotes is a word of its own.
  lemma OnePart(inside: string, p: seq<Piece>)
    requires DoubleQuoted(inside, 1, "") == Scan(|inside|, p, None)
    ensures Lex("\"" + inside) == Lexed([Lexeme(WORD, 1 + |inside|, p)], None)
  {
    hide DoubleQuoted;
    var t := "\"" + inside;
    assert t[1..] == inside;
    assert Part(t, false) == Scan(|t|, p, None);
    assert t[|t|..] == "" && p + [] == p;
    assert Word(t, false) == Scan(|t|, p, None);
  }

  // Every text is of this form, up to its first quote or expansion (or a
  // backslash at its very end).
  lemma {:induction false} EveryText(t: string) returns (qs: seq<Quote>, rest: string)
    ensures AreQuotes(qs) && NoDollars(qs) && t == QuotesText(qs) + rest
    ensures rest == "" || rest == "\\" || rest[0] == '"' || rest[0] == '$'
    decreases |t|
  {
    if t == "" || t == "\\" || t[0] == '"' || t[0] == '$' {
      qs, rest := [], t;
      assert t == "" + t;
    } else {
      var q := FirstQuote(t);
      var more;
      hide *;
      more, rest := EveryText(t[|QuoteText(q)|..]);
      qs := [q] + more;
      assert qs[1..] == more;
      QuotesUnfold(qs);
      OneMoreQuote(q, more);
      Assoc(QuoteText(q), QuotesText(more), rest);
    }
  }

  lemma FirstQuote(t: string) returns (q: Quote)
    requires t != "" && t != "\\" && t[0] != '"' && t[0] != '$'
    ensures !q.Var? && !q.Dollar? && forall ahead :: IsQuote(q, ahead)
    ensures 0 < |QuoteText(q)| <= |t| && t == QuoteText(q) + t[|QuoteText(q)|..]
  {
    q := if t[0] != '\\' then Plain(t[0]) else if t[1] in "\"\\$" then Escaped(t[1]) else if t[1] == '\n' then Joined else Stays(t[1]);
  }

  lemma OneMoreQuote(q: Quote, more: seq<Quote>)
    requires (forall ahead :: IsQuote(q, ahead)) && !q.Var? && !q.Dollar? && AreQuotes(more) && NoDollars(more)
    ensures AreQuotes([q] + more) && NoDollars([q] + more)
  {
    hide IsQuote;
    assert ([q] + more)[1..] == more;
  }

  // ---------------------------------------------------------- other strings

  lemma {:induction false} SingleReads(text: string, rest: string, seen: nat, sb: string)
    requires '\'' !in text
    ensures SingleQuoted(text + ("'" + rest), seen, sb) ==
      Scan(|text| + 1, [Piece(STRING, seen + |text| + 1, sb + text)], None)
    decreases |text|
  {
    var t := text + ("'" + rest);
    if text == "" {
      assert t == "'" + rest && sb + "" == sb;
    } else {
      assert t[0] == text[0] && t[1..] == text[1..] + ("'" + rest);
      assert [text[0]] + text[1..] == text;
      SingleReads(text[1..], rest, seen + 1, sb + [text[0]]);
      Assoc(sb, [text[0]], text[1..]);
    }
  }

  // What ends an unquoted string.
  predicate Stops(rest: string) {
    rest == "" || rest[0] in "{}|&;<>\n \t\"'$"
  }

  lemma StopsIs(rest: string)
    ensures Stops(rest) <==> rest == "" || IsStop(rest[0])
    ensures EndsWord(rest) <==> rest == "" || IsBreak(rest[0])
    ensures rest != "" && IsLooseRune(rest[0]) ==> !IsStop(rest[0]) && rest[0] != '\\'
    ensures !IsStop('\\')
  {
  }

  lemma LooseStep(b: Loose, more: string, seen: nat, sb: string, notFirst: bool)
    requires IsLoose(b) && (b.Rune? || notFirst)
    ensures Unquoted(LooseText(b) + more, seen, sb, notFirst) ==
      Skip(|LooseText(b)|, Unquoted(more, seen + |LooseText(b)|, sb + LooseMeans(b), notFirst))
    ensures |LooseText(b)| > 0
  {
    var t := LooseText(b) + more;
    StopsIs(t);
    hide IsStop;
    if b.Rune? {
      assert t[1..] == more;
    } else {
      assert t[2..] == more && |t| > 1;
      assert b.Join? ==> sb + "" == sb;
    }
  }

  // The first backslash ends a keyword.
  lemma KeywordEnds(b: Loose, more: string, seen: nat, sb: string)
    requires IsLoose(b) && !b.Rune?
    ensures var t := LooseText(b) + more;
      Unquoted(t, seen, sb, false) ==
        if seen == 0 then Unquoted(t, 0, "", true) else Prepend(Piece(KEYWORD_STRING, seen, sb), Unquoted(t, 0, "", true))
  {
    StopsIs(LooseText(b) + more);
    hide IsStop;
  }

  lemma LooseEnds(rest: string, seen: nat, sb: string, notFirst: bool)
    requires Stops(rest)
    ensures Reads(Unquoted(rest, seen, sb, notFirst), 0, Ok(sb))
  {
    StopsIs(rest);
    hide IsStop;
    SpellOne(Piece(if notFirst then STRING else KEYWORD_STRING, seen, sb));
  }

  lemma {:induction false} LooseReads(bs: seq<Loose>, rest: string, seen: nat, sb: string, notFirst: bool)
    requires AreLoose(bs) && Stops(rest) && (seen == 0 ==> sb == "")
    ensures Reads(Unquoted(LoosesText(bs) + rest, seen, sb, notFirst), |LoosesText(bs)|, Ok(sb + LoosesMean(bs)))
    decreases |bs|, !notFirst
  {
    hide *;
    LoosesUnfold(bs);
    if bs == [] {
      LooseEnds(rest, seen, sb, notFirst);
      assert "" + rest == rest && sb + "" == sb;
    } else {
      var b, more := bs[0], LoosesText(bs[1..]) + rest;
      Assoc(LooseText(b), LoosesText(bs[1..]), rest);
      Assoc(sb, LooseMeans(b), LoosesMean(bs[1..]));
      if notFirst || b.Rune? {
        LooseStep(b, more, seen, sb, notFirst);
        LooseReads(bs[1..], rest, seen + |LooseText(b)|, sb + LooseMeans(b), notFirst);
        SkipReads(|LooseText(b)|, Unquoted(more, seen + |LooseText(b)|, sb + LooseMeans(b), notFirst),
          |LoosesText(bs[1..])|, Ok(sb + LooseMeans(b) + LoosesMean(bs[1..])));
      } else {
        LooseReads(bs, rest, 0, "", true);
        KeywordReads(b, more, seen, sb, |LoosesText(bs)|, LoosesMean(bs));
      }
    }
  }

  lemma LoosesUnfold(bs: seq<Loose>)
    ensures bs == [] ==> LoosesText(bs) == "" && LoosesMean(bs) == ""
    ensures bs != [] ==> LoosesText(bs) == LooseText(bs[0]) + LoosesText(bs[1..])
    ensures bs != [] ==> LoosesMean(bs) == LooseMeans(bs[0]) + LoosesMean(bs[1..])
    ensures AreLoose(bs) && bs != [] ==> IsLoose(bs[0]) && AreLoose(bs[1..])
  {
    hide IsLoose, LooseText, LooseMeans;
  }

  lemma KeywordReads(b: Loose, more: string, seen: nat, sb: string, n: nat, mean: string)
    requires IsLoose(b) && !b.Rune? && (seen == 0 ==> sb == "")
    requires Reads(Unquoted(LooseText(b) + more, 0, "", true), n, Ok("" + mean))
    ensures Reads(Unquoted(LooseText(b) + more, seen, sb, false), n, Ok(sb + mean))
  {
    hide IsLoose, Unquoted, SpellPieces, LooseText;
    KeywordEnds(b, more, seen, sb);
    assert "" + mean == mean;
    var r := Unquoted(LooseText(b) + more, 0, "", true);
    SpellCons(Piece(KEYWORD_STRING, seen, sb), r.pieces);
  }

  // -------------------------------------------------------------------- words

  // What a segment begins with.
  lemma SegmentBegins(s: Segment, ahead: seq<Segment>)
    requires IsSegment(s, ahead)
    ensures SegmentText(s) != ""
    ensures !s.Open? ==> Stops(SegmentText(s))
    ensures !EndsWord(SegmentText(s))
    ensures SegmentText(s)[0] == '"' <==> s.Double?
    ensures SegmentText(s)[0] == '\'' <==> s.Single?
    ensures SegmentText(s)[0] == '$' <==> s.Expands?
  {
    if s.Open? {
      LoosesUnfold(s.bs);
      assert IsLoose(s.bs[0]);
    }
  }

  // The rest of a word stops an unquoted string.
  lemma RestStops(s: Segment, ahead: seq<Segment>, rest: string)
    requires IsSegment(s, ahead) && s.Open? && EndsWord(rest) && IsWord(ahead)
    ensures Stops(WordText(ahead) + rest)
  {
    if ahead == [] {
      assert "" + rest == rest;
    } else {
      hide SegmentText, Stops, IsWord;
      SegmentBegins(ahead[0], ahead[1..]) by { WordUnfold(ahead); }
      WordUnfold(ahead);
      StopsFront(SegmentText(ahead[0]), WordText(ahead[1..]) + rest);
      Assoc(SegmentText(ahead[0]), WordText(ahead[1..]), rest);
    }
  }

  lemma StopsFront(a: string, b: string)
    requires a != "" && Stops(a)
    ensures Stops(a + b)
  {
  }

  lemma WordUnfold(word: seq<Segment>)
    ensures word == [] ==> WordText(word) == "" && WordMeans(word) == Ok("")
    ensures word != [] ==> WordText(word) == SegmentText(word[0]) + WordText(word[1..])
    ensures word != [] ==> WordMeans(word) == InTurn(SegmentMeans(word[0]), WordMeans(word[1..]))
    ensures word != [] && IsWord(word) ==> IsSegment(word[0], word[1..]) && IsWord(word[1..])
  {
    hide IsSegment, SegmentText, SegmentMeans;
  }

  lemma NameStops(ahead: seq<Segment>, rest: string)
    requires EndsWord(rest) && NoNameAhead(WordText(ahead))
    ensures NoNameAhead(WordText(ahead) + rest)
  {
    hide WordText;
    if WordText(ahead) == "" {
      assert WordText(ahead) + rest == rest;
    }
  }

  // One segment of a word is one part of it.
  lemma SegmentReads(s: Segment, ahead: seq<Segment>, rest: string, notFirst: bool)
    requires IsSegment(s, ahead) && IsWord(ahead) && EndsWord(rest)
    ensures var t := SegmentText(s) + (WordText(ahead) + rest);
      && t != "" && !IsBreak(t[0])
      && Reads(Part(t, notFirst), |SegmentText(s)|, SegmentMeans(s))
  {
    hide *;
    var more := WordText(ahead) + rest;
    var t := SegmentText(s) + more;
    SegmentBegins(s, ahead);
    BeginsIs(SegmentText(s), more);
    PartIs(t, notFirst);
    SegmentIs(s, ahead);
    match s {
      case Double(qs) =>
        Assoc("\"" + QuotesText(qs), "\"", more);
        TailIs('"', QuotesText(qs), "\"" + more);
        QuotesRead(qs, more, 1, "");
        OnFrontIs("", "", QuotesMean(qs));
        SkipReads(1, DoubleQuoted(QuotesText(qs) + ("\"" + more), 1, ""), |QuotesText(qs)| + 1, QuotesMean(qs));
      case Single(text) =>
        Assoc("'" + text, "'", more);
        TailIs('\'', text, "'" + more);
        SingleReads(text, more, 1, "");
        assert "" + text == text;
        SpellOne(Piece(STRING, 1 + |text| + 1, text));
        ReadsIs(SingleQuoted(text + ("'" + more), 1, ""), |text| + 1, Ok(text));
        SkipReads(1, SingleQuoted(text + ("'" + more), 1, ""), |text| + 1, Ok(text));
      case Open(bs) =>
        RestStops(s, ahead, rest);
        LooseReads(bs, more, 0, "", notFirst);
        assert "" + LoosesMean(bs) == LoosesMean(bs);
      case Expands(name, braced) =>
        if !braced {
          NameStops(ahead, rest);
        }
        ExpansionOf(name, braced, more, VAR_EXPANSION);
        ExpansionReads(name, braced);
    }
  }

  lemma TailIs(c: char, a: string, b: string)
    ensures ([c] + a + b)[1..] == a + b && [c] + (a + b) == [c] + a + b
  {
  }

  lemma SegmentIs(s: Segment, ahead: seq<Segment>)
    requires IsSegment(s, ahead)
    ensures s.Double? ==> AreQuotes(s.qs) && SegmentText(s) == "\"" + QuotesText(s.qs) + "\"" && SegmentMeans(s) == QuotesMean(s.qs)
    ensures s.Single? ==> '\'' !in s.text && SegmentText(s) == "'" + s.text + "'" && SegmentMeans(s) == Ok(s.text)
    ensures s.Open? ==> AreLoose(s.bs) && SegmentText(s) == LoosesText(s.bs) && SegmentMeans(s) == Ok(LoosesMean(s.bs))
    ensures s.Expands? ==> IsName(s.name) && SegmentText(s) == VarText(s.name, s.braced) && SegmentMeans(s) == Err(UnexpectedExpansion(s.name))
    ensures s.Expands? && !s.braced ==> NoNameAhead(WordText(ahead))
  {
  }

  lemma ExpansionReads(name: string, braced: bool)
    ensures Reads(Scan(|VarText(name, braced)|, [Piece(VAR_EXPANSION, |VarText(name, braced)|, name)], None),
      |VarText(name, braced)|, Err(UnexpectedExpansion(name)))
  {
    hide SpellPieces;
    var p := Piece(VAR_EXPANSION, |VarText(name, braced)|, name);
    SpellCons(p, []);
    assert [p] + [] == [p];
  }

  lemma BeginsIs(a: string, b: string)
    requires a != ""
    ensures (a + b)[0] == a[0] && a + b != ""
    ensures !EndsWord(a) ==> !IsBreak(a[0])
  {
    StopsIs(a);
  }

  lemma PartIs(t: string, notFirst: bool)
    requires t != "" && !IsBreak(t[0])
    ensures t[0] == '"' ==> Part(t, notFirst) == Skip(1, DoubleQuoted(t[1..], 1, ""))
    ensures t[0] == '\'' ==> Part(t, notFirst) == Skip(1, SingleQuoted(t[1..], 1, ""))
    ensures t[0] == '$' ==> Part(t, notFirst) == Expansion(t, VAR_EXPANSION)
    ensures t[0] != '"' && t[0] != '\'' && t[0] != '$' ==> Part(t, notFirst) == Unquoted(t, 0, "", notFirst)
  {
    hide DoubleQuoted, SingleQuoted, Expansion, Unquoted, IsBreak;
  }

  lemma WordStep(t: string, notFirst: bool)
    ensures t == "" || IsBreak(t[0]) ==> Word(t, notFirst) == Scan(0, [], None)
    ensures t != "" && !IsBreak(t[0]) && Part(t, notFirst).fault.None? ==>
      Word(t, notFirst) == Then(Part(t, notFirst), Word(t[Part(t, notFirst).n..], true))
  {
    hide Part, IsBreak;
  }

  // A word in the grammar is lexed as one word, and spells what it means.
  lemma {:induction false} WordReads(word: seq<Segment>, rest: string, notFirst: bool)
    requires IsWord(word) && EndsWord(rest)
    ensures Reads(Word(WordText(word) + rest, notFirst), |WordText(word)|, WordMeans(word))
    decreases |word|
  {
    hide *;
    WordUnfold(word);
    var t := WordText(word) + rest;
    WordStep(t, notFirst);
    if word == [] {
      StopsIs(rest);
      assert "" + rest == rest;
      SpellNone();
      ReadsIs(Scan(0, [], None), 0, Ok(""));
    } else {
      var s, ahead := word[0], word[1..];
      Assoc(SegmentText(s), WordText(ahead), rest);
      SegmentReads(s, ahead, rest, notFirst);
      WordReads(ahead, rest, true);
      var part, more := Part(t, notFirst), Word(WordText(ahead) + rest, true);
      ReadsIs(part, |SegmentText(s)|, SegmentMeans(s));
      assert t[|SegmentText(s)|..] == WordText(ahead) + rest;
      ThenReads(part, more, |SegmentText(s)|, |WordText(ahead)|, SegmentMeans(s), WordMeans(ahead));
    }
  }

  lemma ThenReads(a: Scan, b: Scan, n: nat, m: nat, x: Parsed<string>, y: Parsed<string>)
    requires Reads(a, n, x) && Reads(b, m, y)
    ensures Reads(Then(a, b), n + m, InTurn(x, y))
  {
    hide SpellPieces;
    SpellAppend(a.pieces, b.pieces);
  }

  // ------------------------------------------------ metacharacters and faults

  // Each metacharacter is a token of its own; spaces and tabs are none.
  lemma MetaIs(c: char, rest: string)
    ensures c in "{}|&;<>\n" ==>
      Lex([c] + rest) ==
        Cons(Lexeme(if c == '{' then LBRACE else if c == '}' then RBRACE else if c == '|' then BAR else if c == '&' then AND
                    else if c == ';' then SEMICOLON else if c == '<' then LT else if c == '>' then GT else NEWLINE, 1, []), 1, Lex(rest))
    ensures c == ' ' || c == '\t' ==> Lex([c] + rest) == Cons(Space, 1, Lex(rest))
  {
    assert ([c] + rest)[1..] == rest;
    hide Word, CommentLen;
  }

  // The inside of a double-quoted string that is not closed, or ends in a
  // backslash.
  lemma {:induction false} QuotesStayOpen(qs: seq<Quote>, slash: bool, seen: nat, sb: string)
    requires AreQuotes(qs) && NoDollars(qs)
    ensures DoubleQuoted(QuotesText(qs) + (if slash then "\\" else ""), seen, sb) ==
      if slash then Scan(|QuotesText(qs)| + 1, [], Some(Fault(EofAfterBackslash, |QuotesText(qs)| + 1)))
      else Scan(|QuotesText(qs)|, [], Some(Fault(EofInDoubleQuotes, |QuotesText(qs)|)))
    decreases |qs|
  {
    hide *;
    QuotesUnfold(qs);
    NothingCloses(seen, sb);
    var end := if slash then "\\" else "";
    if qs == [] {
      assert "" + end == end;
    } else {
      var q, more := qs[0], QuotesText(qs[1..]) + end;
      Assoc(QuoteText(q), QuotesText(qs[1..]), end);
      NoneIsDollar(qs);
      StaysQuote(q, QuotesText(qs[1..]), more);
      QuoteStep(q, more, seen, sb);
      QuotesStayOpen(qs[1..], slash, seen + |QuoteText(q)|, sb + QuoteMeans(q).value);
      SkipOpen(|QuoteText(q)|, |QuotesText(qs[1..])| + |end|, if slash then EofAfterBackslash else EofInDoubleQuotes);
    }
  }

  lemma NoneIsDollar(qs: seq<Quote>)
    requires NoDollars(qs) && qs != []
    ensures NoDollars(qs[1..]) && !qs[0].Var? && !qs[0].Dollar?
  {
  }

  lemma SkipOpen(k: nat, n: nat, kind: FaultKind)
    ensures Skip(k, Scan(n, [], Some(Fault(kind, n)))) == Scan(k + n, [], Some(Fault(kind, k + n)))
  {
  }

  lemma NothingCloses(seen: nat, sb: string)
    ensures DoubleQuoted("", seen, sb) == Scan(0, [], Some(Fault(EofInDoubleQuotes, 0)))
    ensures DoubleQuoted("\\", seen, sb) == Scan(1, [], Some(Fault(EofAfterBackslash, 1)))
  {
  }

  lemma StaysQuote(q: Quote, ahead: string, more: string)
    requires IsQuote(q, ahead) && !q.Var? && !q.Dollar?
    ensures IsQuote(q, more)
  {
  }

  lemma {:induction false} SingleStaysOpen(text: string, seen: nat, sb: string)
    requires '\'' !in text
    ensures SingleQuoted(text, seen, sb) == Scan(|text|, [], Some(Fault(EofInSingleQuotes, |text|)))
    decreases |text|
  {
    if text == "" {
    } else {
      SingleStaysOpen(text[1..], seen + 1, sb + [text[0]]);
    }
  }

  // A first word with a fault.
  lemma FaultyWord(t: string, part: Scan, fault: Fault)
    requires t != "" && (t[0] == '"' || t[0] == '\'' || t[0] == '$') && Part(t, false) == part && part.fault == Some(fault)
    ensures Lex(t).fault == Some(fault)
  {
    hide Part;
  }

  lemma SkipFault(t: string, r: Scan, kind: FaultKind, at: nat)
    requires t != "" && (t[0] == '"' || t[0] == '\'') && r.fault == Some(Fault(kind, at))
    requires r == (if t[0] == '"' then DoubleQuoted(t[1..], 1, "") else SingleQuoted(t[1..], 1, ""))
    ensures Lex(t).fault == Some(Fault(kind, 1 + at))
  {
    hide DoubleQuoted, SingleQuoted, Lex;
    FaultyWord(t, Part(t, false), Fault(kind, 1 + at));
  }

  // Strings that are not closed are faults at the end of the file.
  lemma OpenStringsAreFaults(qs: seq<Quote>, text: string)
    requires AreQuotes(qs) && NoDollars(qs) && '\'' !in text
    ensures Lex("\"" + QuotesText(qs)).fault == Some(Fault(EofInDoubleQuotes, 1 + |QuotesText(qs)|))
    ensures Lex("\"" + (QuotesText(qs) + "\\")).fault == Some(Fault(EofAfterBackslash, 2 + |QuotesText(qs)|))
    ensures Lex("'" + text).fault == Some(Fault(EofInSingleQuotes, 1 + |text|))
  {
    hide *;
    QuotesStayOpen(qs, false, 1, "");
    QuotesStayOpen(qs, true, 1, "");
    SingleStaysOpen(text, 1, "");
    var x := QuotesText(qs);
    Behind("\"", x);
    Behind("\"", x + "\\");
    Behind("'", text);
    assert x + "" == x;
    SkipFault("\"" + x, DoubleQuoted(x, 1, ""), EofInDoubleQuotes, |x|);
    SkipFault("\"" + (x + "\\"), DoubleQuoted(x + "\\", 1, ""), EofAfterBackslash, |x| + 1);
    SkipFault("'" + text, SingleQuoted(text, 1, ""), EofInSingleQuotes, |text|);
  }

  lemma Behind(c: string, t: string)
    requires |c| == 1
    ensures (c + t)[1..] == t && (c + t)[0] == c[0]
  {
  }

  lemma BraceFault(t: string, n: nat, fault: Fault)
    requires |t| > 1 && t[0] == '$' && t[1] == '{' && n == NameLen(t[2..])
    requires fault == (
      if 2 + n == |t| then Fault(EofInExpansion, 2 + n)
      else if t[2 + n] != '}' then Fault(MissingBrace, 2 + n) else Fault(MissingName, 0))
    requires 2 + n < |t| && t[2 + n] == '}' ==> n == 0
    ensures Lex(t).fault == Some(fault)
  {
    hide NameLen, Lex;
    FaultyWord(t, Part(t, false), fault);
  }

  // Braces that are not closed, are closed by something else, or hold no name.
  lemma OpenBracesAreFaults(name: string, c: char, rest: string)
    requires forall k :: 0 <= k < |name| ==> IsNameRune(name[k])
    requires !IsNameRune(c) && c != '}'
    ensures Lex("${" + name).fault == Some(Fault(EofInExpansion, 2 + |name|))
    ensures Lex("${" + (name + ([c] + rest))).fault == Some(Fault(MissingBrace, 2 + |name|))
    ensures Lex("${" + ("}" + rest)).fault == Some(Fault(MissingName, 0))
  {
    hide Lex, Part;
    NameLenUnique(name, |name|);
    NameLenUnique(name + ([c] + rest), |name|);
    NameLenUnique("}" + rest, 0);
    hide NameLen;
    BehindBrace(name);
    BehindBrace(name + ([c] + rest));
    BehindBrace("}" + rest);
    BraceFault("${" + name, |name|, Fault(EofInExpansion, 2 + |name|));
    BraceFault("${" + (name + ([c] + rest)), |name|, Fault(MissingBrace, 2 + |name|));
    BraceFault("${" + ("}" + rest), 0, Fault(MissingName, 0));
  }

  lemma BehindBrace(t: string)
    ensures ("${" + t)[2..] == t && ("${" + t)[0] == '$' && ("${" + t)[1] == '{'
  {
  }
}
