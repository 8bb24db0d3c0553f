// Tokens of a grub config file (toolkit/tools/internal/grub/tokentypes.go) and
// what lexing means.
//
// Lexing is specified on the text that is still to be read: each function
// below looks at a suffix of the file and says how many runes the next piece
// takes and what it denotes.  Nothing depends on what came before, so a token
// boundary carries no state but its position.  Locations are added afterwards
// by Place.
module GrubTokens {
  import opened FileScanning
  import opened Wrappers

  datatype TokenType = LBRACE | RBRACE | BAR | AND | SEMICOLON | LT | GT | NEWLINE | WORD

  datatype SubWordType = KEYWORD_STRING | STRING | VAR_EXPANSION | QUOTED_VAR_EXPANSION

  datatype Span = Span(start: SourceLoc, end: SourceLoc)

  datatype SubWord = SubWord(loc: Span, kind: SubWordType, rawContent: string, value: string)

  datatype Token = Token(loc: Span, kind: TokenType, rawContent: string, subWords: seq<SubWord>)

  // Why tokenizing stops early.
  datatype FaultKind =
    | EofInDoubleQuotes | EofAfterBackslash | EofInSingleQuotes
    | EofInExpansion | MissingBrace | MissingName

  // A fault and where it is reported, counted from the start of the text.
  datatype Fault = Fault(kind: FaultKind, at: nat)

  // A sub-word before it is given a location.
  datatype Piece = Piece(kind: SubWordType, len: nat, value: string)

  // The outcome of lexing part of a word: runes consumed, sub-words, fault.
  datatype Scan = Scan(n: nat, pieces: seq<Piece>, fault: Option<Fault>)

  // A stretch of the file: one space or tab, a comment, or a token.
  datatype Item = Space | Comment(len: nat) | Lexeme(kind: TokenType, len: nat, pieces: seq<Piece>)

  datatype Lexed = Lexed(items: seq<Item>, fault: Option<Fault>)

  function Later(fault: Option<Fault>, offset: nat): Option<Fault> {
    match fault
    case None => None
    case Some(f) => Some(Fault(f.kind, f.at + offset))
  }

  // First a, then whatever follows it.
  function Then(a: Scan, rest: Scan): (r: Scan)
    ensures Total(r.pieces) == Total(a.pieces) + Total(rest.pieces)
  {
    TotalAppend(a.pieces, rest.pieces);
    Scan(a.n + rest.n, a.pieces + rest.pieces, Later(rest.fault, a.n))
  }

  // k runes that yield no sub-word of their own, then the rest.
  function Skip(k: nat, rest: Scan): Scan {
    Scan(k + rest.n, rest.pieces, Later(rest.fault, k))
  }

  function Prepend(p: Piece, rest: Scan): (r: Scan)
    ensures Total(r.pieces) == p.len + Total(rest.pieces)
  {
    assert ([p] + rest.pieces)[1..] == rest.pieces;
    rest.(pieces := [p] + rest.pieces)
  }

  // The runes a list of pieces spans.
  function Total(pieces: seq<Piece>): nat {
    if pieces == [] then 0 else pieces[0].len + Total(pieces[1..])
  }

  lemma {:induction false} TotalAppend(a: seq<Piece>, b: seq<Piece>)
    ensures Total(a + b) == Total(a) + Total(b)
  {
    if a == [] {
      assert a + b == b;
    } else {
      TotalAppend(a[1..], b);
      assert (a + b)[1..] == a[1..] + b;
    }
  }

  // ------------------------------------------------------------ characters

  predicate IsMeta(c: char) {
    c == '{' || c == '}' || c == '|' || c == '&' || c == ';' || c == '<' || c == '>' || c == '\n'
  }

  predicate IsSpace(c: char) {
    c == ' ' || c == '\t'
  }

  // Ends a word.
  predicate IsBreak(c: char) {
    IsMeta(c) || IsSpace(c)
  }

  // Ends an unquoted string.
  predicate IsStop(c: char) {
    IsBreak(c) || c == '"' || c == '\'' || c == '$'
  }

  predicate IsNameChar(c: char) {
    'A' <= c <= 'Z' || 'a' <= c <= 'z' || '0' <= c <= '9' || c == '_'
  }

  function MetaType(c: char): TokenType {
    match c
    case '{' => LBRACE
    case '}' => RBRACE
    case '|' => BAR
    case '&' => AND
    case ';' => SEMICOLON
    case '<' => LT
    case '>' => GT
    case _ => NEWLINE
  }

  // ------------------------------------------------------- parts of a word

  // An unquoted string, of which `seen` runes with value `sb` were read so far.
  // A backslash drops a newline after it and keeps any other rune; a lone
  // backslash at the end of the file stands for itself.
  function Unquoted(t: string, seen: nat, sb: string, notFirst: bool): (r: Scan)
    ensures r.n <= |t| && r.fault.None?
    ensures Total(r.pieces) == seen + r.n
    ensures t != "" && !IsStop(t[0]) ==> r.n > 0
    ensures r.n == |t| || IsStop(t[r.n])
    decreases |t|, !notFirst
  {
    if t == "" || IsStop(t[0]) then
      Scan(0, [Piece(if notFirst then STRING else KEYWORD_STRING, seen, sb)], None)
    else if t[0] == '\\' && !notFirst then
      // A string that turns out to hold an escape is no longer a keyword:
      // what was read before the backslash becomes a sub-word of its own.
      var rest := Unquoted(t, 0, "", true);
      if seen == 0 then rest else Prepend(Piece(KEYWORD_STRING, seen, sb), rest)
    else if t[0] == '\\' then
      if |t| == 1 then
        Scan(1, [Piece(STRING, seen + 1, sb + "\\")], None)
      else
        Skip(2, Unquoted(t[2..], seen + 2, if t[1] == '\n' then sb else sb + [t[1]], true))
    else
      Skip(1, Unquoted(t[1..], seen + 1, sb + [t[0]], notFirst))
  }

  function NameLen(t: string): (n: nat)
    ensures n <= |t|
    ensures forall k :: 0 <= k < n ==> IsNameChar(t[k])
    ensures n < |t| ==> !IsNameChar(t[n])
  {
    if t == "" || !IsNameChar(t[0]) then 0 else 1 + NameLen(t[1..])
  }

  lemma {:induction false} NameLenUnique(t: string, n: nat)
    requires n <= |t| && forall m :: 0 <= m < n ==> IsNameChar(t[m])
    requires n < |t| ==> !IsNameChar(t[n])
    ensures NameLen(t) == n
  {
    if n == 0 {
    } else {
      NameLenUnique(t[1..], n - 1);
    }
  }

  // $name, ${name}, or a dollar sign that stands for itself.
  function Expansion(t: string, kind: SubWordType): (r: Scan)
    requires t != "" && t[0] == '$'
    ensures 0 < r.n <= |t|
    ensures if r.fault.None? then Total(r.pieces) == r.n else r.pieces == []
  {
    var open := if |t| > 1 && t[1] == '{' then 2 else 1;
    var m := NameLen(t[open..]);
    var name := t[open..open + m];
    if open == 2 then
      if 2 + m == |t| then Scan(2 + m, [], Some(Fault(EofInExpansion, 2 + m)))
      else if t[2 + m] != '}' then Scan(2 + m, [], Some(Fault(MissingBrace, 2 + m)))
      else if name == "" then Scan(3 + m, [], Some(Fault(MissingName, 0)))
      else Scan(3 + m, [Piece(kind, 3 + m, name)], None)
    else if name == "" then
      Scan(1, [Piece(STRING, 1, "$")], None)
    else
      Scan(1 + m, [Piece(kind, 1 + m, name)], None)
  }

  // The inside of a double-quoted string, of which `seen` runes (the opening
  // quote among them) with value `sb` were read since the last sub-word.
  function DoubleQuoted(t: string, seen: nat, sb: string): (r: Scan)
    ensures r.n <= |t|
    ensures if r.fault.None? then Total(r.pieces) == seen + r.n else Total(r.pieces) <= seen + r.n
    decreases |t|, seen
  {
    if t == "" then
      Scan(0, [], Some(Fault(EofInDoubleQuotes, 0)))
    else if t[0] == '"' then
      Scan(1, [Piece(STRING, seen + 1, sb)], None)
    else if t[0] == '\\' then
      if |t| == 1 then
        Scan(1, [], Some(Fault(EofAfterBackslash, 1)))
      else
        Skip(2, DoubleQuoted(t[2..], seen + 2, sb + Unescape(t[1])))
    else if t[0] == '$' then
      // What was read so far becomes a sub-word; the string goes on after the
      // expansion as a new one.
      if seen != 0 then Prepend(Piece(STRING, seen, sb), DoubleQuoted(t, 0, ""))
      else
        var v := Expansion(t, QUOTED_VAR_EXPANSION);
        if v.fault.Some? then v else Then(v, DoubleQuoted(t[v.n..], 0, ""))
    else
      Skip(1, DoubleQuoted(t[1..], seen + 1, sb + [t[0]]))
  }

  // What a backslash and the rune after it mean within double quotes.
  function Unescape(c: char): string {
    if c == '$' || c == '"' || c == '\\' then [c]
    else if c == '\n' then ""
    else ['\\', c]
  }

  // The inside of a single-quoted string; `seen` and `sb` as above.
  function SingleQuoted(t: string, seen: nat, sb: string): (r: Scan)
    ensures r.n <= |t|
    ensures if r.fault.None? then Total(r.pieces) == seen + r.n else r.pieces == []
  {
    if t == "" then
      Scan(0, [], Some(Fault(EofInSingleQuotes, 0)))
    else if t[0] == '\'' then
      Scan(1, [Piece(STRING, seen + 1, sb)], None)
    else
      Skip(1, SingleQuoted(t[1..], seen + 1, sb + [t[0]]))
  }

  // One string, quoted or not, or one variable expansion.
  function Part(t: string, notFirst: bool): (r: Scan)
    requires t != "" && !IsBreak(t[0])
    ensures 0 < r.n <= |t|
    ensures if r.fault.None? then Total(r.pieces) == r.n else Total(r.pieces) <= r.n
  {
    if t[0] == '"' then Skip(1, DoubleQuoted(t[1..], 1, ""))
    else if t[0] == '\'' then Skip(1, SingleQuoted(t[1..], 1, ""))
    else if t[0] == '$' then Expansion(t, VAR_EXPANSION)
    else Unquoted(t, 0, "", notFirst)
  }

  // A whole word: parts up to the next break.
  function Word(t: string, notFirst: bool): (r: Scan)
    ensures r.n <= |t|
    ensures t != "" && !IsBreak(t[0]) ==> r.n > 0
    ensures if r.fault.None? then Total(r.pieces) == r.n else Total(r.pieces) <= r.n
    ensures r.fault.None? ==> r.n == |t| || IsBreak(t[r.n])
    decreases |t|
  {
    if t == "" || IsBreak(t[0]) then
      Scan(0, [], None)
    else
      var part := Part(t, notFirst);
      if part.fault.Some? then part
      else Then(part, Word(t[part.n..], true))
  }

  // ---------------------------------------------------------- a whole text

  // A comment runs up to the next newline.
  function CommentLen(t: string): (n: nat)
    ensures n <= |t| && forall k :: 0 <= k < n ==> t[k] != '\n'
    ensures n == |t| || t[n] == '\n'
    ensures t != "" && t[0] != '\n' ==> n > 0
  {
    if t == "" || t[0] == '\n' then 0 else 1 + CommentLen(t[1..])
  }

  function Cons(item: Item, n: nat, rest: Lexed): Lexed {
    Lexed([item] + rest.items, Later(rest.fault, n))
  }

  // The first item of a text and the runes it spans.
  function First(t: string): (r: (Item, Scan))
    requires t != ""
    ensures 0 < r.1.n <= |t|
    ensures r.1.fault.None? ==> ItemLen(r.0) == r.1.n
  {
    if IsMeta(t[0]) then (Lexeme(MetaType(t[0]), 1, []), Scan(1, [], None))
    else if IsSpace(t[0]) then (Space, Scan(1, [], None))
    else if t[0] == '#' then
      var n := CommentLen(t);
      (Comment(n), Scan(n, [], None))
    else
      var w := Word(t, false);
      (Lexeme(WORD, w.n, w.pieces), w)
  }

  function Lex(t: string): (r: Lexed)
    ensures r.fault.None? ==> Extent(r.items) == |t|
    ensures r.fault.Some? ==> Extent(r.items) <= |t|
    decreases |t|
  {
    if t == "" then
      Lexed([], None)
    else
      var (item, s) := First(t);
      if s.fault.Some? then Lexed([item], s.fault)
      else Cons(item, s.n, Lex(t[s.n..]))
  }

  function ItemLen(item: Item): nat {
    if item.Space? then 1 else item.len
  }

  // The runes a list of items spans.
  function Extent(items: seq<Item>): nat {
    if items == [] then 0 else ItemLen(items[0]) + Extent(items[1..])
  }

  // ------------------------------------------------------------- locations

  function SpanOf(s: string, i: nat, j: nat): Span {
    if i <= j <= |s| then Span(LocAt(s, i), LocAt(s, j))
    else Span(SourceLoc(1, 1, 0), SourceLoc(1, 1, 0))
  }

  function Slice(s: string, i: nat, j: nat): string {
    if i <= j <= |s| then s[i..j] else ""
  }

  function PlacePiece(s: string, i: nat, p: Piece): SubWord {
    SubWord(SpanOf(s, i, i + p.len), p.kind, Slice(s, i, i + p.len), p.value)
  }

  // The sub-words of s that pieces laid end to end from index i on make.
  function PlacePieces(s: string, i: nat, pieces: seq<Piece>): seq<SubWord>
    decreases |pieces|
  {
    if pieces == [] then []
    else [PlacePiece(s, i, pieces[0])] + PlacePieces(s, i + pieces[0].len, pieces[1..])
  }

  lemma PlaceCons(s: string, i: nat, p: Piece, rest: seq<Piece>)
    ensures PlacePieces(s, i, [p] + rest) == [PlacePiece(s, i, p)] + PlacePieces(s, i + p.len, rest)
    ensures PlacePieces(s, i, [p]) == [PlacePiece(s, i, p)]
  {
    assert ([p] + rest)[1..] == rest;
  }

  function PlaceToken(s: string, i: nat, item: Item): Token
    requires item.Lexeme?
  {
    Token(SpanOf(s, i, i + item.len), item.kind, Slice(s, i, i + item.len), PlacePieces(s, i, item.pieces))
  }

  // The tokens of s that items laid end to end from index i on make.
  function Place(s: string, i: nat, items: seq<Item>): seq<Token>
    decreases |items|
  {
    if items == [] then []
    else if items[0].Lexeme? then
      [PlaceToken(s, i, items[0])] + Place(s, i + ItemLen(items[0]), items[1..])
    else
      Place(s, i + ItemLen(items[0]), items[1..])
  }

  // All tokens of a text (those before the fault, if there is one).
  function Tokens(s: string): seq<Token> {
    Place(s, 0, Lex(s).items)
  }

  lemma {:induction false} PlacePiecesAppend(s: string, i: nat, a: seq<Piece>, b: seq<Piece>)
    ensures PlacePieces(s, i, a + b) == PlacePieces(s, i, a) + PlacePieces(s, i + Total(a), b)
    decreases |a|
  {
    hide PlacePiece;
    if a == [] {
      assert a + b == b;
    } else {
      PlacePiecesAppend(s, i + a[0].len, a[1..], b);
      assert (a + b)[1..] == a[1..] + b;
    }
  }

  lemma {:induction false} SpanAppend(a: seq<Item>, b: seq<Item>)
    ensures Extent(a + b) == Extent(a) + Extent(b)
  {
    if a == [] {
      assert a + b == b;
    } else {
      SpanAppend(a[1..], b);
      assert (a + b)[1..] == a[1..] + b;
    }
  }

  lemma {:induction false} PlaceAppend(s: string, i: nat, a: seq<Item>, b: seq<Item>)
    ensures Place(s, i, a + b) == Place(s, i, a) + Place(s, i + Extent(a), b)
    decreases |a|
  {
    if a == [] {
      assert a + b == b;
    } else {
      PlaceAppend(s, i + ItemLen(a[0]), a[1..], b);
      assert (a + b)[1..] == a[1..] + b;
    }
  }
}
