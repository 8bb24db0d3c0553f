// Setting a variable in /etc/default/grub
// (toolkit/tools/pkg/imagecustomizerlib/defaultgrubutils.go:330-362), and what
// reading the file back gives.
module DefaultGrubLaw {
  import opened FileScanning
  import opened GrubTokens
  import opened Wrappers
  import opened GrubTokenizing
  import opened GrubQuoting
  import opened GrubLocality
  import opened DefaultGrub
  import opened GrubAssignments

  // ------------------------------------------------- where assignments are

  // Item m is the word of the k-th assignment, and sep the item that ends its
  // line, if there is one.
  predicate IsAt(content: string, assigns: seq<VarAssign>, k: nat, m: nat, sep: Option<nat>)
    requires k < |assigns|
  {
    var items := Lex(content).items;
    var v := assigns[k];
    && m < |items| && items[m].Lexeme? && items[m].kind == WORD
    && v.token.loc.start.index == Extent(items[..m])
    && v.token.loc.end.index == Extent(items[..m]) + items[m].len <= |content|
    && v.line.tokens == [v.token]
    && AtLineStart(BareItems(items[..m])) && AtLineEnd(BareItems(items[m + 1..]))
    && Read(BareItems(items[..m])) == Ok(PairsOf(assigns[..k]))
    && ReadOne([BareItem(items[m])]) == Ok([(v.name, v.value)])
    && Read(BareItems(items[m + 1..])) == Ok(PairsOf(assigns[k + 1..]))
    && if sep.None? then v.line.endToken.None? && BareItems(items[m + 1..]) == []
       else EndsLineAt(content, v.line, m, sep.value)
  }

  predicate EndsLineAt(content: string, line: Line, m: nat, sep: nat) {
    var items := Lex(content).items;
    && m < sep < |items| && items[sep].Lexeme? && EndsLine(items[sep].kind)
    && line.endToken.Some? && line.endToken.value.kind == items[sep].kind
    && line.endToken.value.loc.end.index == Extent(items[..sep]) + 1 <= |content|
    && BareItems(items[m + 1..sep]) == []
  }

  lemma Locate(content: string, assigns: seq<VarAssign>, k: nat) returns (m: nat, sep: Option<nat>)
    requires FindAssigns(content) == Ok(assigns) && k < |assigns|
    ensures Lex(content).fault.None? && IsAt(content, assigns, k, m, sep)
  {
    hide Lex, AssignsOf, LinesOf, Place, PlaceToken, Read, ReadOne, BareItems, BareItem, PairsOf, AtLineStart, AtLineEnd, Extent;
    FaultInside(content);
    var tokens := Tokens(content);
    var items := Lex(content).items;
    var a := FindAssign(tokens, assigns, k);
    m := PlaceNth(content, 0, items, a);
    var at := Extent(items[..m]);
    BarePlace(content, 0, items[..m]);
    BarePlace(content, at + ItemLen(items[m]), items[m + 1..]);
    BarePlaceToken(content, at, items[m]);
    WordAssigns(content, m, (assigns[k].name, assigns[k].value));
    PlaceTokenLoc(content, at, items[m]);
    if a + 1 == |tokens| {
      sep := None;
      assert tokens[a + 1..] == [];
      BareNothing();
    } else {
      var rest := items[m + 1..];
      var end := at + ItemLen(items[m]);
      var j := PlaceNth(content, end, rest, 0);
      sep := Some(m + 1 + j);
      LocateEnd(content, tokens, a, m, j);
    }
  }

  lemma BareNothing()
    ensures BareTokens([]) == []
  {
  }

  lemma BarePlaceToken(s: string, i: nat, item: Item)
    requires item.Lexeme?
    ensures BareToken(PlaceToken(s, i, item)) == BareItem(item) && PlaceToken(s, i, item).kind == item.kind
  {
    hide SpanOf, Slice, PlacePieces;
    BarePlacePieces(s, i, item.pieces);
  }

  lemma PlaceTokenLoc(s: string, i: nat, item: Item)
    requires item.Lexeme? && i + item.len <= |s|
    ensures PlaceToken(s, i, item).loc.start.index == i && PlaceToken(s, i, item).loc.end.index == i + item.len
  {
    hide LocAt, Slice, PlacePieces;
  }

  lemma LocateEnd(content: string, tokens: seq<Token>, a: nat, m: nat, j: nat)
    requires Lex(content).fault.None? && tokens == Tokens(content) && a + 1 < |tokens|
    requires m < |Lex(content).items| && m + 1 + j < |Lex(content).items|
    requires var items := Lex(content).items;
      var end := Extent(items[..m]) + ItemLen(items[m]);
      && items[m + 1..][j].Lexeme?
      && tokens[a + 1..] == Place(content, end, items[m + 1..])
      && tokens[a + 1..][0] == PlaceToken(content, end + Extent(items[m + 1..][..j]), items[m + 1..][j])
      && tokens[a + 1..][..0] == Place(content, end, items[m + 1..][..j])
    requires AtLineEnd(BareTokens(tokens[a + 1..]))
    ensures EndsLineAt(content, Line([tokens[a]], Some(tokens[a + 1])), m, m + 1 + j)
  {
    hide Lex, Place, PlaceToken, BareItems;
    var items := Lex(content).items;
    var sep := m + 1 + j;
    var rest := items[m + 1..];
    Between(items, m, j);
    ExtentAround(items, m, sep);
    BarePlace(content, Extent(items[..m]) + ItemLen(items[m]), rest[..j]);
    BareNothing();
    BarePlaceToken(content, Extent(items[..sep]), items[sep]);
    SeparatorLen(content, sep);
    PlaceTokenLoc(content, Extent(items[..sep]), items[sep]);
  }

  lemma Between(items: seq<Item>, m: nat, j: nat)
    requires m + 1 + j <= |items|
    ensures items[m + 1..][..j] == items[m + 1..m + 1 + j]
    ensures items[..m + 1 + j] == items[..m] + [items[m]] + items[m + 1..][..j]
  {
    var a, b := items[m + 1..][..j], items[m + 1..m + 1 + j];
    assert |a| == |b| && forall k :: 0 <= k < j ==> a[k] == b[k];
  }

  lemma ExtentAround(items: seq<Item>, m: nat, sep: nat)
    requires m < sep < |items|
    ensures Extent(items[..sep]) == Extent(items[..m]) + ItemLen(items[m]) + Extent(items[m + 1..sep])
    ensures Extent(items[..sep]) + ItemLen(items[sep]) <= Extent(items)
  {
    hide ItemLen, Extent;
    var between := items[m + 1..sep];
    assert items[..sep] == items[..m] + ([items[m]] + between);
    SpanAppend(items[..m], [items[m]] + between);
    ExtentCons(items[m], between);
    ExtentWithin(items, sep);
  }

  lemma ExtentWithin(items: seq<Item>, k: nat)
    requires k < |items|
    ensures Extent(items[..k]) + ItemLen(items[k]) <= Extent(items)
  {
    hide ItemLen, Extent;
    assert items == items[..k] + ([items[k]] + items[k + 1..]);
    SpanAppend(items[..k], [items[k]] + items[k + 1..]);
    ExtentCons(items[k], items[k + 1..]);
  }

  lemma ExtentCons(item: Item, rest: seq<Item>)
    ensures Extent([item] + rest) == ItemLen(item) + Extent(rest)
    ensures Extent([item]) == ItemLen(item)
  {
    assert ([item] + rest)[1..] == rest;
  }

  // Tokens other than words are single runes without sub-words.
  lemma {:induction false} SeparatorLen(t: string, m: nat)
    requires Lex(t).fault.None? && m < |Lex(t).items|
    requires Lex(t).items[m].Lexeme? && Lex(t).items[m].kind != WORD
    ensures Lex(t).items[m].len == 1 && Lex(t).items[m].pieces == []
    decreases m
  {
    hide Lex, Word, CommentLen;
    var n := LexTail(t, m + 1);
    if m == 0 {
    } else {
      assert Lex(t).items[1..][m - 1] == Lex(t).items[m];
      SeparatorLen(t[n..], m - 1);
    }
  }

  // Only a word assigns something.
  lemma WordAssigns(t: string, m: nat, p: Pair)
    requires Lex(t).fault.None? && m < |Lex(t).items| && Lex(t).items[m].Lexeme?
    requires ReadOne([BareItem(Lex(t).items[m])]) == Ok([p])
    ensures Lex(t).items[m].kind == WORD
  {
    hide Lex, Spell;
    if Lex(t).items[m].kind != WORD {
      SeparatorLen(t, m);
    }
  }

  // ---------------------------------------------------------- new assignments

  // A name that stays a keyword when it is written down.
  predicate IsPlainName(name: string) {
    && (name != "" ==> name[0] != '#')
    && forall k :: 0 <= k < |name| ==> IsPlain(name[k]) && name[k] != '='
  }

  predicate IsPlain(c: char) {
    !IsStop(c) && c != '\\'
  }

  function AssignPieces(name: string, value: string): seq<Piece> {
    [Piece(KEYWORD_STRING, |name| + 1, name + "="), Piece(STRING, |Quoted(value)|, value)]
  }

  function AssignItem(name: string, value: string): Item {
    Lexeme(WORD, |AssignText(name, value)|, AssignPieces(name, value))
  }

  lemma {:induction false} PlainRun(p: string, rest: string, seen: nat, sb: string)
    requires forall k :: 0 <= k < |p| ==> IsPlain(p[k])
    requires rest != "" && IsStop(rest[0])
    ensures Unquoted(p + rest, seen, sb, false) == Scan(|p|, [Piece(KEYWORD_STRING, seen + |p|, sb + p)], None)
  {
    hide IsStop;
    if p == "" {
      assert p + rest == rest && sb + p == sb;
    } else {
      assert (p + rest)[1..] == p[1..] + rest;
      PlainRun(p[1..], rest, seen + 1, sb + [p[0]]);
      Assoc(sb, [p[0]], p[1..]);
      assert [p[0]] + p[1..] == p;
    }
  }

  // The text of an assignment is a word wherever it is followed by a break.
  lemma AssignTextIsWord(name: string, value: string, rest: string)
    requires IsPlainName(name) && (rest != "" ==> IsBreak(rest[0]))
    ensures var t := AssignText(name, value) + rest;
      Word(t, false) == Scan(|AssignText(name, value)|, AssignPieces(name, value), None)
      && t != "" && !IsBreak(t[0]) && t[0] != '#'
  {
    hide *;
    var q := Quoted(value);
    var key := name + "=";
    var t := AssignText(name, value) + rest;
    AssignTextIs(name, value, rest);
    PlainKey(name);
    QuoteIsStop();
    PlainRun(key, q + rest, 0, "");
    assert "" + key == key && (key + (q + rest))[0] == key[0];
    assert (key + (q + rest))[|key|..] == q + rest;
    QuotedWord(value, rest);
    WordOfTwo(t, Piece(KEYWORD_STRING, |key|, key), Piece(STRING, |q|, value));
  }

  lemma AssignTextIs(name: string, value: string, rest: string)
    ensures AssignText(name, value) + rest == name + "=" + (Quoted(value) + rest)
    ensures |AssignText(name, value)| == |name| + 1 + |Quoted(value)|
    ensures AssignPieces(name, value) == [Piece(KEYWORD_STRING, |name + "="|, name + "="), Piece(STRING, |Quoted(value)|, value)]
    ensures Quoted(value) != "" && (Quoted(value) + rest)[0] == '"'
  {
    hide Escape;
  }

  // A keyword followed by another part.
  lemma WordOfTwo(t: string, p: Piece, q: Piece)
    requires t != "" && !IsBreak(t[0]) && t[0] != '"' && t[0] != '\'' && t[0] != '$'
    requires Unquoted(t, 0, "", false) == Scan(p.len, [p], None) && p.len <= |t|
    requires Word(t[p.len..], true) == Scan(q.len, [q], None)
    ensures Word(t, false) == Scan(p.len + q.len, [p, q], None)
  {
    hide Unquoted, IsBreak;
    assert Part(t, false) == Scan(p.len, [p], None);
  }

  lemma QuotedWord(value: string, rest: string)
    requires rest != "" ==> IsBreak(rest[0])
    ensures Word(Quoted(value) + rest, true) == Scan(|Quoted(value)|, [Piece(STRING, |Quoted(value)|, value)], None)
  {
    hide IsBreak, Escape, Unquoted, DoubleQuoted;
    var q := Quoted(value);
    QuoteIsStop();
    QuotedIsPart(value, rest, true);
    assert (q + rest)[|q|..] == rest && (q + rest)[0] == '"';
    assert Word(rest, true) == Scan(0, [], None);
    var second := [Piece(STRING, |q|, value)];
    assert second + [] == second;
  }

  lemma PlainKey(name: string)
    requires IsPlainName(name)
    ensures forall k :: 0 <= k < |name + "="| ==> IsPlain((name + "=")[k])
    ensures (name + "=")[0] != '#' && !IsBreak((name + "=")[0])
    ensures (name + "=")[0] != '"' && (name + "=")[0] != '\'' && (name + "=")[0] != '$'
  {
    assert IsPlain('=') && '=' != '#';
    var key := name + "=";
    forall k | 0 <= k < |key| ensures IsPlain(key[k]) {
      assert key[k] == if k < |name| then name[k] else '=';
    }
    assert IsPlain(key[0]);
  }

  lemma QuoteIsStop()
    ensures IsStop('"') && !IsBreak('"')
  {
  }

  lemma AssignReads(name: string, value: string)
    requires IsPlainName(name)
    ensures ReadOne([BareItem(AssignItem(name, value))]) == Ok([(name, value)])
  {
    hide IsStop;
    var key := name + "=";
    var glyphs := BarePieces(AssignPieces(name, value));
    var second := [Piece(STRING, |Quoted(value)|, value)];
    assert AssignPieces(name, value)[1..] == second && second[1..] == [];
    assert BarePieces(second) == [Glyph(STRING, value)];
    assert glyphs == [Glyph(KEYWORD_STRING, key), Glyph(STRING, value)];
    SpellTwo(Glyph(KEYWORD_STRING, key), Glyph(STRING, value));
    var text := key + value;
    assert '=' in key;
    assert text[|name|] == '=';
    IndexOfIs(text, '=', |name|);
    assert text[..|name|] == name && text[|name| + 1..] == value;
  }

  lemma SpellTwo(g: Glyph, h: Glyph)
    requires g.kind == KEYWORD_STRING && h.kind == STRING
    ensures Spell([g, h]) == Ok(g.value + h.value)
  {
    assert [g, h][1..] == [h] && [h][1..] == [];
    assert h.value + "" == h.value;
    assert Spell([h]) == Ok(h.value);
  }

  // The items of a text that begins with an assignment.
  lemma LexAssign(name: string, value: string, rest: string)
    requires IsPlainName(name) && (rest != "" ==> IsBreak(rest[0])) && Lex(rest).fault.None?
    ensures Lex(AssignText(name, value) + rest) == Lexed([AssignItem(name, value)] + Lex(rest).items, None)
  {
    hide Word, AssignPieces;
    var x := AssignText(name, value);
    var t := x + rest;
    AssignTextIsWord(name, value, rest);
    assert t[|x|..] == rest;
  }

  lemma LexNewline(rest: string)
    requires Lex(rest).fault.None?
    ensures Lex("\n" + rest) == Lexed([Lexeme(NEWLINE, 1, [])] + Lex(rest).items, None)
  {
    hide Lex, Word, CommentLen;
    assert ("\n" + rest)[1..] == rest;
    LexIs("\n" + rest);
  }

  // ---------------------------------------------------- names that are read

  lemma {:induction false} UnquotedKeyword(t: string, seen: nat, sb: string)
    requires seen == |sb| && forall k :: 0 <= k < |sb| ==> IsPlain(sb[k])
    ensures var p := Unquoted(t, seen, sb, false).pieces;
      p != [] && p[0].kind == KEYWORD_STRING ==>
        && (forall k :: 0 <= k < |p[0].value| ==> IsPlain(p[0].value[k]))
        && sb <= p[0].value
        && (sb == "" && p[0].value != "" ==> t != "" && p[0].value[0] == t[0])
    decreases |t|
  {
    hide IsStop;
    if t == "" || IsStop(t[0]) {
    } else if t[0] == '\\' {
      if seen == 0 {
        NoKeyword(t, 0, "");
      }
    } else {
      UnquotedKeyword(t[1..], seen + 1, sb + [t[0]]);
      assert (sb + [t[0]])[|sb|] == t[0];
    }
  }

  lemma {:induction false} NoKeyword(t: string, seen: nat, sb: string)
    ensures var p := Unquoted(t, seen, sb, true).pieces; p != [] && p[0].kind == STRING
    decreases |t|
  {
    hide IsStop;
    if t == "" || IsStop(t[0]) || (t[0] == '\\' && |t| == 1) {
    } else if t[0] == '\\' {
      NoKeyword(t[2..], seen + 2, if t[1] == '\n' then sb else sb + [t[1]]);
    } else {
      NoKeyword(t[1..], seen + 1, sb + [t[0]]);
    }
  }

  lemma {:induction false} NoKeywordQuoted(t: string, seen: nat, sb: string)
    requires DoubleQuoted(t, seen, sb).fault.None?
    ensures var p := DoubleQuoted(t, seen, sb).pieces; p != [] && p[0].kind != KEYWORD_STRING
    decreases |t|, seen
  {
    hide NameLen;
    if t[0] == '"' {
    } else if t[0] == '\\' {
      NoKeywordQuoted(t[2..], seen + 2, sb + Unescape(t[1]));
    } else if t[0] != '$' {
      NoKeywordQuoted(t[1..], seen + 1, sb + [t[0]]);
    }
  }

  lemma {:induction false} NoKeywordSingle(t: string, seen: nat, sb: string)
    requires SingleQuoted(t, seen, sb).fault.None?
    ensures var p := SingleQuoted(t, seen, sb).pieces; p != [] && p[0].kind != KEYWORD_STRING
    decreases |t|
  {
    if t[0] == '\'' {
    } else {
      NoKeywordSingle(t[1..], seen + 1, sb + [t[0]]);
    }
  }

  // A word that begins with a keyword begins with its plain runes.
  lemma WordKeyword(t: string)
    requires t != "" && !IsBreak(t[0]) && Word(t, false).fault.None?
    ensures var p := Word(t, false).pieces;
      p != [] && p[0].kind == KEYWORD_STRING && p[0].value != "" ==>
        p[0].value[0] == t[0] && forall k :: 0 <= k < |p[0].value| ==> IsPlain(p[0].value[k])
  {
    hide IsBreak, IsStop, NameLen, Unquoted, DoubleQuoted, SingleQuoted;
    var part := Part(t, false);
    if t[0] == '"' {
      NoKeywordQuoted(t[1..], 1, "");
    } else if t[0] == '\'' {
      NoKeywordSingle(t[1..], 1, "");
    } else if t[0] != '$' {
      NoPieces(t);
      UnquotedKeyword(t, 0, "");
    }
    assert part.pieces != [] ==> Word(t, false).pieces[0] == part.pieces[0];
  }

  lemma NoPieces(t: string)
    ensures Unquoted(t, 0, "", false).pieces != []
  {
    hide IsStop;
    if t != "" && !IsStop(t[0]) {
      if t[0] == '\\' {
        NoKeyword(t, 0, "");
      } else {
        NoPiecesLater(t[1..], 1, [t[0]]);
      }
    }
  }

  lemma {:induction false} NoPiecesLater(t: string, seen: nat, sb: string)
    requires seen > 0
    ensures Unquoted(t, seen, sb, false).pieces != []
    decreases |t|
  {
    hide IsStop;
    if t != "" && !IsStop(t[0]) && t[0] != '\\' {
      NoPiecesLater(t[1..], seen + 1, sb + [t[0]]);
    }
  }

  // Item m of a text is read off the text from where it begins.
  lemma {:induction false} ItemAt(t: string, m: nat)
    requires Lex(t).fault.None? && m < |Lex(t).items|
    ensures var i := Extent(Lex(t).items[..m]);
      && i < |t| && First(t[i..]).0 == Lex(t).items[m] && First(t[i..]).1.fault.None?
      && First(t[i..]).1.n == ItemLen(Lex(t).items[m])
      && i + ItemLen(Lex(t).items[m]) <= |t|
      && Lex(t[i + ItemLen(Lex(t).items[m])..]) == Lexed(Lex(t).items[m + 1..], None)
    decreases m
  {
    hide Lex, First;
    var items := Lex(t).items;
    var n := LexTail(t, m + 1);
    if m == 0 {
      assert items[..0] == [] && t[0..] == t;
    } else {
      var _ := LexTail(t, m);
      assert Lex(t[n..]).items[m - 1] == items[m];
      ItemAt(t[n..], m - 1);
      var j := Extent(Lex(t[n..]).items[..m - 1]);
      assert t[n..][j..] == t[n + j..];
      assert t[n..][j + ItemLen(items[m])..] == t[n + j + ItemLen(items[m])..];
    }
  }

  // The word of an assignment: it begins with a plain rune, its name is plain,
  // and a break follows it.
  lemma AssignWord(content: string, assigns: seq<VarAssign>, k: nat, m: nat, sep: Option<nat>)
    requires k < |assigns| && Lex(content).fault.None? && IsAt(content, assigns, k, m, sep)
    ensures m < |Lex(content).items| && Lex(content).items[m].Lexeme?
    ensures var i := Extent(Lex(content).items[..m]); var e := i + Lex(content).items[m].len;
      i < e <= |content| && IsPlain(content[i]) && content[i] != '#' && (e < |content| ==> IsBreak(content[e]))
    ensures IsPlainName(assigns[k].name)
    ensures var item := Lex(content).items[m]; var i := Extent(Lex(content).items[..m]);
      Word(content[i..], false) == Scan(item.len, item.pieces, None)
    ensures var items := Lex(content).items;
      Lex(content[Extent(items[..m]) + items[m].len..]) == Lexed(items[m + 1..], None)
  {
    hide *;
    ReadsAt(content, assigns, k, m, sep);
    ItemAt(content, m);
    var item := Lex(content).items[m];
    LexemeLen(item);
    var i := Extent(Lex(content).items[..m]);
    WordOf(content[i..], item, (assigns[k].name, assigns[k].value));
    assert content[i..][0] == content[i];
    assert item.len < |content[i..]| ==> content[i..][item.len] == content[i + item.len];
  }

  lemma ReadsAt(content: string, assigns: seq<VarAssign>, k: nat, m: nat, sep: Option<nat>)
    requires k < |assigns| && IsAt(content, assigns, k, m, sep)
    ensures m < |Lex(content).items| && Lex(content).items[m].Lexeme? && Lex(content).items[m].kind == WORD
    ensures ReadOne([BareItem(Lex(content).items[m])]) == Ok([(assigns[k].name, assigns[k].value)])
  {
    hide Lex, Read, ReadOne, BareItems, BareItem, PairsOf, Extent;
  }

  lemma LexemeLen(item: Item)
    ensures item.Lexeme? ==> ItemLen(item) == item.len
  {
  }

  lemma WordOf(t: string, item: Item, p: Pair)
    requires t != "" && First(t).0 == item && First(t).1.fault.None? && item.Lexeme? && item.kind == WORD
    requires ReadOne([BareItem(item)]) == Ok([p])
    ensures IsPlain(t[0]) && t[0] != '#' && IsPlainName(p.0)
    ensures Word(t, false) == Scan(item.len, item.pieces, None)
    ensures item.len <= |t| && (item.len < |t| ==> IsBreak(t[item.len]))
  {
    hide First, Word, IsBreak, IsPlain, IsPlainName, ReadOne, BareItem;
    FirstCases(t);
    WordKeyword(t);
    KeywordName(item, p);
    PlainPrefix(p.0, item.pieces[0].value);
  }

  lemma PlainPrefix(name: string, value: string)
    requires |name| <= |value| && forall j :: 0 <= j < |name| ==> name[j] == value[j] && name[j] != '='
    requires forall j :: 0 <= j < |value| ==> IsPlain(value[j])
    requires value != "" && value[0] != '#'
    ensures IsPlainName(name) && IsPlain(value[0])
  {
    hide IsPlain;
  }

  lemma FirstCases(t: string)
    requires t != "" && First(t).0.Lexeme? && First(t).0.kind == WORD && First(t).1.fault.None?
    ensures !IsBreak(t[0]) && t[0] != '#' && Word(t, false) == First(t).1
    ensures First(t).0 == Lexeme(WORD, Word(t, false).n, Word(t, false).pieces)
  {
    hide Word, CommentLen;
  }

  lemma KeywordName(item: Item, p: Pair)
    requires item.Lexeme? && ReadOne([BareItem(item)]) == Ok([p])
    ensures item.pieces != [] && item.pieces[0].kind == KEYWORD_STRING && item.pieces[0].value != ""
    ensures p.0 != "" ==> p.0[0] == item.pieces[0].value[0]
    ensures |p.0| <= |item.pieces[0].value|
    ensures forall j :: 0 <= j < |p.0| ==> p.0[j] == item.pieces[0].value[j] && p.0[j] != '='
  {
    hide IndexOf;
    var glyphs := BarePieces(item.pieces);
    var value := item.pieces[0].value;
    var rest := Spell(glyphs[1..]);
    var text := Spell(glyphs).value;
    assert text == value + rest.value;
    var n := IndexOf(value, '=');
    assert forall j :: 0 <= j < n ==> value[..n][j] != '=' && text[j] == value[..n][j];
    IndexOfIs(text, '=', n);
  }
}
