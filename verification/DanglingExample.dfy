// The smallest kind of file in which a new variable is lost: two assignments, and
// a lone backslash at the end.
module DanglingExample {
  import opened GrubTokens
  import opened Wrappers
  import opened GrubLocality
  import opened DefaultGrub
  import opened GrubAssignments
  import opened DefaultGrubLaw
  import opened DefaultGrubUpdate

  const CONTENT := "a=1\nb=2\\"

  function FirstWord(): seq<Piece> {
    [Piece(KEYWORD_STRING, 3, "a=1")]
  }

  function SecondWord(): seq<Piece> {
    [Piece(KEYWORD_STRING, 3, "b=2"), Piece(STRING, 1, "\\")]
  }

  function Items(): seq<Item> {
    [Lexeme(WORD, 3, FirstWord()), Lexeme(NEWLINE, 1, []), Lexeme(WORD, 4, SecondWord())]
  }

  lemma FirstWordIs()
    ensures Word(CONTENT, false) == Scan(3, FirstWord(), None)
  {
    hide *;
    var rest := "\nb=2\\";
    ContentParts(rest);
    PlainRunes();
    PlainRun("a=1", rest, 0, "");
    WordAlone(CONTENT, Piece(KEYWORD_STRING, 3, "a=1"), rest);
  }

  lemma ContentParts(rest: string)
    requires rest == "\nb=2\\"
    ensures CONTENT == "a=1" + rest && CONTENT[3..] == rest && "" + "a=1" == "a=1"
    ensures FirstWord() == [Piece(KEYWORD_STRING, 3, "a=1")]
  {
  }

  lemma WordAlone(t: string, p: Piece, rest: string)
    requires t != "" && !IsBreak(t[0]) && t[0] != '"' && t[0] != '\'' && t[0] != '$'
    requires Unquoted(t, 0, "", false) == Scan(p.len, [p], None) && p.len <= |t|
    requires t[p.len..] == rest && rest != "" && IsBreak(rest[0])
    ensures Word(t, false) == Scan(p.len, [p], None)
  {
    hide Unquoted, IsBreak;
    assert Part(t, false) == Scan(p.len, [p], None);
    assert Word(rest, true) == Scan(0, [], None);
    assert [p] + [] == [p];
  }

  lemma PlainRunes()
    ensures forall k :: 0 <= k < 3 ==> IsPlain("a=1"[k])
    ensures IsStop('\n') && IsBreak('\n') && !IsBreak('a')
  {
  }

  lemma BackslashIs()
    ensures Unquoted("\\", 3, "b=2", false) == Scan(1, SecondWord(), None)
  {
    assert Unquoted("\\", 0, "", true) == Scan(1, [Piece(STRING, 1, "" + "\\")], None);
    assert "" + "\\" == "\\";
  }

  lemma PlainStep(t: string, more: string, seen: nat, sb: string, p: seq<Piece>, n: nat)
    requires t != "" && IsPlain(t[0]) && t[1..] == more
    requires Unquoted(more, seen + 1, sb + [t[0]], false) == Scan(n, p, None)
    ensures Unquoted(t, seen, sb, false) == Scan(n + 1, p, None)
  {
  }

  lemma SecondStringIs()
    ensures Unquoted("b=2\\", 0, "", false) == Scan(4, SecondWord(), None)
  {
    hide *;
    MorePlain();
    BackslashIs();
    PlainStep("2\\", "\\", 2, "b=", SecondWord(), 1);
    PlainStep("=2\\", "2\\", 1, "b", SecondWord(), 2);
    PlainStep("b=2\\", "=2\\", 0, "", SecondWord(), 3);
  }

  lemma MorePlain()
    ensures IsPlain('b') && IsPlain('=') && IsPlain('2')
    ensures "b=2\\"[1..] == "=2\\" && "=2\\"[1..] == "2\\" && "2\\"[1..] == "\\"
    ensures "" + ['b'] == "b" && "b" + ['='] == "b=" && "b=" + ['2'] == "b=2"
  {
  }

  lemma SecondWordIs()
    ensures Word("b=2\\", false) == Scan(4, SecondWord(), None)
  {
    SecondStringIs();
    hide Unquoted;
    assert Part("b=2\\", false) == Scan(4, SecondWord(), None);
    assert "b=2\\"[4..] == "" && Word("", true) == Scan(0, [], None);
    assert SecondWord() + [] == SecondWord();
  }

  lemma SecondLexeme()
    ensures First("b=2\\") == (Lexeme(WORD, 4, SecondWord()), Scan(4, SecondWord(), None))
    ensures First("\nb=2\\") == (Lexeme(NEWLINE, 1, []), Scan(1, [], None))
    ensures First(CONTENT) == (Lexeme(WORD, 3, FirstWord()), Scan(3, FirstWord(), None))
  {
    FirstWordIs();
    SecondWordIs();
    hide Word, FirstWord, SecondWord;
  }

  lemma LexIsItems()
    ensures Lex(CONTENT) == Lexed(Items(), None)
  {
    SecondLexeme();
    hide First, FirstWord, SecondWord;
    LexNothing();
    LexIs("b=2\\");
    assert "b=2\\"[4..] == "";
    LexIs("\nb=2\\");
    assert "\nb=2\\"[1..] == "b=2\\";
    LexIs(CONTENT);
    assert CONTENT[3..] == "\nb=2\\";
  }

  // What the two words assign.
  lemma WordsRead()
    ensures ReadLine([BareItem(Items()[0])]) == Ok(Some(("a", "1")))
    ensures ReadLine([BareItem(Items()[2])]) == Ok(Some(("b", "2\\")))
  {
    var g := Glyph(KEYWORD_STRING, "a=1");
    assert FirstWord()[1..] == [];
    assert BarePieces(FirstWord()) == [g];
    assert [g][1..] == [] && "a=1" + "" == "a=1";
    assert Spell([g]) == Ok("a=1");
    IndexOfIs("a=1", '=', 1);
    assert "a=1"[..1] == "a" && "a=1"[2..] == "1";
    var h, i := Glyph(KEYWORD_STRING, "b=2"), Glyph(STRING, "\\");
    assert SecondWord()[1..] == [Piece(STRING, 1, "\\")];
    assert BarePieces(SecondWord()[1..]) == [i];
    assert BarePieces(SecondWord()) == [h, i];
    SpellTwo(h, i);
    assert "b=2" + "\\" == "b=2\\";
    IndexOfIs("b=2\\", '=', 1);
    assert "b=2\\"[..1] == "b" && "b=2\\"[2..] == "2\\";
  }

  lemma LinesAre(t: Token, e: Token, u: Token)
    requires t.kind == WORD && e.kind == NEWLINE && u.kind == WORD
    ensures LinesOf([t, e, u], []) == [Line([t], Some(e)), Line([u], None)]
  {
    var tokens := [t, e, u];
    assert tokens[1..] == [e, u] && [e, u][1..] == [u] && [u][1..] == [];
    assert [] + [t] == [t] && [] + [u] == [u];
    assert LinesOf([], [u]) == [Line([u], None)];
    assert LinesOf([u], []) == [Line([u], None)];
    assert LinesOf([e, u], [t]) == [Line([t], Some(e))] + [Line([u], None)];
  }

  lemma AssignsAre(t: Token, e: Token, u: Token, p: Pair, q: Pair)
    requires ReadLine(BareTokens([t])) == Ok(Some(p)) && ReadLine(BareTokens([u])) == Ok(Some(q))
    ensures AssignsOf([Line([t], Some(e)), Line([u], None)]) ==
      Ok([VarAssign(t, Line([t], Some(e)), p.0, p.1), VarAssign(u, Line([u], None), q.0, q.1)])
  {
    hide ReadLine, BareTokens, AssignsOf;
    var v, w := VarAssign(t, Line([t], Some(e)), p.0, p.1), VarAssign(u, Line([u], None), q.0, q.1);
    assert [w] + [] == [w] && [v] + [w] == [v, w];
    NoLines();
    AssignsCons(Line([u], None), []);
    AssignsCons(Line([t], Some(e)), [Line([u], None)]);
    assert [Line([u], None)] + [] == [Line([u], None)];
    assert [Line([t], Some(e))] + [Line([u], None)] == [Line([t], Some(e)), Line([u], None)];
  }

  // Both assignments are read, a third one would go behind the backslash, and so
  // it is not read back.
  lemma NewVariableIsLost(name: string, value: string)
    requires name != "a" && name != "b"
    ensures FindAssigns(CONTENT).Ok? && PairsOf(FindAssigns(CONTENT).value) == [("a", "1"), ("b", "2\\")]
    ensures DanglesAtEof(CONTENT, FindAssigns(CONTENT).value)
    ensures Updated(CONTENT, name, value).Ok?
    ensures Assignments(Updated(CONTENT, name, value).value) !=
      Ok(SetPair([("a", "1"), ("b", "2\\")], name, value))
  {
    var assigns := BothAreRead();
    hide *;
    GetAfterSet(CONTENT, name, value);
    FirstNamedIs(assigns, name, 2);
  }

  lemma BothAreRead() returns (assigns: seq<VarAssign>)
    ensures FindAssigns(CONTENT) == Ok(assigns) && |assigns| == 2
    ensures assigns[0].name == "a" && assigns[1].name == "b"
    ensures PairsOf(assigns) == [("a", "1"), ("b", "2\\")]
    ensures DanglesAtEof(CONTENT, assigns)
  {
    hide *;
    LexIsItems();
    WordsRead();
    var items := Items();
    ItemsAre();
    var t, e, u := PlaceToken(CONTENT, 0, items[0]), PlaceToken(CONTENT, 3, items[1]), PlaceToken(CONTENT, 4, items[2]);
    TokensAre();
    BarePlaceToken(CONTENT, 0, items[0]);
    BarePlaceToken(CONTENT, 3, items[1]);
    BarePlaceToken(CONTENT, 4, items[2]);
    OneBare(t);
    OneBare(u);
    LinesAre(t, e, u);
    AssignsAre(t, e, u, ("a", "1"), ("b", "2\\"));
    assigns := [VarAssign(t, Line([t], Some(e)), "a", "1"), VarAssign(u, Line([u], None), "b", "2\\")];
    FindIs(CONTENT);
    PairsAre(assigns[0], assigns[1]);
    PlaceTokenLoc(CONTENT, 4, items[2]);
    Dangling(assigns);
  }

  lemma ItemsAre()
    ensures |Items()| == 3 && forall k :: 0 <= k < 3 ==> Items()[k].Lexeme?
    ensures Items()[0].kind == WORD && Items()[1].kind == NEWLINE && Items()[2].kind == WORD
    ensures Items()[2].len == 4 && |CONTENT| == 8
  {
  }

  lemma TokensAre()
    requires Lex(CONTENT) == Lexed(Items(), None) && |Items()| == 3
    ensures Tokens(CONTENT) ==
      [PlaceToken(CONTENT, 0, Items()[0]), PlaceToken(CONTENT, 3, Items()[1]), PlaceToken(CONTENT, 4, Items()[2])]
  {
    hide Lex, PlaceToken;
    var items := Items();
    assert items[1..] == [items[1], items[2]] && items[1..][1..] == [items[2]] && items[1..][1..][1..] == [];
    assert Place(CONTENT, 8, []) == [];
    assert Place(CONTENT, 4, [items[2]]) == [PlaceToken(CONTENT, 4, items[2])];
    assert Place(CONTENT, 3, items[1..]) == [PlaceToken(CONTENT, 3, items[1]), PlaceToken(CONTENT, 4, items[2])];
  }

  lemma OneBare(t: Token)
    ensures BareTokens([t]) == [BareToken(t)]
  {
    hide BareToken;
  }

  lemma FindIs(content: string)
    requires Lex(content).fault.None?
    ensures FindAssigns(content) == AssignsOf(LinesOf(Tokens(content), []))
  {
    hide Lex, AssignsOf, LinesOf, Tokens;
  }

  lemma PairsAre(v: VarAssign, w: VarAssign)
    ensures PairsOf([v, w]) == [(v.name, v.value), (w.name, w.value)]
  {
  }

  lemma Dangling(assigns: seq<VarAssign>)
    requires |assigns| == 2 && assigns[1].line == Line([assigns[1].token], None)
    requires assigns[1].token.loc.end.index == 8
    ensures DanglesAtEof(CONTENT, assigns)
  {
    assert CONTENT[..7][6] == '2' && CONTENT[7] == '\\';
    assert !OddTail(CONTENT[..7]);
  }
}
