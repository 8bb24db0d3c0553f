// Tokenizing loses nothing: the tokens and the blanks between them are the file.
module GrubLossless {
  import opened FileScanning
  import opened GrubTokens
  import opened Wrappers

  predicate AllSpaces(g: string) {
    forall k :: 0 <= k < |g| ==> IsSpace(g[k])
  }

  // Spaces and tabs, then possibly a comment.
  predicate IsGap(g: string) {
    if g == "" then true
    else if g[0] == '#' then '\n' !in g
    else IsSpace(g[0]) && IsGap(g[1..])
  }

  // The sub-words lie end to end from index i to index j of s.
  predicate SubWordsTile(s: string, i: nat, j: nat, subWords: seq<SubWord>)
    decreases |subWords|
  {
    if subWords == [] then i == j
    else
      var w := subWords[0];
      var k := w.loc.end.index;
      && i <= k <= j <= |s|
      && w.loc == Span(LocAt(s, i), LocAt(s, k))
      && w.rawContent == s[i..k]
      && SubWordsTile(s, k, j, subWords[1..])
  }

  // A token is where it says it is, is not empty, and is made of its sub-words.
  predicate IsTokenOf(s: string, t: Token) {
    var i, j := t.loc.start.index, t.loc.end.index;
    && i < j <= |s|
    && t.loc == Span(LocAt(s, i), LocAt(s, j))
    && t.rawContent == s[i..j]
    && if t.kind == WORD then SubWordsTile(s, i, j, t.subWords)
       else j == i + 1 && IsMeta(s[i]) && t.kind == MetaType(s[i]) && t.subWords == []
  }

  // From index i on, s is gap, token, gap, token, ..., gap.
  predicate Tiles(s: string, i: nat, tokens: seq<Token>)
    requires i <= |s|
    decreases |tokens|
  {
    if tokens == [] then IsGap(s[i..])
    else
      var t := tokens[0];
      && IsTokenOf(s, t)
      && i <= t.loc.start.index
      && IsGap(s[i..t.loc.start.index])
      && Tiles(s, t.loc.end.index, tokens[1..])
  }

  lemma Lossless(s: string)
    requires Lex(s).fault.None?
    ensures Tiles(s, 0, Tokens(s))
  {
    assert s[0..] == s && s[0..0] == "";
    LexTiles(s, 0, 0);
  }

  // g is where the current gap began.
  lemma {:induction false} LexTiles(s: string, g: nat, i: nat)
    requires g <= i <= |s| && Lex(s[i..]).fault.None?
    requires IsGap(s[g..i])
    requires i < |s| && s[i] != '\n' ==> AllSpaces(s[g..i])
    ensures Tiles(s, g, Place(s, i, Lex(s[i..]).items))
    decreases |s| - i
  {
    hide LocAt, IsTokenOf, PlaceToken, First, Lex, Place, IsGap;
    var t := s[i..];
    if i == |s| {
      assert s[g..] == s[g..i];
      NothingLexed(s, i);
    } else {
      var (item, r) := First(t);
      LexUnfold(s, i);
      FirstKinds(t);
      if item.Lexeme? {
        NoGap(s, i + r.n);
        LexTiles(s, i + r.n, i + r.n);
        PlaceTokenTiles(s, i);
        var rest := Place(s, i + r.n, Lex(s[i + r.n..]).items);
        assert ([PlaceToken(s, i, item)] + rest)[1..] == rest;
      } else if item.Space? {
        assert s[g..i + 1] == s[g..i] + [s[i]];
        SpacesAreGap(s[g..i + 1]);
        LexTiles(s, g, i + 1);
      } else {
        assert s[g..i + r.n] == s[g..i] + t[..r.n];
        SpacesThenComment(s[g..i], t[..r.n]);
        LexTiles(s, g, i + r.n);
      }
    }
  }

  lemma NoGap(s: string, i: nat)
    requires i <= |s|
    ensures IsGap(s[i..i]) && AllSpaces(s[i..i])
  {
  }

  lemma NothingLexed(s: string, i: nat)
    requires i == |s|
    ensures Place(s, i, Lex(s[i..]).items) == []
  {
  }

  lemma LexUnfold(s: string, i: nat)
    requires i < |s| && Lex(s[i..]).fault.None?
    ensures var (item, r) := First(s[i..]);
      && r.fault.None? && Lex(s[i + r.n..]).fault.None?
      && Place(s, i, Lex(s[i..]).items) == (
        if item.Lexeme? then [PlaceToken(s, i, item)] + Place(s, i + r.n, Lex(s[i + r.n..]).items)
        else Place(s, i + r.n, Lex(s[i + r.n..]).items))
  {
    hide First, PlaceToken;
    var (item, r) := First(s[i..]);
    var rest := Lex(s[i + r.n..]).items;
    assert s[i..][r.n..] == s[i + r.n..];
    assert ([item] + rest)[1..] == rest;
  }

  lemma FirstKinds(t: string)
    requires t != ""
    ensures var (item, r) := First(t);
      && (t[0] == '\n' ==> item.Lexeme?)
      && (item.Space? ==> IsSpace(t[0]) && r.n == 1)
      && (item.Comment? ==> t[0] == '#' && '\n' !in t[..r.n] && (r.n < |t| ==> t[r.n] == '\n'))
  {
    hide Word;
  }

  lemma PlaceTokenTiles(s: string, i: nat)
    requires i < |s| && First(s[i..]).0.Lexeme? && First(s[i..]).1.fault.None?
    ensures var (item, r) := First(s[i..]);
      IsTokenOf(s, PlaceToken(s, i, item)) && PlaceToken(s, i, item).loc.start.index == i
      && PlaceToken(s, i, item).loc.end.index == i + r.n
  {
    hide LocAt, Word;
    var (item, r) := First(s[i..]);
    assert Slice(s, i, i + item.len) == s[i..i + item.len];
    if item.kind == WORD {
      WordPiecesTile(s, i);
    } else {
      assert PlacePieces(s, i, []) == [];
    }
  }

  lemma WordPiecesTile(s: string, i: nat)
    requires i < |s| && Word(s[i..], false).fault.None?
    ensures var w := Word(s[i..], false); SubWordsTile(s, i, i + w.n, PlacePieces(s, i, w.pieces))
  {
    hide Word, PlacePieces, SubWordsTile;
    var w := Word(s[i..], false);
    PiecesTile(s, i, w.pieces);
  }

  lemma {:induction false} PiecesTile(s: string, i: nat, pieces: seq<Piece>)
    requires i + Total(pieces) <= |s|
    ensures SubWordsTile(s, i, i + Total(pieces), PlacePieces(s, i, pieces))
    decreases |pieces|
  {
    hide LocAt;
    if pieces == [] {
    } else {
      PiecesTile(s, i + pieces[0].len, pieces[1..]);
      var subWords := PlacePieces(s, i, pieces);
      assert subWords[1..] == PlacePieces(s, i + pieces[0].len, pieces[1..]);
    }
  }

  lemma {:induction false} SpacesAreGap(g: string)
    requires AllSpaces(g)
    ensures IsGap(g)
  {
    if g == "" {
    } else {
      SpacesAreGap(g[1..]);
    }
  }

  lemma {:induction false} SpacesThenComment(g: string, c: string)
    requires AllSpaces(g) && c != "" && c[0] == '#' && '\n' !in c
    ensures IsGap(g + c)
  {
    if g == "" {
      assert g + c == c;
    } else {
      SpacesThenComment(g[1..], c);
      assert (g + c)[1..] == g[1..] + c;
    }
  }
}
