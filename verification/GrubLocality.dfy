// Lexing is local: what a piece of a file means depends on its own text and on
// the one rune after it.
module GrubLocality {
  import opened GrubTokens
  import opened Wrappers

  // ------------------------------------------------ trailing backslashes

  // t ends in an odd number of backslashes, the last of which escapes whatever
  // would be appended.
  predicate OddTail(t: string) {
    t != "" && t[|t| - 1] == '\\' && !OddTail(t[..|t| - 1])
  }

  // Only the backslashes behind the last other rune matter.
  lemma {:induction false} OddTailSuffix(t: string, k: nat)
    requires 0 < k < |t| && (t[k] != '\\' || t[k - 1] != '\\')
    ensures OddTail(t[k..]) == OddTail(t)
    decreases |t|
  {
    var n := |t| - 1;
    assert t[k..][..n - k] == t[..n][k..];
    if k < n {
      OddTailSuffix(t[..n], k);
    } else if t[k] == '\\' {
      assert t[..n][k..] == "";
    }
  }

  // Backslashes come in pairs.
  lemma {:induction false} OddTailPair(t: string)
    requires |t| >= 2 && t[0] == '\\'
    ensures OddTail(t[2..]) == OddTail(t)
    decreases |t|
  {
    var n := |t| - 1;
    if n > 1 {
      OddTailPair(t[..n]);
      assert t[2..][..n - 2] == t[..n][2..];
    } else {
      assert t[..1][..0] == "";
    }
  }

  lemma LoneBackslash(t: string)
    requires |t| == 1 && t[0] == '\\'
    ensures OddTail(t)
  {
    assert t[..0] == "";
  }

  lemma OddTailStep(t: string)
    requires |t| >= 1 && t[0] != '\\'
    ensures OddTail(t[1..]) == OddTail(t)
  {
    if |t| > 1 {
      OddTailSuffix(t, 1);
    }
  }

  // ------------------------------------------------- reading it again
  //
  // In each lemma below a piece was read off the front of t.  It is read off t'
  // as well if t' begins with the same runes and goes on in a way that does not
  // extend the piece.

  predicate Agree(t: string, t': string, n: nat) {
    n <= |t| && n <= |t'| && forall k :: 0 <= k < n ==> t[k] == t'[k]
  }

  // After n runes t' goes on like t, or else with a newline; the latter is not
  // enough if t ends there with a backslash that would escape it.
  predicate GoesOn(t: string, t': string, n: nat) {
    n < |t'| && ((n < |t| && t[n] == t'[n]) || (t'[n] == '\n' && (n < |t| || !OddTail(t))))
  }

  lemma GoesOnFacts(t: string, t': string, n: nat)
    requires Agree(t, t', n) && GoesOn(t, t', n)
    ensures n <= |t| && n < |t'|
    ensures n == |t| ==> !OddTail(t)
    ensures n > 0 ==> t'[0] == t[0]
    ensures n > 1 ==> t'[1] == t[1]
    ensures n == |t| || IsStop(t[n]) ==> IsStop(t'[n])
    ensures n == |t| || IsBreak(t[n]) ==> IsBreak(t'[n])
  {
  }

  lemma AgreeDrop(t: string, t': string, n: nat, k: nat)
    requires Agree(t, t', n) && k <= n
    ensures Agree(t[k..], t'[k..], n - k)
    ensures k < n ==> t[k] == t'[k]
  {
  }

  lemma Drop(t: string, t': string, n: nat, k: nat)
    requires Agree(t, t', n) && GoesOn(t, t', n) && k <= n
    requires n == |t| && k < |t| ==> OddTail(t[k..]) == OddTail(t)
    ensures Agree(t[k..], t'[k..], n - k) && GoesOn(t[k..], t'[k..], n - k)
  {
    hide OddTail;
    OddTailEmpty();
  }

  lemma OddTailEmpty()
    ensures !OddTail("")
  {
  }

  lemma UnquotedUnfold(t: string, seen: nat, sb: string, notFirst: bool)
    ensures t == "" || IsStop(t[0]) ==>
      Unquoted(t, seen, sb, notFirst) == Scan(0, [Piece(if notFirst then STRING else KEYWORD_STRING, seen, sb)], None)
    ensures t != "" && !IsStop(t[0]) && t[0] == '\\' && !notFirst ==>
      var rest := Unquoted(t, 0, "", true);
      && Unquoted(t, seen, sb, notFirst) == (if seen == 0 then rest else Prepend(Piece(KEYWORD_STRING, seen, sb), rest))
      && Unquoted(t, seen, sb, notFirst).n == rest.n
    ensures t != "" && !IsStop(t[0]) && t[0] == '\\' && notFirst && |t| == 1 ==>
      Unquoted(t, seen, sb, notFirst) == Scan(1, [Piece(STRING, seen + 1, sb + "\\")], None)
    ensures t != "" && !IsStop(t[0]) && t[0] == '\\' && notFirst && |t| > 1 ==>
      var rest := Unquoted(t[2..], seen + 2, if t[1] == '\n' then sb else sb + [t[1]], true);
      Unquoted(t, seen, sb, notFirst) == Skip(2, rest) && Unquoted(t, seen, sb, notFirst).n == rest.n + 2
    ensures t != "" && !IsStop(t[0]) && t[0] != '\\' ==>
      var rest := Unquoted(t[1..], seen + 1, sb + [t[0]], notFirst);
      Unquoted(t, seen, sb, notFirst) == Skip(1, rest) && Unquoted(t, seen, sb, notFirst).n == rest.n + 1
  {
    hide IsStop;
  }

  lemma {:induction false} UnquotedAgain(t: string, t': string, seen: nat, sb: string, notFirst: bool)
    requires Agree(t, t', Unquoted(t, seen, sb, notFirst).n)
    requires GoesOn(t, t', Unquoted(t, seen, sb, notFirst).n)
    ensures Unquoted(t', seen, sb, notFirst) == Unquoted(t, seen, sb, notFirst)
    decreases |t|, !notFirst
  {
    hide *;
    var n := Unquoted(t, seen, sb, notFirst).n;
    GoesOnFacts(t, t', n);
    UnquotedUnfold(t, seen, sb, notFirst);
    UnquotedUnfold(t', seen, sb, notFirst);
    if t == "" || IsStop(t[0]) {
    } else if t[0] == '\\' && !notFirst {
      UnquotedAgain(t, t', 0, "", true);
    } else if t[0] == '\\' && |t| == 1 {
      LoneBackslash(t);
    } else if t[0] == '\\' {
      OddTailPair(t);
      Drop(t, t', n, 2);
      UnquotedAgain(t[2..], t'[2..], seen + 2, if t[1] == '\n' then sb else sb + [t[1]], true);
    } else {
      OddTailStep(t);
      Drop(t, t', n, 1);
      UnquotedAgain(t[1..], t'[1..], seen + 1, sb + [t[0]], notFirst);
    }
  }

  lemma ExpansionAgain(t: string, t': string, kind: SubWordType)
    requires t != "" && t[0] == '$' && Expansion(t, kind).fault.None?
    requires Agree(t, t', Expansion(t, kind).n)
    requires GoesOn(t, t', Expansion(t, kind).n)
    ensures Expansion(t', kind) == Expansion(t, kind)
  {
    assert !IsNameChar('\n');
    hide NameLen, OddTail, IsNameChar;
    var open := if |t| > 1 && t[1] == '{' then 2 else 1;
    var m := NameLen(t[open..]);
    assert forall k :: 0 <= k < m ==> t'[open..][k] == t[open..][k];
    NameLenUnique(t'[open..], m);
    assert t'[open..open + m] == t[open..open + m];
  }

  lemma {:induction false} DoubleQuotedAgain(t: string, t': string, seen: nat, sb: string)
    requires DoubleQuoted(t, seen, sb).fault.None?
    requires Agree(t, t', DoubleQuoted(t, seen, sb).n)
    ensures DoubleQuoted(t', seen, sb) == DoubleQuoted(t, seen, sb)
    decreases |t|, seen
  {
    hide Expansion;
    var n := DoubleQuoted(t, seen, sb).n;
    DoubleQuotedEnd(t, seen, sb);
    if t[0] == '"' {
    } else if t[0] == '\\' {
      AgreeDrop(t, t', n, 2);
      DoubleQuotedAgain(t[2..], t'[2..], seen + 2, sb + Unescape(t[1]));
    } else if t[0] == '$' && seen != 0 {
      DoubleQuotedAgain(t, t', 0, "");
    } else if t[0] == '$' {
      var e := Expansion(t, QUOTED_VAR_EXPANSION);
      DoubleQuotedEnd(t[e.n..], 0, "");
      ExpansionAgain(t, t', QUOTED_VAR_EXPANSION);
      AgreeDrop(t, t', n, e.n);
      DoubleQuotedAgain(t[e.n..], t'[e.n..], 0, "");
    } else {
      AgreeDrop(t, t', n, 1);
      DoubleQuotedAgain(t[1..], t'[1..], seen + 1, sb + [t[0]]);
    }
  }

  // A string that ends has its closing quote.
  lemma {:induction false} DoubleQuotedEnd(t: string, seen: nat, sb: string)
    requires DoubleQuoted(t, seen, sb).fault.None?
    ensures var n := DoubleQuoted(t, seen, sb).n; n > 0 && t[n - 1] == '"'
    decreases |t|, seen
  {
    hide Expansion;
    if t[0] == '"' {
    } else if t[0] == '\\' {
      DoubleQuotedEnd(t[2..], seen + 2, sb + Unescape(t[1]));
    } else if t[0] == '$' && seen != 0 {
      DoubleQuotedEnd(t, 0, "");
    } else if t[0] == '$' {
      DoubleQuotedEnd(t[Expansion(t, QUOTED_VAR_EXPANSION).n..], 0, "");
    } else {
      DoubleQuotedEnd(t[1..], seen + 1, sb + [t[0]]);
    }
  }

  lemma {:induction false} SingleQuotedAgain(t: string, t': string, seen: nat, sb: string)
    requires SingleQuoted(t, seen, sb).fault.None?
    requires Agree(t, t', SingleQuoted(t, seen, sb).n)
    ensures SingleQuoted(t', seen, sb) == SingleQuoted(t, seen, sb)
    decreases |t|
  {
    if t[0] == '\'' {
    } else {
      AgreeDrop(t, t', SingleQuoted(t, seen, sb).n, 1);
      SingleQuotedAgain(t[1..], t'[1..], seen + 1, sb + [t[0]]);
    }
  }

  lemma {:induction false} SingleQuotedEnd(t: string, seen: nat, sb: string)
    requires SingleQuoted(t, seen, sb).fault.None?
    ensures var n := SingleQuoted(t, seen, sb).n; n > 0 && t[n - 1] == '\''
    decreases |t|
  {
    if t[0] == '\'' {
    } else {
      SingleQuotedEnd(t[1..], seen + 1, sb + [t[0]]);
    }
  }

  lemma PartAgain(t: string, t': string, notFirst: bool)
    requires t != "" && !IsBreak(t[0]) && Part(t, notFirst).fault.None?
    requires Agree(t, t', Part(t, notFirst).n)
    requires GoesOn(t, t', Part(t, notFirst).n)
    ensures t' != "" && t'[0] == t[0] && Part(t', notFirst) == Part(t, notFirst)
  {
    hide Unquoted, DoubleQuoted, SingleQuoted, Expansion, OddTail, IsBreak, IsStop;
    var n := Part(t, notFirst).n;
    if t[0] == '"' {
      AgreeDrop(t, t', n, 1);
      DoubleQuotedAgain(t[1..], t'[1..], 1, "");
    } else if t[0] == '\'' {
      AgreeDrop(t, t', n, 1);
      SingleQuotedAgain(t[1..], t'[1..], 1, "");
    } else if t[0] == '$' {
      ExpansionAgain(t, t', VAR_EXPANSION);
    } else {
      UnquotedAgain(t, t', 0, "", notFirst);
    }
  }

  // Where a part ends, a backslash is not followed by another.
  lemma PartEnd(t: string, notFirst: bool)
    requires t != "" && !IsBreak(t[0]) && Part(t, notFirst).fault.None?
    ensures var n := Part(t, notFirst).n; n == |t| || t[n] != '\\' || t[n - 1] != '\\'
  {
    hide Unquoted, DoubleQuoted, SingleQuoted, NameLen, IsBreak;
    var n := Part(t, notFirst).n;
    if t[0] == '"' {
      DoubleQuotedEnd(t[1..], 1, "");
    } else if t[0] == '\'' {
      SingleQuotedEnd(t[1..], 1, "");
    } else if t[0] != '$' && n < |t| {
      assert IsStop(t[n]);
      BackslashIsNoBreak();
    }
  }

  lemma BackslashIsNoBreak()
    ensures !IsBreak('\\')
  {
  }

  lemma {:induction false} WordAgain(t: string, t': string, notFirst: bool)
    requires Word(t, notFirst).fault.None?
    requires Agree(t, t', Word(t, notFirst).n)
    requires GoesOn(t, t', Word(t, notFirst).n)
    ensures Word(t', notFirst) == Word(t, notFirst)
    decreases |t|
  {
    hide Part, OddTail, IsBreak, Agree, GoesOn;
    if t == "" || IsBreak(t[0]) {
      GoesOnFacts(t, t', 0);
    } else {
      FirstPartAgain(t, t', notFirst);
      var k := Part(t, notFirst).n;
      WordAgain(t[k..], t'[k..], true);
    }
  }

  lemma FirstPartAgain(t: string, t': string, notFirst: bool)
    requires t != "" && !IsBreak(t[0]) && Word(t, notFirst).fault.None?
    requires Agree(t, t', Word(t, notFirst).n)
    requires GoesOn(t, t', Word(t, notFirst).n)
    ensures t' != "" && t'[0] == t[0] && Part(t', notFirst) == Part(t, notFirst)
    ensures var k := Part(t, notFirst).n; var n := Word(t, notFirst).n;
      k <= |t'| && k <= n && Agree(t[k..], t'[k..], n - k) && GoesOn(t[k..], t'[k..], n - k)
      && n - k == Word(t[k..], true).n && Word(t[k..], true).fault.None?
  {
    hide Part, OddTail, IsBreak, Agree, GoesOn;
    var n := Word(t, notFirst).n;
    var k := Part(t, notFirst).n;
    PartGoesOn(t, t', n, k);
    PartAgain(t, t', notFirst);
    GoesOnFacts(t, t', n);
    if k < |t| {
      PartEnd(t, notFirst);
      OddTailSuffix(t, k);
    }
    Drop(t, t', n, k);
  }

  lemma PartGoesOn(t: string, t': string, n: nat, k: nat)
    requires Agree(t, t', n) && GoesOn(t, t', n) && k <= n
    ensures Agree(t, t', k) && GoesOn(t, t', k)
  {
  }

  // ------------------------------------------------------- whole texts

  // The list of items can be continued by any text: it does not end in a word
  // or a comment, which more text could extend.
  predicate Settled(items: seq<Item>) {
    items == [] || IsSettled(items[|items| - 1])
  }

  predicate IsSettled(item: Item) {
    item.Space? || (item.Lexeme? && item.kind != WORD)
  }

  // The first item of t is the first item of t' if t' begins with it and the
  // next rune, if the item needs one to end, is the same.
  lemma FirstAgain(t: string, t': string)
    requires t != "" && First(t).1.fault.None?
    requires var n := First(t).1.n;
      Agree(t, t', n) && (IsSettled(First(t).0) || (n < |t| && n < |t'| && t[n] == t'[n]))
    ensures First(t') == First(t)
  {
    hide Word, CommentLen, OddTail;
    var (item, r) := First(t);
    if item.Comment? {
      assert forall k :: 0 <= k < r.n ==> t'[..r.n][k] == t[..r.n][k];
      CommentLenIs(t', r.n);
    } else if !IsSettled(item) {
      WordAgain(t, t', false);
    }
  }

  lemma {:induction false} CommentLenIs(t: string, n: nat)
    requires n <= |t| && '\n' !in t[..n] && (n < |t| ==> t[n] == '\n')
    ensures CommentLen(t) == n
  {
    if n == 0 {
    } else {
      assert t[..n][1..] == t[1..][..n - 1];
      CommentLenIs(t[1..], n - 1);
    }
  }

  lemma LexIs(t: string)
    requires t != ""
    ensures var (item, r) := First(t);
      Lex(t) == if r.fault.Some? then Lexed([item], r.fault) else Cons(item, r.n, Lex(t[r.n..]))
  {
  }

  // Text can be added behind a settled list of items.
  lemma {:induction false} LexAppend(p: string, u: string)
    requires Lex(p).fault.None? && Settled(Lex(p).items)
    ensures Lex(p + u) == Lexed(Lex(p).items + Lex(u).items, Later(Lex(u).fault, |p|))
    decreases |p|
  {
    hide First, Lex, IsSettled;
    if p == "" {
      LexNothing();
      assert p + u == u && [] + Lex(u).items == Lex(u).items;
    } else {
      LexIs(p);
      var (item, r) := First(p);
      var rest := Lex(p[r.n..]);
      if r.n == |p| {
        LexNothing();
        assert p[r.n..] == "" && [item] + rest.items == [item];
      }
      assert forall k :: 0 <= k < |p| ==> (p + u)[k] == p[k];
      FirstAgain(p, p + u);
      assert (p + u)[r.n..] == p[r.n..] + u;
      LexAppend(p[r.n..], u);
      LexIs(p + u);
      assert [item] + (rest.items + Lex(u).items) == [item] + rest.items + Lex(u).items;
    }
  }

  lemma LexNothing()
    ensures Lex("") == Lexed([], None)
  {
  }

  // A settled front of the items is what the front of the text lexes to, and
  // the remaining items are what the rest does.
  lemma {:induction false} LexSplit(t: string, m: nat)
    requires Lex(t).fault.None? && m <= |Lex(t).items| && Settled(Lex(t).items[..m])
    ensures var k := Extent(Lex(t).items[..m]);
      && k <= |t|
      && Lex(t[..k]) == Lexed(Lex(t).items[..m], None)
      && Lex(t[k..]) == Lexed(Lex(t).items[m..], None)
    decreases |t|
  {
    hide First, Lex, IsSettled;
    var items := Lex(t).items;
    if m == 0 {
      LexNothing();
      assert t[..0] == "" && t[0..] == t && items[..0] == [] && items[0..] == items;
    } else {
      var n := LexTail(t, m);
      LexSplit(t[n..], m - 1);
      var rest := Lex(t[n..]).items;
      var k := n + Extent(rest[..m - 1]);
      assert t[..k][n..] == t[n..][..k - n] && t[n..][k - n..] == t[k..];
      if m == 1 {
        assert rest[..0] == [];
      } else {
        ItemsNotEmpty(t[n..]);
        assert rest[..m - 1][0] == rest[0];
      }
      FirstAgain(t, t[..k]);
      LexIs(t[..k]);
      assert items[..m] == [items[0]] + rest[..m - 1];
    }
  }

  // The items of t after the first are those of the rest of t.
  lemma LexTail(t: string, m: nat) returns (n: nat)
    requires Lex(t).fault.None? && 0 < m <= |Lex(t).items|
    ensures t != "" && First(t).1.n == n && First(t).1.fault.None? && 0 < n <= |t|
    ensures var items := Lex(t).items;
      && items[0] == First(t).0
      && Lex(t[n..]).fault.None? && Lex(t[n..]).items == items[1..]
      && items[..m][1..] == Lex(t[n..]).items[..m - 1]
      && items[m..] == Lex(t[n..]).items[m - 1..]
      && ItemLen(items[0]) == n
      && Extent(items[..m]) == n + Extent(items[1..][..m - 1])
      && (Settled(items[..m]) ==> Settled(items[1..][..m - 1]) && (m == 1 ==> IsSettled(items[0])))
      && (m > 1 && Settled(items[1..][..m - 1]) ==> Settled(items[..m]))
  {
    hide First, IsSettled;
    if t == "" {
      assert false;
    }
    n := First(t).1.n;
    var items := Lex(t).items;
    assert items == [First(t).0] + Lex(t[n..]).items;
    assert items[..m][1..] == items[1..][..m - 1];
    assert items[..m][0] == items[0];
    if m > 1 {
      assert items[1..][..m - 1][m - 2] == items[..m][m - 1];
    }
  }

  lemma ItemsNotEmpty(t: string)
    requires Lex(t).fault.None? && Lex(t).items != []
    ensures ItemLen(Lex(t).items[0]) > 0
  {
    var _ := LexTail(t, 1);
  }

  lemma SettledOne(items: seq<Item>)
    ensures items == [] ==> Settled(items)
    ensures |items| == 1 ==> (Settled(items) <==> IsSettled(items[0]))
  {
    hide IsSettled;
  }

  // A word or a comment is preceded by a metacharacter or a space, or begins
  // the text.
  lemma {:induction false} BeforeWord(t: string, m: nat)
    requires Lex(t).fault.None? && m < |Lex(t).items| && !IsSettled(Lex(t).items[m])
    ensures Settled(Lex(t).items[..m])
    decreases m
  {
    hide *;
    SettledOne(Lex(t).items[..m]);
    if m == 0 {
    } else {
      var n := LexTail(t, m);
      var rest := Lex(t[n..]).items;
      assert rest[m - 1] == Lex(t).items[m];
      if m == 1 {
        var _ := LexTail(t[n..], 1);
        if !IsSettled(First(t).0) {
          AfterUnsettled(t);
        }
        assert Lex(t).items[..1][0] == First(t).0;
      } else {
        BeforeWord(t[n..], m - 1);
      }
    }
  }

  // What follows a word or a comment is neither.
  lemma AfterUnsettled(t: string)
    requires t != "" && First(t).1.fault.None? && First(t).1.n < |t| && !IsSettled(First(t).0)
    ensures IsSettled(First(t[First(t).1.n..]).0)
  {
    hide Word, CommentLen;
  }
}
