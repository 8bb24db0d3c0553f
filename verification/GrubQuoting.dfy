// Quoting (toolkit/tools/internal/grub/grubutils.go) and its inverse, the
// tokenizer.
module GrubQuoting {
  import opened GrubTokens
  import opened Wrappers

  // A comment-like word, or one with a metacharacter, space, quote or dollar
  // sign: the runes that end an unquoted string.
  predicate RequiresQuotes(value: string) {
    || (value != "" && value[0] == '#')
    || exists k :: 0 <= k < |value| && IsStop(value[k])
  }

  predicate IsEscaped(c: char) {
    c == '$' || c == '"' || c == '\\'
  }

  function Escape(value: string): string {
    if value == "" then ""
    else (if IsEscaped(value[0]) then ['\\', value[0]] else [value[0]]) + Escape(value[1..])
  }

  // value as a double-quoted string.
  function Quoted(value: string): string {
    "\"" + Escape(value) + "\""
  }

  function QuoteIfNeeded(value: string): string {
    if RequiresQuotes(value) then Quoted(value) else value
  }

  method ForceQuoteString(value: string) returns (quotedValue: string)
    ensures quotedValue == Quoted(value)
  {
    var builder := "\"";
    assert value[0..] == value;
    for i := 0 to |value|
      invariant builder + Escape(value[i..]) == "\"" + Escape(value)
    {
      var c := value[i];
      assert value[i..][1..] == value[i + 1..];
      ghost var before := builder;
      if IsEscaped(c) {
        builder := builder + "\\";
        builder := builder + [c];
        assert builder == before + ['\\', c];
      } else {
        builder := builder + [c];
      }
    }
    assert builder + "" == builder;
    builder := builder + "\"";
    quotedValue := builder;
  }

  method QuoteString(value: string) returns (r: string)
    ensures r == QuoteIfNeeded(value)
  {
    if RequiresQuotes(value) {
      r := ForceQuoteString(value);
    } else {
      r := value;
    }
  }

  // ------------------------------------------------- quoting is undone

  lemma {:induction false} EscapeIsRead(value: string, rest: string, seen: nat, sb: string)
    ensures DoubleQuoted(Escape(value) + ("\"" + rest), seen, sb) ==
      Scan(|Escape(value)| + 1, [Piece(STRING, seen + |Escape(value)| + 1, sb + value)], None)
    decreases |value|
  {
    if value == "" {
      assert "" + ("\"" + rest) == "\"" + rest && sb + value == sb;
    } else {
      EscapeStep(value, "\"" + rest, seen, sb);
      hide DoubleQuoted, Escape, IsEscaped;
      EscapeIsRead(value[1..], rest, seen + if IsEscaped(value[0]) then 2 else 1, sb + [value[0]]);
      assert sb + [value[0]] + value[1..] == sb + value;
    }
  }

  lemma EscapeStep(value: string, more: string, seen: nat, sb: string)
    requires value != ""
    ensures var n := if IsEscaped(value[0]) then 2 else 1;
      && |Escape(value)| == n + |Escape(value[1..])|
      && DoubleQuoted(Escape(value) + more, seen, sb) == Skip(n, DoubleQuoted(Escape(value[1..]) + more, seen + n, sb + [value[0]]))
  {
    var rest := Escape(value[1..]);
    EscapeFirst(value);
    hide Escape;
    if IsEscaped(value[0]) {
      assert ['\\', value[0]] + rest + more == ['\\', value[0]] + (rest + more);
      EscapedRead(value[0], rest + more, seen, sb);
    } else {
      assert [value[0]] + rest + more == [value[0]] + (rest + more);
      PlainRead(value[0], rest + more, seen, sb);
    }
  }

  lemma EscapeFirst(value: string)
    requires value != ""
    ensures Escape(value) == (if IsEscaped(value[0]) then ['\\', value[0]] else [value[0]]) + Escape(value[1..])
  {
  }

  lemma EscapedRead(c: char, tail: string, seen: nat, sb: string)
    requires IsEscaped(c)
    ensures DoubleQuoted(['\\', c] + tail, seen, sb) == Skip(2, DoubleQuoted(tail, seen + 2, sb + [c]))
  {
    assert (['\\', c] + tail)[2..] == tail;
  }

  lemma PlainRead(c: char, tail: string, seen: nat, sb: string)
    requires !IsEscaped(c)
    ensures DoubleQuoted([c] + tail, seen, sb) == Skip(1, DoubleQuoted(tail, seen + 1, sb + [c]))
  {
    assert ([c] + tail)[1..] == tail;
  }

  // A forced quotation, whatever follows it, is one string part of its value.
  lemma QuotedIsPart(value: string, rest: string, notFirst: bool)
    ensures Part(Quoted(value) + rest, notFirst) == Scan(|Quoted(value)|, [Piece(STRING, |Quoted(value)|, value)], None)
  {
    var t := Quoted(value) + rest;
    assert t[1..] == Escape(value) + ("\"" + rest);
    EscapeIsRead(value, rest, 1, "");
    assert "" + value == value;
  }

  // For every value, a forced quotation tokenizes to one word with one string
  // sub-word of that value.
  lemma ForceQuoteRoundTrip(value: string)
    ensures var q := Quoted(value);
      Lex(q) == Lexed([Lexeme(WORD, |q|, [Piece(STRING, |q|, value)])], None)
  {
    var q := Quoted(value);
    QuotedIsPart(value, "", false);
    assert q + "" == q && q[|q|..] == "";
    assert Word(q, false) == Part(q, false) by {
      var part := Part(q, false);
      assert part.pieces + [] == part.pieces;
    }
  }

  // --------------------------------------------------- quoting if needed

  // What the sub-words of a word spell, expansions aside.
  function Spelling(pieces: seq<Piece>): string {
    if pieces == [] then "" else pieces[0].value + Spelling(pieces[1..])
  }

  predicate NoExpansions(pieces: seq<Piece>) {
    forall k :: 0 <= k < |pieces| ==> pieces[k].kind == KEYWORD_STRING || pieces[k].kind == STRING
  }

  // The text is one word, and that word spells the value.
  predicate ReadsBackAs(text: string, value: string) {
    var lexed := Lex(text);
    && lexed.fault.None?
    && |lexed.items| == 1
    && lexed.items[0].Lexeme? && lexed.items[0].kind == WORD
    && NoExpansions(lexed.items[0].pieces)
    && Spelling(lexed.items[0].pieces) == value
  }

  // An unquoted text without the backslashes that escape something.
  function Strip(t: string): string {
    if t == "" then ""
    else if t[0] == '\\' && |t| > 1 then [t[1]] + Strip(t[2..])
    else [t[0]] + Strip(t[1..])
  }

  lemma Assoc(a: string, b: string, c: string)
    ensures a + b + c == a + (b + c)
  {
  }

  lemma {:induction false} StringSpells(t: string, seen: nat, sb: string)
    requires forall k :: 0 <= k < |t| ==> !IsStop(t[k])
    ensures Unquoted(t, seen, sb, true) == Scan(|t|, [Piece(STRING, seen + |t|, sb + Strip(t))], None)
  {
    assert IsStop('\n');
    hide IsStop;
    if t == "" {
      assert sb + "" == sb;
    } else if t[0] == '\\' && |t| > 1 {
      StringSpells(t[2..], seen + 2, sb + [t[1]]);
      Assoc(sb, [t[1]], Strip(t[2..]));
    } else {
      StringSpells(t[1..], seen + 1, sb + [t[0]]);
      Assoc(sb, [t[0]], Strip(t[1..]));
    }
  }

  lemma EscapeSpells(t: string, seen: nat, sb: string)
    requires t != "" && t[0] == '\\' && forall k :: 0 <= k < |t| ==> !IsStop(t[k])
    requires seen == 0 ==> sb == ""
    ensures var r := Unquoted(t, seen, sb, false);
      r.n == |t| && NoExpansions(r.pieces) && Spelling(r.pieces) == sb + Strip(t)
  {
    hide Spelling, IsStop, Strip;
    StringSpells(t, 0, "");
    assert "" + Strip(t) == Strip(t);
    var last := Piece(STRING, |t|, Strip(t));
    SpellsCons(last, []);
    SpellsCons(Piece(KEYWORD_STRING, seen, sb), [last]);
  }

  lemma {:induction false} UnquotedSpells(t: string, seen: nat, sb: string)
    requires forall k :: 0 <= k < |t| ==> !IsStop(t[k])
    requires seen == 0 ==> sb == ""
    ensures var r := Unquoted(t, seen, sb, false);
      r.n == |t| && NoExpansions(r.pieces) && Spelling(r.pieces) == sb + Strip(t)
    decreases |t|
  {
    hide Spelling, IsStop;
    if t == "" {
      SpellsCons(Piece(KEYWORD_STRING, seen, sb), []);
      assert sb + "" == sb;
    } else if t[0] == '\\' {
      EscapeSpells(t, seen, sb);
    } else {
      UnquotedSpells(t[1..], seen + 1, sb + [t[0]]);
      Assoc(sb, [t[0]], Strip(t[1..]));
    }
  }

  lemma SpellsCons(p: Piece, rest: seq<Piece>)
    ensures Spelling([p] + rest) == p.value + Spelling(rest)
    ensures Spelling([p]) == p.value
  {
    assert ([p] + rest)[1..] == rest;
    assert p.value + "" == p.value;
  }

  lemma {:induction false} StripShrinks(t: string)
    ensures |Strip(t)| <= |t|
    ensures Strip(t) == t <==> t == "" || '\\' !in t[..|t| - 1]
    ensures Strip(t) != t ==> |Strip(t)| < |t|
  {
    if t == "" {
    } else if t[0] == '\\' && |t| > 1 {
      StripShrinks(t[2..]);
      assert t[..|t| - 1][0] == '\\';
    } else {
      StripShrinks(t[1..]);
      if |t| > 1 {
        assert t[..|t| - 1] == [t[0]] + t[1..][..|t| - 2];
      } else {
        assert t == [t[0]];
      }
    }
  }

  // An unquoted text with nothing special in it is one word.
  lemma UnquotedReadsBack(value: string)
    requires value != "" && !RequiresQuotes(value)
    ensures ReadsBackAs(value, Strip(value))
  {
    UnquotedSpells(value, 0, "");
    var r := Unquoted(value, 0, "", false);
    assert value[r.n..] == "";
    assert r.pieces + [] == r.pieces;
    assert Word(value, false) == r;
    assert "" + Strip(value) == Strip(value);
  }

  // Quoting if needed is undone exactly when the value is not empty and is
  // either quoted or has no backslash other than a final one.
  lemma QuoteStringRoundTrip(value: string)
    ensures ReadsBackAs(QuoteIfNeeded(value), value) <==>
      value != "" && (RequiresQuotes(value) || '\\' !in value[..|value| - 1])
  {
    if RequiresQuotes(value) {
      ForceQuoteRoundTrip(value);
      SpellsCons(Piece(STRING, |Quoted(value)|, value), []);
    } else if value != "" {
      UnquotedReadsBack(value);
      StripShrinks(value);
    }
  }

  // A value is printed as it stands unless it begins like a comment or has one of
  // these runes.
  lemma QuotedWhen(value: string)
    ensures QuoteIfNeeded(value) == value <==>
      (value == "" || value[0] != '#') && forall k :: 0 <= k < |value| ==> value[k] !in "{}|&;<>\n \t\"'$"
  {
    EscapeGrows(value);
    hide Escape;
    assert forall k :: 0 <= k < |value| ==> (IsStop(value[k]) <==> value[k] in "{}|&;<>\n \t\"'$");
  }

  lemma {:induction false} EscapeGrows(value: string)
    ensures |Escape(value)| >= |value|
  {
    if value == "" {
    } else {
      EscapeGrows(value[1..]);
    }
  }
}
