// The hand-written tokenizer (toolkit/tools/internal/grub/grubtokenizer.go),
// proved against the lexing functions of GrubTokens.
module GrubTokenizing {
  import opened FileScanning
  import opened GrubTokens
  import opened Wrappers

  // The message of a tokenizer error and the position it prints.
  datatype TokenizeError = TokenizeError(kind: FaultKind, line: nat, col: nat)

  // The error a fault in the text from index i on is reported as.
  function ErrorAt(s: string, i: nat, fault: Option<Fault>): Option<TokenizeError> {
    if fault.None? || i + fault.value.at > |s| then None
    else Some(ErrorHere(s, i + fault.value.at, fault.value.kind))
  }

  function ErrorHere(s: string, i: nat, kind: FaultKind): TokenizeError
    requires i <= |s|
  {
    TokenizeError(kind, LocAt(s, i).line, LocAt(s, i).col)
  }

  // Faults are reported inside the text, so none is lost by ErrorAt.
  lemma {:induction false} FaultInside(t: string)
    ensures Lex(t).fault.Some? ==> Lex(t).fault.value.at <= |t|
    decreases |t|
  {
    if t == "" {
    } else {
      var (item, s) := First(t);
      if s.fault.Some? {
        WordFaultInside(t, false);
      } else {
        FaultInside(t[s.n..]);
      }
    }
  }

  lemma {:induction false} WordFaultInside(t: string, notFirst: bool)
    ensures Word(t, notFirst).fault.Some? ==> Word(t, notFirst).fault.value.at <= |t|
    decreases |t|
  {
    if t != "" && !IsBreak(t[0]) {
      var part := Part(t, notFirst);
      if part.fault.None? {
        WordFaultInside(t[part.n..], true);
      } else if t[0] == '"' {
        DoubleQuotedFaultInside(t[1..], 1, "");
      } else if t[0] == '\'' {
        SingleQuotedFaultInside(t[1..], 1, "");
      }
    }
  }

  lemma {:induction false} DoubleQuotedFaultInside(t: string, seen: nat, sb: string)
    ensures DoubleQuoted(t, seen, sb).fault.Some? ==> DoubleQuoted(t, seen, sb).fault.value.at <= |t|
    decreases |t|, seen
  {
    if t == "" || t[0] == '"' {
    } else if t[0] == '\\' {
      if |t| > 1 {
        DoubleQuotedFaultInside(t[2..], seen + 2, sb + Unescape(t[1]));
      }
    } else if t[0] == '$' {
      var v := Expansion(t, QUOTED_VAR_EXPANSION);
      if seen != 0 {
        DoubleQuotedFaultInside(t, 0, "");
      } else if v.fault.None? {
        DoubleQuotedFaultInside(t[v.n..], 0, "");
      }
    } else {
      DoubleQuotedFaultInside(t[1..], seen + 1, sb + [t[0]]);
    }
  }

  lemma {:induction false} SingleQuotedFaultInside(t: string, seen: nat, sb: string)
    ensures SingleQuoted(t, seen, sb).fault.Some? ==> SingleQuoted(t, seen, sb).fault.value.at <= |t|
    decreases |t|
  {
    if t != "" && t[0] != '\'' {
      SingleQuotedFaultInside(t[1..], seen + 1, sb + [t[0]]);
    }
  }

  // ------------------------------------------------- outcomes and loop steps
  //
  // The lexing functions say what the remaining text means; an outcome says
  // what that amounts to in the file s.  Each lemma below is one step of a loop
  // of the tokenizer.

  // Where reading stops, the sub-words found on the way, and the error.
  datatype Outcome = Outcome(end: nat, subWords: seq<SubWord>, err: Option<TokenizeError>)

  // r describes the text from i on; its first sub-word began at start.
  function Located(s: string, i: nat, start: nat, r: Scan): Outcome {
    Outcome(i + r.n, PlacePieces(s, start, r.pieces), ErrorAt(s, i, r.fault))
  }

  function After(subWords: seq<SubWord>, o: Outcome): Outcome {
    o.(subWords := subWords + o.subWords)
  }

  lemma AfterAfter(a: seq<SubWord>, b: seq<SubWord>, o: Outcome)
    ensures After(a, After(b, o)) == After(a + b, o)
  {
    assert a + (b + o.subWords) == a + b + o.subWords;
  }

  lemma LocatedThen(s: string, i: nat, a: Scan, rest: Scan)
    requires a.fault.None? && Total(a.pieces) == a.n
    ensures Located(s, i, i, Then(a, rest)) == After(PlacePieces(s, i, a.pieces), Located(s, i + a.n, i + a.n, rest))
  {
    hide SpanOf, Slice, PlacePieces;
    PlacePiecesAppend(s, i, a.pieces, rest.pieces);
  }

  lemma LocatedSkip(s: string, i: nat, start: nat, k: nat, rest: Scan)
    ensures Located(s, i, start, Skip(k, rest)) == Located(s, i + k, start, rest)
  {
  }

  lemma LocatedPrepend(s: string, i: nat, start: nat, p: Piece, rest: Scan)
    ensures Located(s, i, start, Prepend(p, rest)) == After([PlacePiece(s, start, p)], Located(s, i, start + p.len, rest))
  {
    PlaceCons(s, start, p, rest.pieces);
  }

  // A single sub-word and no error.
  lemma LocatedOne(s: string, i: nat, start: nat, n: nat, p: Piece)
    ensures Located(s, i, start, Scan(n, [p], None)) == Outcome(i + n, [PlacePiece(s, start, p)], None)
  {
    PlaceCons(s, start, p, []);
  }

  // Nothing but an error.
  lemma LocatedFault(s: string, i: nat, start: nat, n: nat, kind: FaultKind, at: nat)
    requires i + at <= |s|
    ensures Located(s, i, start, Scan(n, [], Some(Fault(kind, at)))) == Outcome(i + n, [], Some(ErrorHere(s, i + at, kind)))
  {
  }

  function SubWordAt(s: string, i: nat, j: nat, kind: SubWordType, value: string): SubWord {
    SubWord(SpanOf(s, i, j), kind, Slice(s, i, j), value)
  }

  function UnquotedFrom(s: string, i: nat, start: nat, sb: string, notFirst: bool): Outcome
    requires start <= i <= |s|
  {
    Located(s, i, start, Unquoted(s[i..], i - start, sb, notFirst))
  }

  lemma {:induction false} UnquotedStep(s: string, i: nat, start: nat, sb: string, notFirst: bool)
    requires start <= i <= |s|
    ensures var o := UnquotedFrom(s, i, start, sb, notFirst);
      if i == |s| || IsStop(s[i]) then
        o == Outcome(i, [SubWordAt(s, start, i, if notFirst then STRING else KEYWORD_STRING, sb)], None)
      else if s[i] == '\\' && !notFirst then
        if i == start then o == UnquotedFrom(s, i, i, "", true)
        else o == After([SubWordAt(s, start, i, KEYWORD_STRING, sb)], UnquotedFrom(s, i, i, "", true))
      else if s[i] == '\\' then
        if i + 1 == |s| then o == Outcome(i + 1, [SubWordAt(s, start, i + 1, STRING, sb + "\\")], None)
        else o == UnquotedFrom(s, i + 2, start, if s[i + 1] == '\n' then sb else sb + [s[i + 1]], true)
      else
        o == UnquotedFrom(s, i + 1, start, sb + [s[i]], notFirst)
  {
    hide Located, SpanOf, Slice, PlacePieces, IsStop;
    var t := s[i..];
    if i == |s| || IsStop(s[i]) {
      LocatedOne(s, i, start, 0, Piece(if notFirst then STRING else KEYWORD_STRING, i - start, sb));
    } else if s[i] == '\\' && !notFirst {
      LocatedPrepend(s, i, start, Piece(KEYWORD_STRING, i - start, sb), Unquoted(t, 0, "", true));
    } else if s[i] == '\\' && i + 1 == |s| {
      LocatedOne(s, i, start, 1, Piece(STRING, i + 1 - start, sb + "\\"));
    } else if s[i] == '\\' {
      assert t[2..] == s[i + 2..];
      LocatedSkip(s, i, start, 2, Unquoted(t[2..], i + 2 - start, if s[i + 1] == '\n' then sb else sb + [s[i + 1]], true));
    } else {
      assert t[1..] == s[i + 1..];
      LocatedSkip(s, i, start, 1, Unquoted(t[1..], i + 1 - start, sb + [s[i]], notFirst));
    }
  }

  function DoubleQuotedFrom(s: string, i: nat, start: nat, sb: string): Outcome
    requires start <= i <= |s|
  {
    Located(s, i, start, DoubleQuoted(s[i..], i - start, sb))
  }

  lemma {:induction false} DoubleQuotedStep(s: string, i: nat, start: nat, sb: string)
    requires start <= i <= |s|
    ensures var o := DoubleQuotedFrom(s, i, start, sb);
      if i == |s| then
        o == Outcome(i, [], Some(ErrorHere(s, i, EofInDoubleQuotes)))
      else if s[i] == '"' then
        o == Outcome(i + 1, [SubWordAt(s, start, i + 1, STRING, sb)], None)
      else if s[i] == '\\' then
        if i + 1 == |s| then o == Outcome(i + 1, [], Some(ErrorHere(s, i + 1, EofAfterBackslash)))
        else o == DoubleQuotedFrom(s, i + 2, start, sb + Unescape(s[i + 1]))
      else if s[i] == '$' then
        o == DollarFrom(s, i, start, sb)
      else
        o == DoubleQuotedFrom(s, i + 1, start, sb + [s[i]])
  {
    hide Located, SpanOf, Slice, PlacePieces, Expansion;
    var t := s[i..];
    if i == |s| {
      LocatedFault(s, i, start, 0, EofInDoubleQuotes, 0);
    } else if s[i] == '"' {
      LocatedOne(s, i, start, 1, Piece(STRING, i + 1 - start, sb));
    } else if s[i] == '\\' && i + 1 == |s| {
      LocatedFault(s, i, start, 1, EofAfterBackslash, 1);
    } else if s[i] == '\\' {
      assert t[2..] == s[i + 2..];
      LocatedSkip(s, i, start, 2, DoubleQuoted(t[2..], i + 2 - start, sb + Unescape(s[i + 1])));
    } else if s[i] == '$' {
      DollarStep(s, i, start, sb);
    } else {
      assert t[1..] == s[i + 1..];
      LocatedSkip(s, i, start, 1, DoubleQuoted(t[1..], i + 1 - start, sb + [s[i]]));
    }
  }

  // A dollar sign within double quotes ends the sub-word read so far, if any.
  function DollarFrom(s: string, i: nat, start: nat, sb: string): Outcome
    requires start <= i < |s| && s[i] == '$'
  {
    if i != start then After([SubWordAt(s, start, i, STRING, sb)], DoubleQuotedFrom(s, i, i, ""))
    else
      var here := ExpansionFrom(s, i, QUOTED_VAR_EXPANSION);
      if here.err.Some? then here
      else After(here.subWords, DoubleQuotedFrom(s, here.end, here.end, ""))
  }

  lemma {:induction false} DollarStep(s: string, i: nat, start: nat, sb: string)
    requires start <= i < |s| && s[i] == '$'
    ensures DoubleQuotedFrom(s, i, start, sb) == DollarFrom(s, i, start, sb)
  {
    hide SpanOf, Slice, PlacePieces, LocAt, Expansion;
    var t := s[i..];
    if i != start {
      LocatedPrepend(s, i, start, Piece(STRING, i - start, sb), DoubleQuoted(t, 0, ""));
    } else {
      var v := Expansion(t, QUOTED_VAR_EXPANSION);
      ExpansionFaultInside(t, QUOTED_VAR_EXPANSION);
      if v.fault.None? {
        assert t[v.n..] == s[i + v.n..];
        LocatedThen(s, i, v, DoubleQuoted(t[v.n..], 0, ""));
      }
    }
  }

  function ExpansionFrom(s: string, i: nat, kind: SubWordType): (o: Outcome)
    requires i < |s| && s[i] == '$'
    ensures o.end <= |s|
  {
    Located(s, i, i, Expansion(s[i..], kind))
  }

  lemma ExpansionFaultInside(t: string, kind: SubWordType)
    requires t != "" && t[0] == '$'
    ensures Expansion(t, kind).fault.Some? ==> Expansion(t, kind).fault.value.at <= |t|
  {
  }

  function SingleQuotedFrom(s: string, i: nat, start: nat, sb: string): Outcome
    requires start <= i <= |s|
  {
    Located(s, i, start, SingleQuoted(s[i..], i - start, sb))
  }

  lemma {:induction false} SingleQuotedStep(s: string, i: nat, start: nat, sb: string)
    requires start <= i <= |s|
    ensures var o := SingleQuotedFrom(s, i, start, sb);
      if i == |s| then
        o == Outcome(i, [], Some(ErrorHere(s, i, EofInSingleQuotes)))
      else if s[i] == '\'' then
        o == Outcome(i + 1, [SubWordAt(s, start, i + 1, STRING, sb)], None)
      else
        o == SingleQuotedFrom(s, i + 1, start, sb + [s[i]])
  {
    hide Located, SpanOf, Slice, PlacePieces, IsStop;
    if i == |s| {
      LocatedFault(s, i, start, 0, EofInSingleQuotes, 0);
    } else if s[i] == '\'' {
      LocatedOne(s, i, start, 1, Piece(STRING, i + 1 - start, sb));
    } else {
      assert s[i..][1..] == s[i + 1..];
      LocatedSkip(s, i, start, 1, SingleQuoted(s[i + 1..], i + 1 - start, sb + [s[i]]));
    }
  }

  lemma PlaceNone(s: string, i: nat)
    ensures PlacePieces(s, i, []) == []
  {
  }

  lemma ExpansionOf(t: string, o: nat, m: nat, kind: SubWordType)
    requires t != "" && t[0] == '$' && o == (if |t| > 1 && t[1] == '{' then 2 else 1)
    requires o <= |t| && m == NameLen(t[o..])
    ensures o + m <= |t|
    ensures Expansion(t, kind) ==
      if o == 2 then
        if 2 + m == |t| then Scan(2 + m, [], Some(Fault(EofInExpansion, 2 + m)))
        else if t[2 + m] != '}' then Scan(2 + m, [], Some(Fault(MissingBrace, 2 + m)))
        else if m == 0 then Scan(3 + m, [], Some(Fault(MissingName, 0)))
        else Scan(3 + m, [Piece(kind, 3 + m, t[o..o + m])], None)
      else if m == 0 then Scan(1, [Piece(STRING, 1, "$")], None)
      else Scan(1 + m, [Piece(kind, 1 + m, t[o..o + m])], None)
  {
    hide NameLen;
  }

  // The name of an expansion ends at the first rune that cannot be part of it.
  lemma ExpansionMeans(s: string, i: nat, j: nat, k: nat, kind: SubWordType)
    requires i < j <= k <= |s| && s[i] == '$'
    requires j == if i + 1 < |s| && s[i + 1] == '{' then i + 2 else i + 1
    requires forall m :: j <= m < k ==> IsNameChar(s[m])
    requires k < |s| ==> !IsNameChar(s[k])
    ensures var o := ExpansionFrom(s, i, kind);
      if j == i + 2 then
        if k == |s| then o == Outcome(k, [], Some(ErrorHere(s, k, EofInExpansion)))
        else if s[k] != '}' then o == Outcome(k, [], Some(ErrorHere(s, k, MissingBrace)))
        else if j == k then o == Outcome(k + 1, [], Some(ErrorHere(s, i, MissingName)))
        else o == Outcome(k + 1, [SubWordAt(s, i, k + 1, kind, s[j..k])], None)
      else if j == k then o == Outcome(i + 1, [SubWordAt(s, i, i + 1, STRING, "$")], None)
      else o == Outcome(k, [SubWordAt(s, i, k, kind, s[j..k])], None)
  {
    hide SpanOf, Slice, PlacePieces, LocAt, NameLen, Expansion;
    var t := s[i..];
    var rest := t[j - i..];
    assert |t| > 1 ==> t[1] == s[i + 1];
    NameLenUnique(rest, k - j);
    ExpansionOf(t, j - i, k - j, kind);
    PlaceNone(s, i);
    PlaceCons(s, i, Piece(STRING, 1, "$"), []);
    PlaceCons(s, i, Piece(kind, k - i, s[j..k]), []);
    PlaceCons(s, i, Piece(kind, k + 1 - i, s[j..k]), []);
    assert t[j - i..k - i] == s[j..k];
  }

  lemma SliceGrows(s: string, j: nat, i: nat)
    requires j <= i < |s|
    ensures s[j..i + 1] == s[j..i] + [s[i]]
  {
  }

  function WordFrom(s: string, i: nat, notFirst: bool): Outcome
    requires i <= |s|
  {
    Located(s, i, i, Word(s[i..], notFirst))
  }

  function PartFrom(s: string, i: nat, notFirst: bool): Outcome
    requires i < |s| && !IsBreak(s[i])
  {
    Located(s, i, i, Part(s[i..], notFirst))
  }

  lemma {:induction false} WordStep(s: string, i: nat, notFirst: bool)
    requires i <= |s|
    ensures var o := WordFrom(s, i, notFirst);
      if i == |s| || IsBreak(s[i]) then o == Outcome(i, [], None)
      else
        var part := PartFrom(s, i, notFirst);
        if part.err.Some? then o == part
        else i < part.end <= |s| && o == After(part.subWords, WordFrom(s, part.end, true))
  {
    hide SpanOf, Slice, PlacePieces, LocAt, Part;
    PlaceNone(s, i);
    if i < |s| && !IsBreak(s[i]) {
      var part := Part(s[i..], notFirst);
      PartFaultInside(s[i..], notFirst);
      if part.fault.None? {
        assert s[i..][part.n..] == s[i + part.n..];
        LocatedThen(s, i, part, Word(s[i + part.n..], true));
      }
    }
  }

  lemma PartFaultInside(t: string, notFirst: bool)
    requires t != "" && !IsBreak(t[0])
    ensures Part(t, notFirst).fault.Some? ==> Part(t, notFirst).fault.value.at <= |t|
  {
    if t[0] == '"' {
      DoubleQuotedFaultInside(t[1..], 1, "");
    } else if t[0] == '\'' {
      SingleQuotedFaultInside(t[1..], 1, "");
    }
  }

  // Where a part begins decides which loop reads it.
  lemma PartStarts(s: string, i: nat, notFirst: bool)
    requires i < |s| && !IsBreak(s[i])
    ensures var o := PartFrom(s, i, notFirst);
      if s[i] == '"' then o == DoubleQuotedFrom(s, i + 1, i, "")
      else if s[i] == '\'' then o == SingleQuotedFrom(s, i + 1, i, "")
      else if s[i] == '$' then o == ExpansionFrom(s, i, VAR_EXPANSION)
      else o == UnquotedFrom(s, i, i, "", notFirst) && o.err.None?
  {
    hide SpanOf, Slice, PlacePieces, LocAt, DoubleQuoted, SingleQuoted, Unquoted, Expansion;
    assert s[i..][1..] == s[i + 1..];
  }

  // The tokens and the error that the text from i on yields.
  function LexFrom(s: string, i: nat): (seq<Token>, Option<TokenizeError>)
    requires i <= |s|
  {
    (Place(s, i, Lex(s[i..]).items), ErrorAt(s, i, Lex(s[i..]).fault))
  }

  // One round of the main loop: what is read now, and where to go on.
  function FirstFrom(s: string, i: nat): (nat, seq<Token>, Option<TokenizeError>)
    requires i < |s|
  {
    var (item, r) := First(s[i..]);
    (i + r.n, Place(s, i, [item]), ErrorAt(s, i, r.fault))
  }

  lemma {:induction false} LexStep(s: string, i: nat)
    requires i <= |s|
    ensures if i == |s| then LexFrom(s, i) == ([], None)
      else
        var (j, now, err) := FirstFrom(s, i);
        if err.Some? then LexFrom(s, i) == (now, err)
        else i < j <= |s| && LexFrom(s, i) == (now + LexFrom(s, j).0, LexFrom(s, j).1)
  {
    hide SpanOf, Slice, PlacePieces, LocAt, Place, First;
    if i < |s| {
      var (item, r) := First(s[i..]);
      FirstFaultInside(s[i..]);
      if r.fault.None? {
        var rest := Lex(s[i + r.n..]);
        assert s[i..][r.n..] == s[i + r.n..];
        PlaceAppend(s, i, [item], rest.items);
        assert Extent([item]) == r.n;
      }
    } else {
      PlaceNothing(s, i);
    }
  }

  lemma PlaceNothing(s: string, i: nat)
    ensures Place(s, i, []) == []
  {
  }

  lemma FirstFaultInside(t: string)
    requires t != ""
    ensures First(t).1.fault.Some? ==> First(t).1.fault.value.at <= |t|
  {
    WordFaultInside(t, false);
  }

  lemma {:induction false} FirstMeans(s: string, i: nat)
    requires i < |s|
    ensures var f := FirstFrom(s, i);
      if IsMeta(s[i]) then
        f == (i + 1, [Token(SpanOf(s, i, i + 1), MetaType(s[i]), Slice(s, i, i + 1), [])], None)
      else if IsSpace(s[i]) then f == (i + 1, [], None)
      else if s[i] == '#' then f == (i + CommentLen(s[i..]), [], None)
      else
        var o := WordFrom(s, i, false);
        f == (o.end, [Token(SpanOf(s, i, o.end), WORD, Slice(s, i, o.end), o.subWords)], o.err)
  {
    hide SpanOf, Slice, PlacePieces, LocAt, Word, CommentLen;
    var (item, r) := First(s[i..]);
    PlaceNone(s, i);
    assert [item][1..] == [];
    assert Place(s, i, [item]) == if item.Lexeme? then [PlaceToken(s, i, item)] else [];
  }

  // A run of spaces yields nothing.
  lemma {:induction false} SpacesStep(s: string, i: nat, j: nat)
    requires i <= j <= |s| && forall k :: i <= k < j ==> IsSpace(s[k])
    ensures LexFrom(s, i) == LexFrom(s, j)
    decreases j - i
  {
    hide LexFrom, FirstFrom;
    if i == j {
    } else {
      LexStep(s, i);
      FirstMeans(s, i);
      SpacesStep(s, i + 1, j);
      assert [] + LexFrom(s, i + 1).0 == LexFrom(s, i + 1).0;
    }
  }

  class GrubConfigTokenizer {
    const scanner: FileScanner
    var tokens: seq<Token>
    var subWords: seq<SubWord>

    ghost predicate Valid()
      reads this, scanner
    {
      scanner.Valid() && scanner.Located()
    }

    // What is left to read.
    function Rest(): string
      requires scanner.index <= |scanner.content|
      reads this, scanner
    {
      scanner.content[scanner.index..]
    }

    constructor (scanner: FileScanner)
      requires scanner.Valid() && scanner.Located()
      ensures Valid() && this.scanner == scanner && tokens == []
    {
      this.scanner := scanner;
      tokens, subWords := [], [];
    }

    method Tokenize() returns (err: Option<TokenizeError>)
      requires Valid() && tokens == [] && scanner.index == 0
      modifies this, scanner
      ensures Valid()
      ensures (tokens, err) == LexFrom(scanner.content, 0)
    {
      hide LexFrom, FirstFrom, WordFrom, LocAt;
      ghost var s := scanner.content;
      ghost var goal := LexFrom(s, 0);
      assert [] + goal.0 == goal.0;
      while true
        invariant Valid()
        invariant var (rest, fault) := LexFrom(s, scanner.index); (tokens + rest, fault) == goal
        decreases |s| - scanner.index
      {
        var (c, eof) := scanner.Peek();
        LexStep(s, scanner.index);
        if eof {
          break;
        }
        ghost var i := scanner.index;
        ghost var before := tokens;
        ghost var (j, now, fault) := FirstFrom(s, i);
        FirstMeans(s, i);
        if IsMeta(c) {
          var locStart := scanner.Loc();
          var _ := scanner.Next();
          var token := NewToken(locStart, scanner.Loc(), MetaType(c));
          tokens := tokens + [token];
        } else if IsSpace(c) {
          ParseSpace();
          SpacesStep(s, i, scanner.index);
          now, j := [], scanner.index;
        } else {
          err := ParseWord();
          assert tokens == before + now;
          if err.Some? {
            return;
          }
        }
        assert tokens == before + now && scanner.index == j;
        assert before + (now + LexFrom(s, j).0) == before + now + LexFrom(s, j).0;
      }
      assert tokens + [] == tokens;
      err := None;
    }

    // Reads a comment or a word.
    method ParseWord() returns (err: Option<TokenizeError>)
      requires Valid() && !scanner.Eof() && !IsBreak(scanner.content[scanner.index])
      modifies this, scanner
      ensures Valid()
      ensures old(tokens) <= tokens
      ensures FirstFrom(scanner.content, old(scanner.index)) == (scanner.index, tokens[|old(tokens)|..], err)
    {
      hide FirstFrom, WordFrom, PartFrom, LocAt, DoubleQuotedFrom, SingleQuotedFrom, UnquotedFrom, ExpansionFrom, CommentLen;
      ghost var s := scanner.content;
      ghost var i := scanner.index;
      ghost var goal := WordFrom(s, i, false);
      FirstMeans(s, i);
      var locStart := scanner.Loc();
      var (c, _) := scanner.Peek();
      if c == '#' {
        ParseComment();
        assert tokens[|tokens|..] == [];
        return None;
      }
      subWords := [];
      err := None;
      var notFirst := false;
      while true
        invariant Valid() && i <= scanner.index && tokens == old(tokens) && err.None?
        invariant After(subWords, WordFrom(s, scanner.index, notFirst)) == goal
        decreases |s| - scanner.index
      {
        var (c, eof) := scanner.Peek();
        WordStep(s, scanner.index, notFirst);
        assert subWords + [] == subWords;
        if eof || IsBreak(c) {
          break;
        }
        ghost var before := subWords;
        ghost var part := PartFrom(s, scanner.index, notFirst);
        PartStarts(s, scanner.index, notFirst);
        if part.err.None? {
          AfterAfter(before, part.subWords, WordFrom(s, part.end, true));
        }
        if c == '"' {
          err := ParseDoubleQuotedString();
        } else if c == '\'' {
          err := ParseSingleQuotedString();
        } else if c == '$' {
          err := ParseVariableExpansion(VAR_EXPANSION);
        } else {
          ParseUnquotedString(notFirst);
        }
        assert subWords == before + part.subWords && scanner.index == part.end;
        if err.Some? {
          break;
        }
        notFirst := true;
      }
      var token := NewToken(locStart, scanner.Loc(), WORD);
      token := token.(subWords := subWords);
      subWords := [];
      tokens := tokens + [token];
    }

    method ParseSpace()
      requires Valid()
      modifies scanner
      ensures Valid()
      ensures old(scanner.index) <= scanner.index
      ensures !scanner.Eof() ==> !IsSpace(scanner.content[scanner.index])
      ensures forall k :: old(scanner.index) <= k < scanner.index ==> IsSpace(scanner.content[k])
    {
      while true
        invariant Valid() && old(scanner.index) <= scanner.index
        invariant forall k :: old(scanner.index) <= k < scanner.index ==> IsSpace(scanner.content[k])
        decreases |scanner.content| - scanner.index
      {
        var (c, eof) := scanner.Peek();
        if eof || !IsSpace(c) {
          break;
        }
        var _ := scanner.Next();
      }
    }

    method ParseComment()
      requires Valid() && !scanner.Eof() && scanner.content[scanner.index] == '#'
      modifies scanner
      ensures Valid()
      ensures scanner.index == old(scanner.index) + CommentLen(old(Rest()))
    {
      hide LocAt;
      ghost var s := scanner.content;
      ghost var i := scanner.index;
      var _ := scanner.Next();
      assert s[i..][1..] == Rest();
      while true
        invariant Valid() && i < scanner.index
        invariant scanner.index + CommentLen(Rest()) == i + CommentLen(s[i..])
        decreases |s| - scanner.index
      {
        var (c, eof) := scanner.Peek();
        if eof || c == '\n' {
          break;
        }
        ghost var t := Rest();
        var _ := scanner.Next();
        assert t[1..] == Rest();
      }
    }

    method ParseUnquotedString(notFirst0: bool)
      requires Valid()
      modifies this`subWords, scanner
      ensures Valid()
      ensures var o := UnquotedFrom(scanner.content, old(scanner.index), old(scanner.index), "", notFirst0);
        scanner.index == o.end && subWords == old(subWords) + o.subWords
    {
      hide UnquotedFrom, LocAt, IsStop, NewSubWord, SubWordAt;
      ghost var s := scanner.content;
      ghost var goal := After(subWords, UnquotedFrom(s, scanner.index, scanner.index, "", notFirst0));
      var notFirst := notFirst0;
      var locStart := scanner.Loc();
      var sb := "";
      while true
        invariant Valid() && locStart.index <= scanner.index
        invariant locStart == LocAt(s, locStart.index)
        invariant After(subWords, UnquotedFrom(s, scanner.index, locStart.index, sb, notFirst)) == goal
        decreases |s| - scanner.index
      {
        var (c, eof) := scanner.Peek();
        UnquotedStep(s, scanner.index, locStart.index, sb, notFirst);
        if eof || IsStop(c) {
          break;
        }
        if c == '\\' {
          if !notFirst {
            notFirst := true;
            var locEnd := scanner.Loc();
            if locEnd.index != locStart.index {
              var subWord := NewSubWord(locStart, locEnd, KEYWORD_STRING, sb);
              AfterAfter(subWords, [subWord], UnquotedFrom(s, scanner.index, scanner.index, "", true));
              subWords := subWords + [subWord];
            }
            locStart := scanner.Loc();
            sb := "";
            UnquotedStep(s, scanner.index, scanner.index, "", true);
          }
          var _ := scanner.Next();
          var (d, eof') := scanner.Peek();
          if eof' {
            sb := sb + "\\";
            break;
          }
          if d != '\n' {
            sb := sb + [d];
          }
          var _ := scanner.Next();
        } else {
          sb := sb + [c];
          var _ := scanner.Next();
        }
      }
      var tokenType := if notFirst then STRING else KEYWORD_STRING;
      subWords := subWords + [NewSubWord(locStart, scanner.Loc(), tokenType, sb)];
    }

    method ParseDoubleQuotedString() returns (err: Option<TokenizeError>)
      requires Valid() && !scanner.Eof() && scanner.content[scanner.index] == '"'
      modifies this`subWords, scanner
      ensures Valid()
      ensures var o := DoubleQuotedFrom(scanner.content, old(scanner.index) + 1, old(scanner.index), "");
        Outcome(scanner.index, subWords, err) == After(old(subWords), o)
      ensures old(scanner.index) < scanner.index
    {
      hide DoubleQuotedFrom, LocAt, Advance, ExpansionFrom, NewSubWord, SubWordAt;
      ghost var s := scanner.content;
      ghost var i := scanner.index;
      ghost var goal := After(subWords, DoubleQuotedFrom(s, i + 1, i, ""));
      var locStart := scanner.Loc();
      var _ := scanner.Next();
      var sb := "";
      while true
        invariant Valid() && locStart.index <= scanner.index && i < scanner.index
        invariant locStart == LocAt(s, locStart.index)
        invariant After(subWords, DoubleQuotedFrom(s, scanner.index, locStart.index, sb)) == goal
        decreases |s| - scanner.index
      {
        var (c, eof) := scanner.Peek();
        DoubleQuotedStep(s, scanner.index, locStart.index, sb);
        assert subWords + [] == subWords;
        if eof {
          return Some(TokenizeError(EofInDoubleQuotes, scanner.line, scanner.col));
        }
        if c == '"' {
          var _ := scanner.Next();
          break;
        } else if c == '\\' {
          var _ := scanner.Next();
          var (d, eof') := scanner.Peek();
          if eof' {
            return Some(TokenizeError(EofAfterBackslash, scanner.line, scanner.col));
          }
          ghost var sb0 := sb;
          if d == '$' || d == '"' || d == '\\' {
            sb := sb + [d];
          } else if d != '\n' {
            sb := sb + "\\";
            sb := sb + [d];
          }
          assert sb == sb0 + Unescape(d);
          var _ := scanner.Next();
        } else if c == '$' {
          var locEnd := scanner.Loc();
          if locEnd.index != locStart.index {
            var subWord := NewSubWord(locStart, locEnd, STRING, sb);
            AfterAfter(subWords, [subWord], DoubleQuotedFrom(s, scanner.index, scanner.index, ""));
            subWords := subWords + [subWord];
            DoubleQuotedStep(s, scanner.index, scanner.index, "");
          }
          ghost var before := subWords;
          ghost var here := ExpansionFrom(s, scanner.index, QUOTED_VAR_EXPANSION);
          err := ParseVariableExpansion(QUOTED_VAR_EXPANSION);
          if err.Some? {
            return;
          }
          assert here.err.None?;
          AfterAfter(before, here.subWords, DoubleQuotedFrom(s, scanner.index, scanner.index, ""));
          locStart := scanner.Loc();
          sb := "";
        } else {
          sb := sb + [c];
          var _ := scanner.Next();
        }
      }
      subWords := subWords + [NewSubWord(locStart, scanner.Loc(), STRING, sb)];
      err := None;
    }

    method ParseSingleQuotedString() returns (err: Option<TokenizeError>)
      requires Valid() && !scanner.Eof() && scanner.content[scanner.index] == '\''
      modifies this`subWords, scanner
      ensures Valid()
      ensures var o := SingleQuotedFrom(scanner.content, old(scanner.index) + 1, old(scanner.index), "");
        Outcome(scanner.index, subWords, err) == After(old(subWords), o)
      ensures old(scanner.index) < scanner.index
    {
      hide SingleQuotedFrom, LocAt, NewSubWord, SubWordAt;
      ghost var s := scanner.content;
      ghost var start := scanner.index;
      ghost var goal := SingleQuotedFrom(s, start + 1, start, "");
      var locStart := scanner.Loc();
      var _ := scanner.Next();
      var sb := "";
      while true
        invariant Valid() && start < scanner.index && subWords == old(subWords)
        invariant SingleQuotedFrom(s, scanner.index, start, sb) == goal
        decreases |s| - scanner.index
      {
        var (c, eof) := scanner.Peek();
        SingleQuotedStep(s, scanner.index, start, sb);
        assert subWords + [] == subWords;
        if eof {
          return Some(TokenizeError(EofInSingleQuotes, scanner.line, scanner.col));
        }
        if c == '\'' {
          var _ := scanner.Next();
          break;
        }
        sb := sb + [c];
        var _ := scanner.Next();
      }
      subWords := subWords + [NewSubWord(locStart, scanner.Loc(), STRING, sb)];
      err := None;
    }

    // The longest name from here on.
    method ScanName() returns (sb: string)
      requires Valid()
      modifies scanner
      ensures Valid() && old(scanner.index) <= scanner.index
      ensures sb == scanner.content[old(scanner.index)..scanner.index]
      ensures forall m :: old(scanner.index) <= m < scanner.index ==> IsNameChar(scanner.content[m])
      ensures scanner.index < |scanner.content| ==> !IsNameChar(scanner.content[scanner.index])
    {
      hide LocAt, IsNameChar, Advance;
      ghost var s, j := scanner.content, scanner.index;
      sb := "";
      while true
        invariant Valid() && j <= scanner.index
        invariant forall m :: j <= m < scanner.index ==> IsNameChar(s[m])
        invariant sb == s[j..scanner.index]
        decreases |s| - scanner.index
      {
        var (c, eof) := scanner.Peek();
        if eof || !IsNameChar(c) {
          break;
        }
        SliceGrows(s, j, scanner.index);
        sb := sb + [c];
        var _ := scanner.Next();
      }
    }

    method ParseVariableExpansion(subWordType: SubWordType) returns (err: Option<TokenizeError>)
      requires Valid() && !scanner.Eof() && scanner.content[scanner.index] == '$'
      modifies this`subWords, scanner
      ensures Valid()
      ensures var o := ExpansionFrom(scanner.content, old(scanner.index), subWordType);
        Outcome(scanner.index, subWords, err) == After(old(subWords), o)
      ensures old(scanner.index) < scanner.index
    {
      hide ExpansionFrom, LocAt, IsNameChar, Advance, NewSubWord, SubWordAt;
      ghost var before := subWords;
      assert before + [] == before;
      ghost var s := scanner.content;
      ghost var i := scanner.index;
      var locStart := scanner.Loc();
      var _ := scanner.Next();
      var (c, eof) := scanner.Peek();
      var usesBraces := false;
      if !eof && c == '{' {
        usesBraces := true;
        var _ := scanner.Next();
      }
      ghost var j := scanner.index;
      var sb := ScanName();
      ghost var k := scanner.index;
      ExpansionMeans(s, i, j, k, subWordType);
      var varName := sb;
      if usesBraces {
        var (c, eof) := scanner.Peek();
        if eof {
          return Some(TokenizeError(EofInExpansion, scanner.line, scanner.col));
        }
        if c == '}' {
          var _ := scanner.Next();
        } else {
          return Some(TokenizeError(MissingBrace, scanner.line, scanner.col));
        }
        if varName == "" {
          return Some(TokenizeError(MissingName, locStart.line, locStart.col));
        }
      } else if varName == "" {
        subWords := subWords + [NewSubWord(locStart, scanner.Loc(), STRING, "$")];
        return None;
      }
      var subWord := NewSubWord(locStart, scanner.Loc(), subWordType, varName);
      subWords := subWords + [subWord];
      return None;
    }

    function NewToken(locStart: SourceLoc, locEnd: SourceLoc, tokenType: TokenType): Token
      requires locStart.index <= locEnd.index <= |scanner.content|
    {
      Token(Span(locStart, locEnd), tokenType, scanner.content[locStart.index..locEnd.index], [])
    }

    function NewSubWord(locStart: SourceLoc, locEnd: SourceLoc, subWordType: SubWordType, value: string): (r: SubWord)
      requires locStart.index <= locEnd.index <= |scanner.content|
      ensures locStart == LocAt(scanner.content, locStart.index) && locEnd == LocAt(scanner.content, locEnd.index)
        ==> r == SubWordAt(scanner.content, locStart.index, locEnd.index, subWordType, value)
    {
      SubWord(Span(locStart, locEnd), subWordType, scanner.content[locStart.index..locEnd.index], value)
    }
  }

  // Tokenizes a whole configuration; on an error, the tokens read before it
  // (and the incomplete word) are returned as well.
  method TokenizeConfig(configContent: string) returns (tokens: seq<Token>, err: Option<TokenizeError>)
    ensures tokens == Tokens(configContent)
    ensures err == ErrorAt(configContent, 0, Lex(configContent).fault)
    ensures err.None? <==> Lex(configContent).fault.None?
  {
    var scanner := new FileScanner(configContent);
    var tokenizer := new GrubConfigTokenizer(scanner);
    err := tokenizer.Tokenize();
    tokens := tokenizer.tokens;
    FaultInside(configContent);
  }
}
