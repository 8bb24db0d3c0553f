// Rewriting Boot Loader Specification entries in place
// (toolkit/tools/pkg/imagecustomizerlib/blsutils.go:404-465, :517-528).
module BlsUpdate {
  import opened Wrappers
  import opened BlsLines
  import opened BlsArgs

  // --------------------------------------------- replacing line contents

  // A new content for a line, or none to leave it alone.
  type Edit = Option<string>

  function EditText(t: string, edit: Edit): string {
    match edit
    case None => t
    case Some(x) => t[..BodyStart(t)] + x + t[BodyEnd(t)..]
  }

  // The simultaneous rewrite of all lines, from the front.
  function Rewrite(s: string, edits: seq<Edit>): string
    requires |edits| == |Texts(s)|
    decreases |s|
  {
    if s == "" then ""
    else
      EditText(s[..LineLen(s)], edits[0])
      + (if LineLen(s) == |s| then "" else "\n" + Rewrite(NextLines(s), edits[1..]))
  }

  // One replacement at the place where a line's content was parsed.
  function Splice(result: string, line: Line, edit: Edit): string
    requires edit.Some? ==> line.contentStart <= line.contentEnd <= |result|
  {
    match edit
    case None => result
    case Some(x) => result[..line.contentStart] + x + result[line.contentEnd..]
  }

  // The replacements one after another, the last line first, each at the
  // offsets that the lines had in the original text.
  function Spliced(pre: string, s: string, edits: seq<Edit>): (r: string)
    requires |edits| == |Texts(s)|
    ensures r == pre + Rewrite(s, edits)
    decreases |s|
  {
    SplicedWithin(pre, s, edits);
    if s == "" then pre
    else
      var next := Spliced(pre + s[..|s| - |NextLines(s)|], NextLines(s), edits[1..]);
      Splice(next, LineAt(s[..LineLen(s)], |pre|), edits[0])
  }

  lemma FrontLen(s: string)
    requires s != ""
    ensures s[..|s| - |NextLines(s)|] == s[..LineLen(s)] + (if LineLen(s) == |s| then "" else "\n")
    ensures s == s[..|s| - |NextLines(s)|] + NextLines(s)
  {
    hide LineLen;
  }

  lemma SplicedWithin(pre: string, s: string, edits: seq<Edit>)
    requires |edits| == |Texts(s)|
    ensures s == "" ==> pre == pre + Rewrite(s, edits)
    ensures s != "" ==>
      && LineAt(s[..LineLen(s)], |pre|).contentStart <= LineAt(s[..LineLen(s)], |pre|).contentEnd <= |pre| + LineLen(s)
      && Splice(pre + s[..|s| - |NextLines(s)|] + Rewrite(NextLines(s), edits[1..]), LineAt(s[..LineLen(s)], |pre|), edits[0])
        == pre + Rewrite(s, edits)
  {
    hide LineLen, NextLines, EditText, Splice, LineAt;
    RewriteNothing(s, pre, edits);
    if s != "" {
      FrontLen(s);
      var t := s[..LineLen(s)];
      var rest := Rewrite(NextLines(s), edits[1..]);
      if LineLen(s) == |s| {
        LastLine(s);
        RewriteNothing("", pre, edits[1..]);
        assert t + "" == t && pre + t + "" == pre + t;
        SpliceLine(pre, t, "", edits[0]);
      } else {
        assert pre + (t + "\n") + rest == pre + t + ("\n" + rest);
        SpliceLine(pre, t, "\n" + rest, edits[0]);
      }
    }
  }

  lemma LastLine(s: string)
    requires s != "" && LineLen(s) == |s|
    ensures NextLines(s) == ""
  {
  }

  lemma RewriteNothing(s: string, pre: string, edits: seq<Edit>)
    requires |edits| == |Texts(s)|
    ensures s == "" ==> Rewrite(s, edits) == "" && pre == pre + Rewrite(s, edits)
  {
    assert pre + "" == pre;
  }

  lemma SpliceLine(pre: string, t: string, after: string, edit: Edit)
    ensures var l := LineAt(t, |pre|);
      && l.contentStart <= l.contentEnd <= |pre| + |t|
      && Splice(pre + t + after, l, edit) == pre + (EditText(t, edit) + after)
  {
    hide KeyOf, ValueOf, Body, BodyStart, BodyEnd;
    var a, b := BodyStart(t), BodyEnd(t);
    var whole := pre + t + after;
    if edit.None? {
      assert whole == pre + (t + after);
    } else {
      assert whole[..|pre| + a] == pre + t[..a];
      assert whole[|pre| + b..] == t[b..] + after;
      var x := edit.value;
      assert pre + t[..a] + x + (t[b..] + after) == pre + (t[..a] + x + t[b..] + after);
    }
  }

  // ---------------------------------------------------- reading them back

  predicate NoNewline(s: string) {
    forall k :: 0 <= k < |s| ==> s[k] != '\n'
  }

  // The text of a new line content.
  predicate IsContent(edit: Edit) {
    edit.Some? ==> edit.value != "" && NoNewline(edit.value)
  }

  predicate AllContents(edits: seq<Edit>) {
    forall k :: 0 <= k < |edits| ==> IsContent(edits[k])
  }

  function EditTexts(texts: seq<string>, edits: seq<Edit>): (r: seq<string>)
    requires |texts| == |edits|
    ensures |r| == |texts|
    ensures forall k :: 0 <= k < |r| ==> r[k] == EditText(texts[k], edits[k])
  {
    seq(|texts|, k requires 0 <= k < |texts| => EditText(texts[k], edits[k]))
  }

  lemma TextsCons(t: string, rest: string)
    requires NoNewline(t)
    ensures Texts(t + ("\n" + rest)) == [t] + Texts(rest)
    ensures t != "" ==> Texts(t) == [t]
  {
    var s := t + ("\n" + rest);
    LineLenIs(s, |t|);
    LineLenIs(t, |t|);
    assert s[..|t|] == t && s[|t| + 1..] == rest;
    assert t[..|t|] == t;
    assert Texts("") == [];
    assert [t] + [] == [t];
  }

  lemma EditTextNoNewline(t: string, edit: Edit)
    requires NoNewline(t) && IsContent(edit)
    ensures NoNewline(EditText(t, edit)) && (edit.Some? || t != "" ==> EditText(t, edit) != "")
  {
    hide BodyStart, BodyEnd;
  }

  // The rewritten text has the same lines, with the new contents.
  lemma {:induction false} TextsOfRewrite(s: string, edits: seq<Edit>)
    requires |edits| == |Texts(s)| && AllContents(edits)
    ensures Texts(Rewrite(s, edits)) == EditTexts(Texts(s), edits)
    decreases |s|
  {
    hide LineLen, NextLines, EditText, IsContent, NoNewline;
    if s == "" {
    } else {
      var t := s[..LineLen(s)];
      LineNoNewline(s);
      EditTextNoNewline(t, edits[0]);
      var t' := EditText(t, edits[0]);
      var rest := Rewrite(NextLines(s), edits[1..]);
      TextsOfRewrite(NextLines(s), edits[1..]);
      TextsCons(t', rest);
      if LineLen(s) == |s| {
        LastLine(s);
        assert t' + "" == t';
        assert edits[1..] == [];
      }
      assert EditTexts(Texts(s), edits) == [t'] + EditTexts(Texts(NextLines(s)), edits[1..]);
    }
  }

  lemma LineNoNewline(s: string)
    ensures NoNewline(s[..LineLen(s)])
  {
    forall k | 0 <= k < LineLen(s) ensures s[..LineLen(s)][k] != '\n' {
    }
  }

  lemma {:induction false} TextsNoNewline(s: string)
    ensures forall k :: 0 <= k < |Texts(s)| ==> NoNewline(Texts(s)[k])
    decreases |s|
  {
    hide LineLen, NextLines, NoNewline;
    if s == "" {
    } else {
      LineNoNewline(s);
      TextsNoNewline(NextLines(s));
    }
  }

  function Stripped(x: string): string {
    x[..TrimEnd(x)]
  }

  // A line given a new content is that content, stripped at the end.
  lemma BodyOfEdit(t: string, x: string)
    requires x != "" && !IsBlank(x[0])
    ensures TrimEnd(x) > 0 ==> Body(EditText(t, Some(x))) == Stripped(x)
    ensures TrimEnd(x) == 0 ==> Body(EditText(t, Some(x))) == ""
  {
    hide *;
    EditTextIs(t, x);
    LeadIsBlank(t);
    BodyWithin(t[..BodyStart(t)], x, t[BodyEnd(t)..]);
  }

  lemma BodyWithin(lead: string, x: string, trail: string)
    requires forall k :: 0 <= k < |lead| ==> IsBlank(lead[k])
    requires forall k :: 0 <= k < |trail| ==> IsTrailing(trail[k])
    requires x != "" && !IsBlank(x[0])
    ensures TrimEnd(x) > 0 ==> Body(lead + x + trail) == Stripped(x)
    ensures TrimEnd(x) == 0 ==> Body(lead + x + trail) == ""
  {
    hide *;
    var u := lead + x + trail;
    TrimTrailing(lead + x, trail);
    var n := TrimEnd(x);
    if n > 0 {
      TrimConcat(lead, x);
      assert u[..|lead| + n] == lead + x[..n];
      LeadConcat(lead, x[..n]);
      BodyIs(u, |lead|, |lead| + n);
      assert u[|lead|..|lead| + n] == x[..n];
      StrippedIs(x);
    } else {
      TrimAll(lead, x);
      NothingLeft(u);
    }
  }

  lemma BodyIs(u: string, a: nat, b: nat)
    requires a <= b <= |u| && TrimEnd(u) == b && LeadLen(u[..b]) == a
    ensures Body(u) == u[a..b]
  {
  }

  lemma NothingLeft(u: string)
    requires TrimEnd(u) == 0
    ensures Body(u) == ""
  {
  }

  lemma StrippedIs(x: string)
    ensures Stripped(x) == x[..TrimEnd(x)]
  {
  }

  lemma TrimTrailing(u: string, trail: string)
    requires forall k :: 0 <= k < |trail| ==> IsTrailing(trail[k])
    ensures TrimEnd(u + trail) == TrimEnd(u)
  {
    hide IsTrailing;
    TrimEndIs(u + trail, TrimEnd(u));
  }

  lemma TrimConcat(a: string, x: string)
    requires TrimEnd(x) > 0
    ensures TrimEnd(a + x) == |a| + TrimEnd(x)
  {
    hide IsTrailing;
    TrimEndIs(a + x, |a| + TrimEnd(x));
  }

  lemma TrimAll(lead: string, x: string)
    requires TrimEnd(x) == 0 && forall k :: 0 <= k < |lead| ==> IsBlank(lead[k])
    ensures TrimEnd(lead + x) == 0
  {
    assert forall k :: 0 <= k < |lead| ==> IsTrailing(lead[k]);
    hide IsTrailing;
    TrimEndIs(lead + x, 0);
  }

  lemma LeadConcat(lead: string, y: string)
    requires y != "" && !IsBlank(y[0]) && forall k :: 0 <= k < |lead| ==> IsBlank(lead[k])
    ensures LeadLen(lead + y) == |lead|
  {
    hide IsBlank;
    LeadLenIs(lead + y, |lead|);
  }

  lemma EditTextIs(t: string, x: string)
    ensures EditText(t, Some(x)) == t[..BodyStart(t)] + x + t[BodyEnd(t)..]
  {
  }

  lemma LeadIsBlank(t: string)
    ensures forall k :: 0 <= k < BodyStart(t) ==> IsBlank(t[..BodyStart(t)][k])
    ensures forall k :: 0 <= k < |t| - BodyEnd(t) ==> IsTrailing(t[BodyEnd(t)..][k])
  {
    hide IsBlank, IsTrailing, TrimEnd, LeadLen;
    var u := t[..TrimEnd(t)];
    assert forall k :: 0 <= k < BodyStart(t) ==> t[k] == u[k];
  }

  // --------------------------------------------------------- options lines

  const OPTIONS := "options"

  predicate NoOptions(lines: seq<Line>) {
    forall k :: 0 <= k < |lines| ==> lines[k].key != OPTIONS
  }

  // The arguments that are not to be removed.
  function Kept(toks: seq<string>, remove: seq<string>): seq<string> {
    if toks == [] then []
    else (if ArgOf(toks[0]).name in remove then [] else [toks[0]]) + Kept(toks[1..], remove)
  }

  function OptionsText(args: seq<string>): string {
    if args == [] then OPTIONS else OPTIONS + (" " + Print(args))
  }

  // The arguments that an options line with that value ends up with.
  function NewOptions(value: string, remove: seq<string>, added: seq<string>): seq<string> {
    Kept(OptionTokens(value), remove) + added
  }

  // Options lines lose the arguments to remove; the last one gains the new ones.
  function OptionEdits(lines: seq<Line>, remove: seq<string>, newArgs: seq<string>): (edits: seq<Edit>)
    ensures |edits| == |lines|
  {
    if lines == [] then []
    else [OptionEdit(lines[0], remove, if NoOptions(lines[1..]) then newArgs else [])] + OptionEdits(lines[1..], remove, newArgs)
  }

  function OptionEdit(line: Line, remove: seq<string>, added: seq<string>): Edit {
    if line.key == OPTIONS then Some(OptionsText(NewOptions(line.value, remove, added))) else None
  }

  function UpdatedOptions(content: string, remove: seq<string>, newArgs: seq<string>): string {
    var lines := Lines(content);
    LinesCount(content, 0);
    if NoOptions(lines) then
      content + (if content != "" && content[|content| - 1] != '\n' then "\n" else "") + OptionsText(newArgs) + "\n"
    else
      Rewrite(content, OptionEdits(lines, remove, newArgs))
  }

  // ------------------------------------------------------------- the loops

  // The text from line k on.
  function Tail(s: string, k: nat): (r: string)
    requires k <= |Texts(s)|
    ensures |r| <= |s| && r == s[|s| - |r|..]
    ensures |Texts(r)| == |Texts(s)| - k
    decreases k
  {
    if k == 0 then s else Tail(NextLines(s), k - 1)
  }

  lemma {:induction false} TailNext(s: string, k: nat)
    requires k < |Texts(s)|
    ensures Tail(s, k) != "" && Tail(s, k + 1) == NextLines(Tail(s, k))
    decreases k
  {
    hide *;
    TextsUnfold(s);
    TailUnfold(s, k);
    TailUnfold(s, k + 1);
    if k == 0 {
      TailUnfold(NextLines(s), 0);
    } else {
      TailNext(NextLines(s), k - 1);
    }
  }

  lemma {:induction false} TailLines(s: string, base: nat, k: nat)
    requires k < |Texts(s)|
    ensures |LinesFrom(s, base)| == |Texts(s)|
    ensures Tail(s, k) != ""
    ensures LinesFrom(s, base)[k] == LineAt(Tail(s, k)[..LineLen(Tail(s, k))], base + (|s| - |Tail(s, k)|))
    decreases k
  {
    hide *;
    LinesCount(s, base);
    LinesUnfold(s, base);
    TextsUnfold(s);
    TailUnfold(s, k);
    if k > 0 {
      TailLines(NextLines(s), base + (|s| - |NextLines(s)|), k - 1);
    } else {
      NoTexts(s);
    }
  }

  lemma TailUnfold(s: string, k: nat)
    requires k <= |Texts(s)|
    ensures if k == 0 then Tail(s, k) == s else k - 1 <= |Texts(NextLines(s))| && Tail(s, k) == Tail(NextLines(s), k - 1)
  {
    hide LineLen, NextLines;
  }

  lemma TextsUnfold(s: string)
    ensures |Texts(s)| == if s == "" then 0 else 1 + |Texts(NextLines(s))|
  {
    hide LineLen, NextLines;
  }

  // The text once the lines from k on are rewritten.
  function Partial(content: string, edits: seq<Edit>, k: nat): string
    requires |edits| == |Texts(content)| && k <= |edits|
  {
    content[..|content| - |Tail(content, k)|] + Rewrite(Tail(content, k), edits[k..])
  }

  lemma PartialStep(content: string, edits: seq<Edit>, k: nat)
    requires |edits| == |Texts(content)| == |Lines(content)| && k < |edits|
    ensures Lines(content)[k].contentStart <= Lines(content)[k].contentEnd <= |Partial(content, edits, k + 1)|
    ensures Splice(Partial(content, edits, k + 1), Lines(content)[k], edits[k]) == Partial(content, edits, k)
  {
    hide *;
    TailNext(content, k);
    TailLines(content, 0, k);
    LinesIs(content);
    var t := Tail(content, k);
    var pre := content[..|content| - |t|];
    SplicedWithin(pre, t, edits[k..]);
    assert edits[k..][1..] == edits[k + 1..] && edits[k..][0] == edits[k];
    FrontOf(content, t, NextLines(t));
    PartialIs(content, edits, k);
    PartialIs(content, edits, k + 1);
    FrontLen(t);
  }

  lemma PartialIs(content: string, edits: seq<Edit>, k: nat)
    requires |edits| == |Texts(content)| && k <= |edits|
    ensures Partial(content, edits, k) == content[..|content| - |Tail(content, k)|] + Rewrite(Tail(content, k), edits[k..])
  {
    hide Tail, Rewrite;
  }

  lemma LinesIs(content: string)
    ensures Lines(content) == LinesFrom(content, 0)
  {
  }

  lemma FrontOf(s: string, t: string, next: string)
    requires |next| <= |t| <= |s| && t == s[|s| - |t|..]
    ensures s[..|s| - |t|] + t[..|t| - |next|] == s[..|s| - |next|]
  {
  }

  lemma {:induction false} PartialSkip(content: string, edits: seq<Edit>, k: nat, j: nat)
    requires |edits| == |Texts(content)| == |Lines(content)| && k <= j <= |edits|
    requires forall i :: k <= i < j ==> edits[i].None?
    ensures Partial(content, edits, k) == Partial(content, edits, j)
    decreases j - k
  {
    hide Partial, Lines, Texts;
    if k == j {
    } else {
      PartialStep(content, edits, k);
      PartialSkip(content, edits, k + 1, j);
    }
  }

  lemma PartialEnds(content: string, edits: seq<Edit>)
    requires |edits| == |Texts(content)|
    ensures Partial(content, edits, |edits|) == content
    ensures Partial(content, edits, 0) == Rewrite(content, edits)
  {
    hide *;
    PartialIs(content, edits, |edits|);
    PartialIs(content, edits, 0);
    TailUnfold(content, 0);
    NoTexts(Tail(content, |edits|));
    assert edits[0..] == edits;
    RewriteNothing("", "", edits[|edits|..]);
    assert content[..|content|] + "" == content;
    assert content[..0] + Rewrite(content, edits) == Rewrite(content, edits);
  }

  lemma NoTexts(s: string)
    ensures |Texts(s)| == 0 <==> s == ""
  {
  }

  lemma {:induction false} OptionEditsAt(lines: seq<Line>, remove: seq<string>, newArgs: seq<string>, k: nat)
    requires k < |lines|
    ensures OptionEdits(lines, remove, newArgs)[k] ==
      OptionEdit(lines[k], remove, if NoOptions(lines[k + 1..]) then newArgs else [])
  {
    hide OptionEdit, NoOptions;
    if k == 0 {
    } else {
      OptionEditsAt(lines[1..], remove, newArgs, k - 1);
      assert lines[1..][k..] == lines[k + 1..];
    }
  }

  // Collects the indices of the options lines.
  method FindOptions(lines: seq<Line>) returns (idx: seq<nat>)
    ensures AreOptions(lines, idx)
  {
    idx := [];
    for i := 0 to |lines|
      invariant forall j :: 0 <= j < |idx| ==> idx[j] < i && lines[idx[j]].key == OPTIONS
      invariant forall j, m :: 0 <= j < m < |idx| ==> idx[j] < idx[m]
      invariant forall k :: 0 <= k < i && lines[k].key == OPTIONS ==> k in idx
    {
      if lines[i].key == OPTIONS {
        idx := idx + [i];
      }
    }
  }

  // The new content of an options line.
  method NewOptionsLine(value: string, argsToRemove: seq<string>, added: seq<string>) returns (replacement: string)
    ensures replacement == OptionsText(NewOptions(value, argsToRemove, added))
  {
    hide ArgOf;
    var args := ParseBLSOptionsValue(value);
    ghost var toks := OptionTokens(value);
    var argStrings: seq<string> := [];
    assert toks[0..] == toks && [] + Kept(toks, argsToRemove) == Kept(toks, argsToRemove);
    for i := 0 to |args|
      invariant argStrings + Kept(toks[i..], argsToRemove) == Kept(toks, argsToRemove)
    {
      ArgOfArg(toks[i]);
      KeptStep(toks, argsToRemove, i, argStrings);
      if args[i].name in argsToRemove {
        continue;
      }
      argStrings := argStrings + [args[i].arg];
    }
    assert argStrings + [] == argStrings;
    argStrings := argStrings + added;
    replacement := OPTIONS;
    if |argStrings| > 0 {
      var printed := GrubArgsToString(argStrings);
      replacement := replacement + (" " + printed);
    }
  }

  lemma ArgOfArg(tok: string)
    ensures ArgOf(tok).arg == tok
  {
  }

  lemma KeptStep(toks: seq<string>, remove: seq<string>, i: nat, before: seq<string>)
    requires i < |toks|
    ensures before + Kept(toks[i..], remove) ==
      (if ArgOf(toks[i]).name in remove then before else before + [toks[i]]) + Kept(toks[i + 1..], remove)
  {
    hide ArgOf;
    assert toks[i..][1..] == toks[i + 1..];
    var rest := Kept(toks[i + 1..], remove);
    assert [] + rest == rest;
    assert before + ([toks[i]] + rest) == before + [toks[i]] + rest;
  }

  method UpdateBLSEntryOptions(content: string, argsToRemove: seq<string>, newArgs: seq<string>) returns (r: string)
    ensures r == UpdatedOptions(content, argsToRemove, newArgs)
  {
    hide Lines, Rewrite, OptionEdits, OptionsText, NoOptions;
    var lines := ParseLines(content);
    var optionsIdx := FindOptions(lines);
    OptionsFound(lines, optionsIdx);
    if |optionsIdx| == 0 {
      var newLine := OptionsLine(newArgs);
      var start := content;
      assert content + "" == content;
      if content != "" && content[|content| - 1] != '\n' {
        start := start + "\n";
      }
      return start + newLine + "\n";
    }
    r := SpliceOptions(content, lines, optionsIdx, argsToRemove, newArgs);
  }

  // The indices of the options lines, in order.
  predicate AreOptions(lines: seq<Line>, idx: seq<nat>) {
    && (forall i :: 0 <= i < |idx| ==> idx[i] < |lines| && lines[idx[i]].key == OPTIONS)
    && (forall i, j :: 0 <= i < j < |idx| ==> idx[i] < idx[j])
    && (forall k :: 0 <= k < |lines| && lines[k].key == OPTIONS ==> k in idx)
  }

  lemma OptionsFound(lines: seq<Line>, idx: seq<nat>)
    requires AreOptions(lines, idx)
    ensures NoOptions(lines) <==> idx == []
  {
    if idx != [] {
      assert lines[idx[0]].key == OPTIONS;
    }
  }

  // Splices the options lines in reverse order, so that the offsets of the
  // earlier ones remain valid.
  method SpliceOptions(content: string, lines: seq<Line>, optionsIdx: seq<nat>, argsToRemove: seq<string>, newArgs: seq<string>)
    returns (r: string)
    requires lines == Lines(content) && AreOptions(lines, optionsIdx) && |optionsIdx| > 0
    ensures |lines| == |Texts(content)|
    ensures r == Rewrite(content, OptionEdits(lines, argsToRemove, newArgs))
  {
    hide Lines, Texts, Rewrite, Partial, OptionEdits, OptionEdit, NewOptions, OptionsText, Splice, AreOptions, NoOptions;
    LinesAndTexts(content);
    ghost var edits := OptionEdits(lines, argsToRemove, newArgs);
    r := content;
    PartialEnds(content, edits);
    ghost var k := |lines|;
    var i := |optionsIdx|;
    while i > 0
      invariant 0 <= i <= |optionsIdx|
      invariant k == (if i == |optionsIdx| then |lines| else optionsIdx[i])
      invariant k <= |lines| && r == Partial(content, edits, k)
    {
      i := i - 1;
      OptionAt(lines, optionsIdx, i);
      var line := lines[optionsIdx[i]];
      NoneBetween(lines, optionsIdx, i, edits, argsToRemove, newArgs);
      PartialSkip(content, edits, optionsIdx[i] + 1, k);
      var added := if i == |optionsIdx| - 1 then newArgs else [];
      var replacement := NewOptionsLine(line.value, argsToRemove, added);
      OptionEditIs(line, argsToRemove, added);
      PartialStep(content, edits, optionsIdx[i]);
      SpliceIs(r, line, replacement);
      r := r[..line.contentStart] + replacement + r[line.contentEnd..];
      k := optionsIdx[i];
    }
    NoneBefore(lines, optionsIdx, edits, argsToRemove, newArgs);
    PartialSkip(content, edits, 0, k);
  }

  lemma LinesAndTexts(content: string)
    ensures |Lines(content)| == |Texts(content)|
  {
    LinesCount(content, 0);
  }

  lemma OptionAt(lines: seq<Line>, idx: seq<nat>, i: nat)
    requires AreOptions(lines, idx) && i < |idx|
    ensures idx[i] < |lines| && lines[idx[i]].key == OPTIONS
  {
  }

  method OptionsLine(newArgs: seq<string>) returns (newLine: string)
    ensures newLine == OptionsText(newArgs)
  {
    newLine := OPTIONS;
    if |newArgs| > 0 {
      var printed := GrubArgsToString(newArgs);
      newLine := newLine + (" " + printed);
    }
  }

  lemma OptionEditIs(line: Line, remove: seq<string>, added: seq<string>)
    ensures line.key == OPTIONS ==> OptionEdit(line, remove, added) == Some(OptionsText(NewOptions(line.value, remove, added)))
    ensures line.key != OPTIONS ==> OptionEdit(line, remove, added) == None
  {
  }

  lemma SpliceIs(r: string, line: Line, x: string)
    requires line.contentStart <= line.contentEnd <= |r|
    ensures Splice(r, line, Some(x)) == r[..line.contentStart] + x + r[line.contentEnd..]
  {
  }

  // Between two options lines nothing is edited, and only the last options line
  // has none after it.
  lemma NoneBetween(lines: seq<Line>, idx: seq<nat>, i: nat, edits: seq<Edit>, remove: seq<string>, newArgs: seq<string>)
    requires i < |idx| && AreOptions(lines, idx) && edits == OptionEdits(lines, remove, newArgs)
    ensures idx[i] < (if i + 1 == |idx| then |lines| else idx[i + 1]) <= |lines|
    ensures forall k :: idx[i] < k < (if i + 1 == |idx| then |lines| else idx[i + 1]) ==> edits[k].None?
    ensures edits[idx[i]] == OptionEdit(lines[idx[i]], remove, if i + 1 == |idx| then newArgs else [])
  {
    hide OptionEdit, OptionEdits;
    var next := if i + 1 == |idx| then |lines| else idx[i + 1];
    forall k | idx[i] < k < next ensures edits[k].None? {
      NotIndexed(lines, idx, i, k);
      OptionEditsAt(lines, remove, newArgs, k);
      OptionEditIs(lines[k], remove, if NoOptions(lines[k + 1..]) then newArgs else []);
    }
    OptionEditsAt(lines, remove, newArgs, idx[i]);
    LastOption(lines, idx, i);
  }

  lemma NotIndexed(lines: seq<Line>, idx: seq<nat>, i: nat, k: nat)
    requires i < |idx| && AreOptions(lines, idx) && idx[i] < k < |lines|
    requires i + 1 < |idx| ==> k < idx[i + 1]
    ensures lines[k].key != OPTIONS
  {
  }

  lemma LastOption(lines: seq<Line>, idx: seq<nat>, i: nat)
    requires i < |idx| && AreOptions(lines, idx)
    ensures NoOptions(lines[idx[i] + 1..]) <==> i + 1 == |idx|
  {
    var after := lines[idx[i] + 1..];
    if i + 1 < |idx| {
      assert after[idx[i + 1] - idx[i] - 1] == lines[idx[i + 1]];
    } else {
      forall j | 0 <= j < |after| ensures after[j].key != OPTIONS {
        NotIndexed(lines, idx, i, idx[i] + 1 + j);
      }
    }
  }

  lemma NoneBefore(lines: seq<Line>, idx: seq<nat>, edits: seq<Edit>, remove: seq<string>, newArgs: seq<string>)
    requires |idx| > 0 && AreOptions(lines, idx) && edits == OptionEdits(lines, remove, newArgs)
    ensures idx[0] <= |lines| && forall k :: 0 <= k < idx[0] ==> edits[k].None?
  {
    hide OptionEdit, OptionEdits;
    forall k | 0 <= k < idx[0] ensures edits[k].None? {
      OptionEditsAt(lines, remove, newArgs, k);
      OptionEditIs(lines[k], remove, if NoOptions(lines[k + 1..]) then newArgs else []);
    }
  }
}
