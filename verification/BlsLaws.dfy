// What editing a Boot Loader Specification entry does to the entry as it is
// read back.
module BlsLaws {
  import opened GrubTokens
  import opened Wrappers
  import opened GrubQuoting
  import opened BlsLines
  import opened BlsArgs
  import opened BlsNames
  import opened BlsReadBack
  import opened BlsUpdate
  import DefaultGrub

  predicate NoNewlines(args: seq<string>) {
    forall k :: 0 <= k < |args| ==> NoNewline(args[k])
  }

  // --------------------------------------------------- no newline gets in

  lemma {:induction false} EscapeNoNewline(a: string)
    requires NoNewline(a)
    ensures NoNewline(Escape(a))
  {
    if a == "" {
    } else {
      EscapeNoNewline(a[1..]);
    }
  }

  lemma QuoteNoNewline(a: string)
    requires NoNewline(a)
    ensures NoNewline(QuoteIfNeeded(a))
  {
    EscapeNoNewline(a);
  }

  lemma {:induction false} PrintNoNewline(args: seq<string>)
    requires NoNewlines(args)
    ensures NoNewline(Print(args))
  {
    hide QuoteIfNeeded;
    if args == [] {
    } else {
      QuoteNoNewline(args[0]);
      PrintNoNewline(args[1..]);
    }
  }

  lemma {:induction false} SplitNoNewline(v: string, cur: string, inQuotes: bool)
    requires NoNewline(v) && NoNewline(cur)
    ensures NoNewlines(Split(v, cur, inQuotes))
    decreases |v|
  {
    if v == "" {
    } else if v[0] == '"' {
      SplitNoNewline(v[1..], cur, !inQuotes);
    } else if !inQuotes && IsSpace(v[0]) {
      SplitNoNewline(v[1..], "", inQuotes);
    } else {
      SplitNoNewline(v[1..], cur + [v[0]], inQuotes);
    }
  }

  lemma {:induction false} KeptNoNewline(toks: seq<string>, remove: seq<string>)
    ensures NoNewlines(toks) ==> NoNewlines(Kept(toks, remove))
    ensures AllQuoteFree(toks) ==> AllQuoteFree(Kept(toks, remove))
  {
    hide ArgOf, NoNewline, QuoteFree;
    if toks == [] {
    } else {
      KeptNoNewline(toks[1..], remove);
    }
  }

  // The arguments that have a removed name are gone, all others stay.
  lemma {:induction false} KeptVanish(toks: seq<string>, remove: seq<string>)
    ensures forall k :: 0 <= k < |Kept(toks, remove)| ==> !IsRemoved(Kept(toks, remove)[k], remove)
    ensures forall a :: multiset(Kept(toks, remove))[a] == if IsRemoved(a, remove) then 0 else multiset(toks)[a]
  {
    hide ArgOf, IsRemoved;
    if toks == [] {
    } else {
      KeptVanish(toks[1..], remove);
      RemovedMeans(toks[0], remove);
      assert toks == [toks[0]] + toks[1..];
    }
  }

  lemma ValueNoNewline(t: string)
    requires NoNewline(t)
    ensures NoNewline(ValueOf(Body(t))) && NoNewline(KeyOf(Body(t)))
  {
    var body := Body(t);
    assert forall k :: 0 <= k < |body| ==> body[k] == t[BodyStart(t) + k];
    hide Body, BodyStart, BodyEnd, WordLen, LeadLen;
  }

  // ------------------------------------------------------ options lines

  lemma OptionsTextIs(args: seq<string>)
    ensures OptionsText(args) != "" && !IsBlank(OptionsText(args)[0]) && OPTIONS <= OptionsText(args)
    ensures |OptionsText(args)| > 7 ==> OptionsText(args)[7] == ' '
    ensures args != [] ==> OptionsText(args)[8..] == Print(args)
    ensures NoNewlines(args) ==> NoNewline(OptionsText(args))
  {
    hide Print;
    if NoNewlines(args) {
      PrintNoNewline(args);
    }
  }

  // A word that a line can have for its key.
  predicate IsKey(key: string) {
    key != "" && key[0] != '#' && forall k :: 0 <= k < |key| ==> !IsBlank(key[k])
  }

  lemma KeyIs(y: string, key: string)
    requires IsKey(key) && |key| <= |y| && y[..|key|] == key && (|y| > |key| ==> IsBlank(y[|key|]))
    ensures WordLen(y) == |key| && KeyOf(y) == key
  {
    hide IsBlank, WordLen;
    assert forall k :: 0 <= k < |key| ==> y[k] == y[..|key|][k];
    WordLenIs(y, |key|);
  }

  // Whatever follows it, the key is read back.
  lemma KeyReadBack(x: string, key: string)
    requires IsKey(key) && |key| <= |x| && x[..|key|] == key && (|x| > |key| ==> IsBlank(x[|key|]))
    requires !IsTrailing(key[|key| - 1])
    ensures TrimEnd(x) >= |key| && KeyOf(Stripped(x)) == key
  {
    hide *;
    KeyIsNotEmpty(key);
    assert x[|key| - 1] == key[|key| - 1];
    TrimEndPast(x, |key|);
    StrippedFront(x, |key|);
    KeyIs(Stripped(x), key);
  }

  lemma KeyIsNotEmpty(key: string)
    ensures IsKey(key) ==> key != ""
  {
  }

  lemma StrippedFront(x: string, n: nat)
    requires n <= TrimEnd(x)
    ensures n <= |Stripped(x)| <= |x| && Stripped(x)[..n] == x[..n]
    ensures |Stripped(x)| > n ==> Stripped(x)[n] == x[n]
  {
    hide TrimEnd;
  }

  lemma TrimEndPast(x: string, n: nat)
    requires 0 < n <= |x| && !IsTrailing(x[n - 1])
    ensures TrimEnd(x) >= n
  {
    hide IsTrailing;
  }

  lemma OptionsIsKey()
    ensures IsKey(OPTIONS) && !IsTrailing(OPTIONS[|OPTIONS| - 1])
  {
    assert OPTIONS[6] == 's';
  }

  lemma BlankAfter(args: seq<string>)
    ensures |OPTIONS| <= |OptionsText(args)| && OptionsText(args)[..|OPTIONS|] == OPTIONS
    ensures |OptionsText(args)| > |OPTIONS| ==> IsBlank(OptionsText(args)[|OPTIONS|])
  {
    hide Print;
  }

  // What an options line that was rewritten reads as.
  lemma OptionsReadBack(t: string, kept: seq<string>, added: seq<string>)
    requires NoNewlines(kept + added) && AllQuoteFree(kept)
    ensures var t' := EditText(t, Some(OptionsText(kept + added)));
      KeyOf(Body(t')) == OPTIONS && OptionTokens(ValueOf(Body(t'))) == ReadBack(kept, added)
  {
    hide *;
    var x := OptionsText(kept + added);
    OptionsTextIs(kept + added);
    BodyOfEdit(t, x);
    OptionsIsKey();
    BlankAfter(kept + added);
    KeyReadBack(x, OPTIONS);
    LineReadsBack(kept, added);
  }

  lemma {:induction false} OptionContents(lines: seq<Line>, remove: seq<string>, newArgs: seq<string>)
    requires NoNewlines(newArgs) && forall k :: 0 <= k < |lines| ==> NoNewline(lines[k].value)
    ensures AllContents(OptionEdits(lines, remove, newArgs))
  {
    hide OptionEdit, NoNewline, NoOptions;
    if lines == [] {
    } else {
      OptionContents(lines[1..], remove, newArgs);
      NewOptionsNoNewline(lines[0].value, remove, if NoOptions(lines[1..]) then newArgs else []);
      OptionEditIs(lines[0], remove, if NoOptions(lines[1..]) then newArgs else []);
    }
  }

  lemma NewOptionsNoNewline(value: string, remove: seq<string>, added: seq<string>)
    requires NoNewline(value) && NoNewlines(added)
    ensures NoNewlines(NewOptions(value, remove, added))
    ensures IsContent(Some(OptionsText(NewOptions(value, remove, added))))
  {
    hide NoNewline, Split, Kept, OptionsText;
    SplitNoNewline(value, "", false) by { NothingIsClean(); }
    KeptNoNewline(OptionTokens(value), remove);
    OptionsTextIs(NewOptions(value, remove, added));
  }

  lemma NothingIsClean()
    ensures NoNewline("")
  {
  }

  // ---------------------------------------------------------- the main law

  // The arguments of an options line that stay, and those it gains.
  function KeptAt(lines: seq<Line>, remove: seq<string>, k: nat): seq<string>
    requires k < |lines|
  {
    Staying(OptionTokens(lines[k].value), remove)
  }

  function AddedAt(lines: seq<Line>, newArgs: seq<string>, k: nat): seq<string>
    requires k < |lines|
  {
    if NoOptions(lines[k + 1..]) then newArgs else []
  }

  lemma KeptIsQuoteFree(lines: seq<Line>, remove: seq<string>, k: nat)
    requires k < |lines|
    ensures AllQuoteFree(KeptAt(lines, remove, k))
  {
    hide Split, Kept, Staying;
    SplitYields(lines[k].value, "", false);
    KeptNoNewline(OptionTokens(lines[k].value), remove);
    KeptAre(OptionTokens(lines[k].value), remove);
  }

  lemma NewOptionsAt(lines: seq<Line>, remove: seq<string>, newArgs: seq<string>, k: nat)
    requires k < |lines|
    ensures NewOptions(lines[k].value, remove, AddedAt(lines, newArgs, k)) ==
      KeptAt(lines, remove, k) + AddedAt(lines, newArgs, k)
  {
    hide Kept, OptionTokens, NoOptions, Staying;
    KeptAre(OptionTokens(lines[k].value), remove);
  }

  lemma LineOf(content: string, k: nat)
    requires k < |Texts(content)|
    ensures |Lines(content)| == |Texts(content)|
    ensures Lines(content)[k].key == KeyOf(Body(Texts(content)[k]))
    ensures Lines(content)[k].value == ValueOf(Body(Texts(content)[k]))
  {
    hide *;
    LinesIs(content);
    TextOfLine(content, 0, k);
  }

  lemma ValuesNoNewline(content: string)
    ensures forall k :: 0 <= k < |Lines(content)| ==> NoNewline(Lines(content)[k].value)
  {
    hide *;
    LinesAndTexts(content);
    TextsNoNewline(content);
    forall k | 0 <= k < |Lines(content)| ensures NoNewline(Lines(content)[k].value) {
      LineOf(content, k);
      ValueNoNewline(Texts(content)[k]);
    }
  }

  // Every line of the updated entry is the old line, unless it is an options
  // line; that one has a new content between its own surrounding whitespace.
  lemma UpdatedTexts(content: string, remove: seq<string>, newArgs: seq<string>)
    requires NoNewlines(newArgs) && !NoOptions(Lines(content))
    ensures var r := UpdatedOptions(content, remove, newArgs);
      |Texts(r)| == |Lines(r)| == |Texts(content)| == |Lines(content)|
    ensures forall k :: 0 <= k < |Lines(content)| ==>
      Texts(UpdatedOptions(content, remove, newArgs))[k] ==
        EditText(Texts(content)[k], OptionEdits(Lines(content), remove, newArgs)[k])
  {
    hide *;
    var lines := Lines(content);
    ValuesNoNewline(content);
    OptionContents(lines, remove, newArgs);
    LinesAndTexts(content);
    UpdatedIs(content, remove, newArgs);
    TextsOfRewrite(content, OptionEdits(lines, remove, newArgs));
    LinesAndTexts(UpdatedOptions(content, remove, newArgs));
  }

  lemma UpdatedIs(content: string, remove: seq<string>, newArgs: seq<string>)
    requires !NoOptions(Lines(content))
    ensures |Texts(content)| == |Lines(content)|
    ensures UpdatedOptions(content, remove, newArgs) == Rewrite(content, OptionEdits(Lines(content), remove, newArgs))
  {
    hide Lines, Texts, NoOptions, Rewrite, OptionEdits;
    LinesAndTexts(content);
  }

  lemma EditOfLine(lines: seq<Line>, remove: seq<string>, newArgs: seq<string>, k: nat)
    requires k < |lines|
    ensures OptionEdits(lines, remove, newArgs)[k] ==
      if lines[k].key == OPTIONS then Some(OptionsText(KeptAt(lines, remove, k) + AddedAt(lines, newArgs, k))) else None
  {
    hide OptionsText, NewOptions, NoOptions, KeptAt;
    OptionEditsAt(lines, remove, newArgs, k);
    NewOptionsAt(lines, remove, newArgs, k);
  }

  // An entry with an options line keeps the number of lines, all its keys, and
  // all its other lines; an options line is read back as its own arguments but for
  // the removed ones, and then, on the last one, what the new ones print as.
  lemma UpdateKeeps(content: string, remove: seq<string>, newArgs: seq<string>, k: nat)
    requires NoNewlines(newArgs) && !NoOptions(Lines(content)) && k < |Lines(content)|
    ensures var r := UpdatedOptions(content, remove, newArgs);
      |Lines(r)| == |Lines(content)| == |Texts(r)| == |Texts(content)|
    ensures Lines(UpdatedOptions(content, remove, newArgs))[k].key == Lines(content)[k].key
    ensures Lines(content)[k].key != OPTIONS ==>
      Texts(UpdatedOptions(content, remove, newArgs))[k] == Texts(content)[k]
    ensures Lines(content)[k].key == OPTIONS ==>
      OptionTokens(Lines(UpdatedOptions(content, remove, newArgs))[k].value) ==
        ReadBack(KeptAt(Lines(content), remove, k), AddedAt(Lines(content), newArgs, k))
  {
    hide *;
    var r := UpdatedOptions(content, remove, newArgs);
    var lines := Lines(content);
    UpdatedTexts(content, remove, newArgs);
    LineOf(content, k);
    LineOf(r, k);
    EditOfLine(lines, remove, newArgs, k);
    if lines[k].key == OPTIONS {
      ValuesNoNewline(content);
      AddedNoNewlines(lines, newArgs, k);
      NewOptionsNoNewline(lines[k].value, remove, AddedAt(lines, newArgs, k));
      NewOptionsAt(lines, remove, newArgs, k);
      KeptIsQuoteFree(lines, remove, k);
      OptionsReadBack(Texts(content)[k], KeptAt(lines, remove, k), AddedAt(lines, newArgs, k));
    } else {
      NoEdit(Texts(content)[k]);
    }
  }

  lemma AddedNoNewlines(lines: seq<Line>, newArgs: seq<string>, k: nat)
    requires NoNewlines(newArgs) && k < |lines|
    ensures NoNewlines(AddedAt(lines, newArgs, k))
  {
  }

  lemma NoEdit(t: string)
    ensures EditText(t, None) == t
  {
  }

  // ------------------------------------------------------ removed arguments

  lemma {:induction false} EscapeConcat(a: string, b: string)
    ensures Escape(a + b) == Escape(a) + Escape(b)
  {
    if a == "" {
      assert a + b == b;
    } else {
      assert (a + b)[1..] == a[1..] + b;
      EscapeConcat(a[1..], b);
    }
  }

  lemma {:induction false} EscapePlain(a: string)
    ensures '=' in Escape(a) <==> '=' in a
    ensures '\\' !in Escape(a) ==> Escape(a) == a
  {
    if a == "" {
    } else {
      EscapePlain(a[1..]);
      assert a == [a[0]] + a[1..];
    }
  }

  // Escaping an argument escapes its name.
  lemma EscapedName(a: string)
    ensures ArgOf(Escape(a)).name == Escape(ArgOf(a).name)
  {
    hide Escape;
    var n := DefaultGrub.IndexOf(a, '=');
    if n < |a| {
      var e := Escape(a[..n]);
      assert a == a[..n] + a[n..];
      EscapeConcat(a[..n], a[n..]);
      EscapePlain(a[..n]);
      EqualsFirst(a[n..]);
      assert Escape(a)[..|e|] == e;
      DefaultGrub.IndexOfIs(Escape(a), '=', |e|);
    } else {
      EscapePlain(a);
    }
  }

  lemma EqualsFirst(a: string)
    requires a != "" && a[0] == '='
    ensures Escape(a) != "" && Escape(a)[0] == '='
  {
  }

  // What the name of an argument becomes once it was printed and read back.
  function NameBack(a: string, name: string): string {
    if RequiresQuotes(a) then Escape(name) else name
  }

  lemma MangledName(a: string)
    ensures ArgOf(Mangle(a)).name == NameBack(a, ArgOf(a).name)
  {
    hide ArgOf, Escape;
    EscapedName(a);
  }

  // No name of the argument becomes one to remove.
  ghost predicate StaysGone(a: string, remove: seq<string>) {
    forall name :: HasName(a, name) ==> NameBack(a, name) !in remove
  }

  lemma StaysGoneIs(a: string, remove: seq<string>)
    ensures IsRemoved(Mangle(a), remove) <==> !StaysGone(a, remove)
  {
    hide ArgOf, HasName, Mangle, NameBack, IsRemoved;
    MangledName(a);
    RemovedMeans(Mangle(a), remove);
    NameOf(a);
    forall name | HasName(a, name) ensures name == ArgOf(a).name {
      NameMeans(a, name);
    }
  }

  // Removed names vanish from an options line of the updated entry, what stands
  // there for the new arguments aside, if and only if none of the arguments that
  // survive is given a removed name by the quoting (or by the stripping, if it is
  // the last one).
  lemma RemovedVanish(content: string, remove: seq<string>, newArgs: seq<string>, k: nat)
    requires NoNewlines(newArgs) && k < |Lines(content)| && Lines(content)[k].key == "options"
    ensures k < |Lines(UpdatedOptions(content, remove, newArgs))|
    ensures var kept, added := KeptAt(Lines(content), remove, k), AddedAt(Lines(content), newArgs, k);
      var toks := OptionTokens(Lines(UpdatedOptions(content, remove, newArgs))[k].value);
      var n := |Surviving(kept, added)|;
      && n <= |toks| && toks[n..] == OptionTokens(Print(Cleaned(added)))
      && ((forall j :: 0 <= j < n ==> !IsRemoved(toks[j], remove)) <==>
          forall j :: 0 <= j < n ==> StaysGone(Surviving(kept, added)[j], remove))
  {
    assert OPTIONS == "options";
    hide *;
    HasOptions(Lines(content), k);
    UpdateKeeps(content, remove, newArgs, k);
    var kept, added := KeptAt(Lines(content), remove, k), AddedAt(Lines(content), newArgs, k);
    NamesBack(kept, added);
    var toks, s := ReadBack(kept, added), Surviving(kept, added);
    forall j | 0 <= j < |s| ensures IsRemoved(toks[j], remove) <==> !StaysGone(s[j], remove) {
      StaysGoneIs(s[j], remove);
    }
  }

  lemma HasOptions(lines: seq<Line>, k: nat)
    requires k < |lines| && lines[k].key == OPTIONS
    ensures !NoOptions(lines)
  {
  }

  lemma NamesBack(kept: seq<string>, added: seq<string>)
    ensures var toks, s := ReadBack(kept, added), Surviving(kept, added);
      && |s| <= |toks| && toks[|s|..] == OptionTokens(Print(Cleaned(added)))
      && forall j :: 0 <= j < |s| ==> toks[j] == Mangle(s[j])
  {
    hide Mangle, Mangled, OptionTokens, Cleaned, Surviving;
    MangledLen(Surviving(kept, added));
  }

  lemma RemovedHas(a: string, name: string, remove: seq<string>)
    requires HasName(a, name)
    ensures name in remove ==> IsRemoved(a, remove)
  {
    hide HasName;
  }

  // So they do vanish where no name to remove has a backslash, and the last kept
  // argument keeps its end or something that was added stands behind it.
  lemma PlainNamesVanish(toks: seq<string>, remove: seq<string>, added: seq<string>, j: nat)
    requires forall i :: 0 <= i < |remove| ==> '\\' !in remove[i]
    requires Cleaned(added) != [] || LastIsClean(Staying(toks, remove))
    requires j < |Surviving(Staying(toks, remove), added)|
    ensures StaysGone(Surviving(Staying(toks, remove), added)[j], remove)
  {
    hide ArgOf, Cleaned, LastIsClean, HasName, Staying;
    KeptAre(toks, remove);
    var kept := Kept(toks, remove);
    KeptVanish(toks, remove);
    CleanedLen(kept);
    forall name | HasName(kept[j], name) ensures NameBack(kept[j], name) !in remove {
      EscapePlain(name);
      RemovedHas(kept[j], name, remove);
    }
  }

  // ------------------------------------------------- no options line so far

  lemma {:induction false} TextsAppend(s: string, x: string)
    requires x != "" && NoNewline(x)
    requires s == "" || s[|s| - 1] == '\n'
    ensures Texts(s + (x + "\n")) == Texts(s) + [x]
    decreases |s|
  {
    hide *;
    if s == "" {
      TextsAlone(x);
      assert s + (x + "\n") == x + "\n";
    } else {
      LineNoNewline(s);
      LineEnds(s);
      var t, rest := s[..LineLen(s)], NextLines(s);
      NextIsShorter(s);
      FourParts(t, rest, x + "\n");
      TextsCons(t, rest + (x + "\n"));
      TextsAppend(rest, x);
      TextsCons(t, rest);
      ThreeLists([t], Texts(rest), [x]);
    }
  }

  lemma ThreeLists(a: seq<string>, b: seq<string>, c: seq<string>)
    ensures a + (b + c) == a + b + c
  {
  }

  lemma NextIsShorter(s: string)
    requires s != ""
    ensures |NextLines(s)| < |s|
  {
  }

  lemma TextsAlone(x: string)
    requires x != "" && NoNewline(x)
    ensures Texts(x + "\n") == [x] && Texts("") == [] && [] + [x] == [x]
  {
    hide LineLen, NoNewline;
    TextsCons(x, "");
    assert "\n" + "" == "\n";
  }

  lemma FourParts(t: string, rest: string, y: string)
    ensures t + ("\n" + rest) + y == t + ("\n" + (rest + y))
  {
  }

  lemma LineEnds(s: string)
    requires s != "" && s[|s| - 1] == '\n'
    ensures LineLen(s) < |s| && s == s[..LineLen(s)] + ("\n" + NextLines(s))
    ensures NextLines(s) == "" || NextLines(s)[|NextLines(s)| - 1] == '\n'
  {
    hide LineLen;
    assert s[|s| - 1] in s && s[..|s|] == s;
  }

  lemma {:induction false} TextsEnded(s: string)
    requires s != "" && s[|s| - 1] != '\n'
    ensures Texts(s + "\n") == Texts(s)
    decreases |s|
  {
    hide LineLen, NextLines, NoNewline;
    LineNoNewline(s);
    LineUnended(s);
    var t, rest := s[..LineLen(s)], NextLines(s);
    if rest == "" {
      assert s + "\n" == t + ("\n" + "");
      TextsCons(t, "");
      NoTexts("");
      assert [t] + [] == [t];
    } else {
      assert s == t + ("\n" + rest);
      assert s + "\n" == t + ("\n" + (rest + "\n"));
      TextsCons(t, rest + "\n");
      TextsCons(t, rest);
      TextsEnded(rest);
    }
  }

  lemma LineUnended(s: string)
    requires s != "" && s[|s| - 1] != '\n'
    ensures if NextLines(s) == "" then s == s[..LineLen(s)]
      else s == s[..LineLen(s)] + ("\n" + NextLines(s)) && NextLines(s)[|NextLines(s)| - 1] != '\n'
  {
    hide LineLen;
  }

  // An entry without an options line gains one at the end, with the new
  // arguments.
  lemma UpdateAdds(content: string, remove: seq<string>, newArgs: seq<string>)
    requires NoNewlines(newArgs) && NoOptions(Lines(content))
    ensures Texts(UpdatedOptions(content, remove, newArgs)) == Texts(content) + [OptionsText(newArgs)]
    ensures var r := UpdatedOptions(content, remove, newArgs);
      && |Lines(r)| == |Lines(content)| + 1
      && Lines(r)[|Lines(content)|].key == OPTIONS
      && OptionTokens(Lines(r)[|Lines(content)|].value) == ReadBack([], newArgs)
  {
    hide *;
    var x := OptionsText(newArgs);
    var start := content + (if content != "" && content[|content| - 1] != '\n' then "\n" else "");
    OptionsTextIs(newArgs);
    AppendedIs(content, remove, newArgs);
    if content != "" && content[|content| - 1] != '\n' {
      TextsEnded(content);
    } else {
      assert start == content;
    }
    TextsAppend(start, x);
    var r := UpdatedOptions(content, remove, newArgs);
    LinesAndTexts(content);
    LinesAndTexts(r);
    LineOf(r, |Lines(content)|);
    NothingKept();
    assert [] + newArgs == newArgs;
    OptionsReadBack("", [], newArgs);
    EditOfNothing(x);
  }

  lemma AppendedIs(content: string, remove: seq<string>, newArgs: seq<string>)
    requires NoOptions(Lines(content))
    ensures UpdatedOptions(content, remove, newArgs) ==
      content + (if content != "" && content[|content| - 1] != '\n' then "\n" else "") + (OptionsText(newArgs) + "\n")
  {
    hide Lines, NoOptions, OptionsText, Rewrite, OptionEdits, Texts;
  }

  lemma NothingKept()
    ensures AllQuoteFree([])
  {
  }

  lemma EditOfNothing(x: string)
    ensures EditText("", Some(x)) == x
  {
  }
}
