// The get-after-set law of /etc/default/grub.
module DefaultGrubUpdate {
  import opened FileScanning
  import opened GrubTokens
  import opened Wrappers
  import opened GrubTokenizing
  import opened GrubQuoting
  import opened GrubLocality
  import opened DefaultGrub
  import opened GrubAssignments
  import opened DefaultGrubLaw

  // ----------------------------------------------------------------- editing

  // The line a new assignment goes after, if any.
  function InsertAfter(assigns: seq<VarAssign>): Option<Line> {
    if |assigns| > 1 then Some(assigns[|assigns| - 1].line) else None
  }

  // The edited file.
  function Updated(content: string, name: string, value: string): Parsed<string> {
    match FindAssigns(content)
    case Err(e) => Err(e)
    case Ok(assigns) =>
      var k := FirstNamed(assigns, name);
      if k < |assigns| then
        AssignInside(content, assigns, k);
        Ok(Replaced(content, assigns[k], value))
      else
        InsertInside(content, assigns);
        Ok(Inserted(content, InsertAfter(assigns), name, value))
  }

  method UpdateDefaultGrubFileVariable(content: string, varName: string, newValue: string) returns (r: Parsed<string>)
    ensures r == Updated(content, varName, newValue)
  {
    var varAssigns := FindDefaultGrubFileVarAssigns(content);
    if varAssigns.Err? {
      return Err(varAssigns.error);
    }
    var found := false;
    var existing: Option<VarAssign> := None;
    var assigns := varAssigns.value;
    for i := 0 to |assigns|
      invariant !found && existing == None
      invariant forall j :: 0 <= j < i ==> assigns[j].name != varName
    {
      if assigns[i].name == varName {
        existing := Some(assigns[i]);
        found := true;
        FirstNamedIs(assigns, varName, i);
        AssignInside(content, assigns, i);
        break;
      }
    }
    if found {
      var replaced := ReplaceDefaultGrubFileVarAssign(content, existing.value, newValue);
      r := Ok(replaced);
    } else {
      FirstNamedIs(assigns, varName, |assigns|);
      InsertInside(content, assigns);
      var insertAfter: Option<Line> := None;
      if |assigns| > 1 {
        insertAfter := Some(assigns[|assigns| - 1].line);
      }
      var inserted := InsertDefaultGrubFileVarAssign(content, insertAfter, varName, newValue);
      r := Ok(inserted);
    }
  }

  lemma {:induction false} FirstNamedIs(assigns: seq<VarAssign>, name: string, k: nat)
    requires k <= |assigns| && forall j :: 0 <= j < k ==> assigns[j].name != name
    requires k < |assigns| ==> assigns[k].name == name
    ensures FirstNamed(assigns, name) == k
  {
    if k == 0 {
    } else {
      FirstNamedIs(assigns[1..], name, k - 1);
    }
  }

  // Offsets lie in the file, so that it can be cut there.
  lemma AssignInside(content: string, assigns: seq<VarAssign>, k: nat)
    requires FindAssigns(content) == Ok(assigns) && k < |assigns|
    ensures assigns[k].token.loc.start.index <= assigns[k].token.loc.end.index <= |content|
    ensures |assigns[k].line.tokens| > 0 && InsertAt(Some(assigns[k].line)) <= |content|
  {
    hide FindAssigns, Lex, Read, ReadOne, BareItems, BareItem, PairsOf, Extent;
    var m, sep := Locate(content, assigns, k);
  }

  lemma InsertInside(content: string, assigns: seq<VarAssign>)
    requires FindAssigns(content) == Ok(assigns)
    ensures var after := InsertAfter(assigns);
      (after.Some? ==> |after.value.tokens| > 0) && InsertAt(after) <= |content|
  {
    hide FindAssigns;
    if |assigns| > 1 {
      AssignInside(content, assigns, |assigns| - 1);
    }
  }

  // All text around what is replaced or inserted stays: a variable that is there
  // has the word that assigns it replaced, and a new one gets a line of its own.
  lemma TextStays(content: string, name: string, value: string) returns (before: string, word: string, after: string)
    requires FindAssigns(content).Ok?
    ensures content == before + word + after
    ensures var assigns := FindAssigns(content).value;
      var k := FirstNamed(assigns, name);
      if k < |assigns| then
        && |before| == assigns[k].token.loc.start.index && |before + word| == assigns[k].token.loc.end.index
        && Updated(content, name, value) == Ok(before + (name + "=" + "\"" + Escape(value) + "\"") + after)
      else
        && word == "" && (|assigns| < 2 ==> before == "")
        && (|| Updated(content, name, value) == Ok(before + (name + "=" + "\"" + Escape(value) + "\"\n") + after)
            || Updated(content, name, value) == Ok(before + ("\n" + (name + "=" + "\"" + Escape(value) + "\"\n")) + after))
  {
    hide FindAssigns, Escape;
    var assigns := FindAssigns(content).value;
    var k := FirstNamed(assigns, name);
    assert AssignText(name, value) == name + "=" + ("\"" + Escape(value) + "\"");
    Assoc(name + "=", "\"" + Escape(value), "\"");
    Assoc(name + "=", "\"", Escape(value));
    if k < |assigns| {
      AssignInside(content, assigns, k);
      var start, end := assigns[k].token.loc.start.index, assigns[k].token.loc.end.index;
      before, word, after := content[..start], content[start..end], content[end..];
    } else {
      InsertInside(content, assigns);
      var at := InsertAt(InsertAfter(assigns));
      before, word, after := content[..at], "", content[at..];
      AroundText(before, name + "=", Escape(value), after);
    }
  }

  lemma AroundText(before: string, key: string, x: string, after: string)
    ensures before + "" + (key + ("\"" + x + "\"")) + "\n" + after == before + (key + "\"" + x + "\"\n") + after
    ensures before + "\n" + (key + ("\"" + x + "\"")) + "\n" + after == before + ("\n" + (key + "\"" + x + "\"\n")) + after
  {
  }

  // ------------------------------------------------------ reading it back

  // What setting a variable ought to do to the assignments of a file.
  function SetPair(pairs: seq<Pair>, name: string, value: string): seq<Pair> {
    var k := FirstPair(pairs, name);
    if k < |pairs| then pairs[k := (name, value)]
    else if |pairs| > 1 then pairs + [(name, value)]
    else [(name, value)] + pairs
  }

  // The index of the first pair with that name, or the number of pairs.
  function FirstPair(pairs: seq<Pair>, name: string): (k: nat)
    ensures k <= |pairs|
    ensures forall j :: 0 <= j < k ==> pairs[j].0 != name
    ensures k < |pairs| ==> pairs[k].0 == name
  {
    if pairs == [] || pairs[0].0 == name then 0 else 1 + FirstPair(pairs[1..], name)
  }

  lemma BareOne(item: Item)
    ensures BareItems([item]) == if item.Lexeme? then [BareItem(item)] else []
  {
    assert [item][1..] == [];
  }

  // A word alone on its line, between whole lines.
  lemma ReadThree(a: seq<Item>, w: Item, c: seq<Item>)
    requires w.Lexeme? && w.kind == WORD && AtLineStart(BareItems(a)) && AtLineEnd(BareItems(c))
    ensures Read(BareItems(a + ([w] + c))) == Both(Read(BareItems(a)), Both(ReadOne([BareItem(w)]), Read(BareItems(c))))
  {
    hide Read, ReadOne, BareItems, Both, AtLineStart, AtLineEnd;
    BareItemsAppend(a, [w] + c);
    BareItemsAppend([w], c);
    BareOne(w);
    ReadAppend(BareItems(a), BareItems([w] + c));
    ReadAlone(BareItem(w), BareItems(c));
  }

  // Cutting the word of an assignment out of a file and putting another
  // assignment in its place.
  lemma ReplacedItems(content: string, assigns: seq<VarAssign>, k: nat, m: nat, sep: Option<nat>, name: string, value: string)
    requires Lex(content).fault.None? && k < |assigns| && IsAt(content, assigns, k, m, sep)
    requires IsPlainName(name)
    ensures m < |Lex(content).items| && Lex(content).items[m].Lexeme?
    ensures var items := Lex(content).items;
      var i := Extent(items[..m]); var e := i + items[m].len;
      && e <= |content|
      && Lex(content[..i] + AssignText(name, value) + content[e..])
        == Lexed(items[..m] + ([AssignItem(name, value)] + items[m + 1..]), None)
  {
    hide *;
    AssignWord(content, assigns, k, m, sep);
    var items := Lex(content).items;
    ReadsAt(content, assigns, k, m, sep);
    NotSettled(items[m]);
    BeforeWord(content, m);
    LexSplit(content, m);
    var i := Extent(items[..m]);
    var e := i + items[m].len;
    LexAssign(name, value, content[e..]);
    LexAppend(content[..i], AssignText(name, value) + content[e..]);
    Assoc(content[..i], AssignText(name, value), content[e..]);
    NoFault(|content[..i]|);
  }

  lemma NotSettled(item: Item)
    requires item.Lexeme? && item.kind == WORD
    ensures !IsSettled(item)
  {
  }

  lemma NoFault(n: nat)
    ensures Later(None, n) == None
  {
  }

  lemma ReplaceLaw(content: string, assigns: seq<VarAssign>, k: nat, value: string)
    requires FindAssigns(content) == Ok(assigns) && k < |assigns|
    ensures assigns[k].token.loc.start.index <= assigns[k].token.loc.end.index <= |content|
    ensures Assignments(Replaced(content, assigns[k], value)) == Ok(PairsOf(assigns)[k := (assigns[k].name, value)])
  {
    hide *;
    AssignInside(content, assigns, k);
    var m, sep := Locate(content, assigns, k);
    var items := Lex(content).items;
    var name := assigns[k].name;
    AssignWord(content, assigns, k, m, sep);
    AtFacts(content, assigns, k, m, sep);
    ReplacedItems(content, assigns, k, m, sep, name, value);
    ReplacedIs(content, assigns[k], value);
    var w := AssignItem(name, value);
    AssignmentsAreRead(Replaced(content, assigns[k], value));
    AssignItemIs(name, value);
    ReadThree(items[..m], w, items[m + 1..]);
    AssignReads(name, value);
    BothThree(PairsOf(assigns[..k]), (name, value), PairsOf(assigns[k + 1..]));
    PairsAround(assigns, k, (name, value));
  }

  lemma AtFacts(content: string, assigns: seq<VarAssign>, k: nat, m: nat, sep: Option<nat>)
    requires k < |assigns| && IsAt(content, assigns, k, m, sep)
    ensures m < |Lex(content).items| && Lex(content).items[m].Lexeme?
    ensures assigns[k].token.loc.start.index == Extent(Lex(content).items[..m])
    ensures assigns[k].token.loc.end.index == Extent(Lex(content).items[..m]) + Lex(content).items[m].len
    ensures AtLineStart(BareItems(Lex(content).items[..m])) && AtLineEnd(BareItems(Lex(content).items[m + 1..]))
    ensures Read(BareItems(Lex(content).items[..m])) == Ok(PairsOf(assigns[..k]))
    ensures Read(BareItems(Lex(content).items[m + 1..])) == Ok(PairsOf(assigns[k + 1..]))
  {
    hide Lex, Read, ReadOne, BareItems, BareItem, PairsOf, Extent, EndsLineAt;
  }

  lemma ReplacedIs(content: string, v: VarAssign, value: string)
    requires v.token.loc.start.index <= v.token.loc.end.index <= |content|
    ensures Replaced(content, v, value) ==
      content[..v.token.loc.start.index] + AssignText(v.name, value) + content[v.token.loc.end.index..]
  {
  }

  lemma AssignItemIs(name: string, value: string)
    ensures AssignItem(name, value).Lexeme? && AssignItem(name, value).kind == WORD
  {
  }

  lemma BothThree(a: seq<Pair>, p: Pair, c: seq<Pair>)
    ensures Both(Ok(a), Both(Ok([p]), Ok(c))) == Ok(a + [p] + c)
  {
    assert a + ([p] + c) == a + [p] + c;
  }

  lemma PairsAround(assigns: seq<VarAssign>, k: nat, p: Pair)
    requires k < |assigns|
    ensures PairsOf(assigns[..k]) + [p] + PairsOf(assigns[k + 1..]) == PairsOf(assigns)[k := p]
  {
  }

  // --------------------------------------------------------- new lines

  const NL: Item := Lexeme(NEWLINE, 1, [])

  lemma NewlineItem()
    ensures NL == Lexeme(NEWLINE, 1, [])
  {
  }

  // A line that assigns, and the file after it.
  lemma NewLineItems(name: string, value: string, rest: string)
    requires IsPlainName(name) && Lex(rest).fault.None?
    ensures Lex(AssignText(name, value) + ("\n" + rest)) == Lexed([AssignItem(name, value)] + ([NL] + Lex(rest).items), None)
  {
    hide Lex, AssignText, IsPlainName;
    LexNewline(rest);
    assert IsBreak(("\n" + rest)[0]);
    LexAssign(name, value, "\n" + rest);
  }

  // It reads as its assignment and those of the file after it.
  lemma NewLineReads(a: seq<Item>, name: string, value: string, rest: seq<Item>)
    requires IsPlainName(name) && AtLineStart(BareItems(a))
    ensures Read(BareItems(a + ([AssignItem(name, value)] + ([NL] + rest)))) ==
      Both(Read(BareItems(a)), Both(Ok([(name, value)]), Read(BareItems(rest))))
  {
    hide *;
    AssignItemIs(name, value);
    NewlineBare(rest);
    ReadThree(a, AssignItem(name, value), [NL] + rest);
    AssignReads(name, value);
  }

  lemma NewlineBare(rest: seq<Item>)
    ensures AtLineEnd(BareItems([NL] + rest)) && Read(BareItems([NL] + rest)) == Read(BareItems(rest))
  {
    hide Read;
    BareItemsAppend([NL], rest);
    BareOne(NL);
    ReadBlankLine(BareItem(NL), BareItems(rest));
  }

  lemma NoItems()
    ensures Read(BareItems([])) == Ok([]) && AtLineStart(BareItems([]))
  {
    ReadNothing();
  }

  // Inserted at the front of the file.
  lemma FrontLaw(content: string, assigns: seq<VarAssign>, name: string, value: string)
    requires FindAssigns(content) == Ok(assigns) && IsPlainName(name)
    ensures Assignments(Inserted(content, None, name, value)) == Ok([(name, value)] + PairsOf(assigns))
  {
    hide *;
    FindLexes(content, assigns);
    InsertedFront(content, name, value);
    var items := Lex(content).items;
    NewLineItems(name, value, content);
    AssignmentsAreRead(Inserted(content, None, name, value));
    NoItems();
    NewLineReads([], name, value, items);
    assert [] + ([AssignItem(name, value)] + ([NL] + items)) == [AssignItem(name, value)] + ([NL] + items);
    BothThree([], (name, value), PairsOf(assigns));
    assert [] + [(name, value)] + PairsOf(assigns) == [(name, value)] + PairsOf(assigns);
  }

  lemma FindLexes(content: string, assigns: seq<VarAssign>)
    requires FindAssigns(content) == Ok(assigns)
    ensures Lex(content).fault.None? && Read(BareItems(Lex(content).items)) == Ok(PairsOf(assigns))
  {
    hide Lex, AssignsOf, LinesOf, Read;
    FaultInside(content);
    AssignmentsAreRead(content);
  }

  lemma InsertedFront(content: string, name: string, value: string)
    ensures InsertAt(None) == 0
    ensures Inserted(content, None, name, value) == AssignText(name, value) + ("\n" + content)
  {
    hide AssignText;
    assert content[..0] + "" + AssignText(name, value) + "\n" + content[0..] == AssignText(name, value) + ("\n" + content);
  }

  // Inserted after the newline or semicolon that ends the line of an assignment.
  lemma AfterEndLaw(content: string, assigns: seq<VarAssign>, k: nat, name: string, value: string)
    requires FindAssigns(content) == Ok(assigns) && k < |assigns| && IsPlainName(name)
    requires assigns[k].line.endToken.Some?
    ensures |assigns[k].line.tokens| > 0 && InsertAt(Some(assigns[k].line)) <= |content|
    ensures Assignments(Inserted(content, Some(assigns[k].line), name, value)) ==
      Ok(PairsOf(assigns[..k + 1]) + [(name, value)] + PairsOf(assigns[k + 1..]))
  {
    hide *;
    AssignInside(content, assigns, k);
    var m, sep := Locate(content, assigns, k);
    AtFacts(content, assigns, k, m, sep);
    ReadsAt(content, assigns, k, m, sep);
    EndFacts(content, assigns, k, m, sep);
    var items := Lex(content).items;
    var at := sep.value + 1;
    InsertedAfterEnd(content, assigns[k].line, name, value);
    SeparatorSettled(content, sep.value);
    LexSplit(content, at);
    var i := Extent(items[..at]);
    ExtentNext(items, sep.value);
    var nl := if items[sep.value].kind == SEMICOLON then [NL] else [];
    EndedItems(content[..i], items[sep.value].kind == SEMICOLON, name, value, content[i..]);
    var new' := Inserted(content, Some(assigns[k].line), name, value);
    AssignmentsAreRead(new');
    EndedReads(items, m, sep.value, nl);
    NewLineReads(items[..at] + nl, name, value, items[at..]);
    PairsNext(assigns, k);
    BothThree(PairsOf(assigns[..k + 1]), (name, value), PairsOf(assigns[k + 1..]));
  }

  lemma PairsNext(assigns: seq<VarAssign>, k: nat)
    requires k < |assigns|
    ensures Both(Ok(PairsOf(assigns[..k])), Ok([(assigns[k].name, assigns[k].value)])) == Ok(PairsOf(assigns[..k + 1]))
  {
    assert PairsOf(assigns[..k]) + [(assigns[k].name, assigns[k].value)] == PairsOf(assigns[..k + 1]);
  }

  lemma EndFacts(content: string, assigns: seq<VarAssign>, k: nat, m: nat, sep: Option<nat>)
    requires k < |assigns| && IsAt(content, assigns, k, m, sep) && assigns[k].line.endToken.Some?
    ensures sep.Some? && m < sep.value < |Lex(content).items|
    ensures Lex(content).items[sep.value].Lexeme? && EndsLine(Lex(content).items[sep.value].kind)
    ensures assigns[k].line.endToken.value.kind == Lex(content).items[sep.value].kind
    ensures assigns[k].line.endToken.value.loc.end.index == Extent(Lex(content).items[..sep.value]) + 1
    ensures assigns[k].line.endToken.value.loc.end.index <= |content|
    ensures BareItems(Lex(content).items[m + 1..sep.value]) == []
  {
    hide Lex, Read, ReadOne, BareItems, BareItem, PairsOf, Extent;
  }

  lemma InsertedAfterEnd(content: string, line: Line, name: string, value: string)
    requires |line.tokens| > 0 && line.endToken.Some? && line.endToken.value.loc.end.index <= |content|
    ensures var i := line.endToken.value.loc.end.index;
      Inserted(content, Some(line), name, value) ==
        content[..i] + ((if line.endToken.value.kind == SEMICOLON then "\n" else "") + (AssignText(name, value) + ("\n" + content[i..])))
  {
    hide AssignText;
  }

  lemma SeparatorSettled(content: string, sep: nat)
    requires Lex(content).fault.None? && sep < |Lex(content).items|
    requires Lex(content).items[sep].Lexeme? && EndsLine(Lex(content).items[sep].kind)
    ensures Settled(Lex(content).items[..sep + 1]) && ItemLen(Lex(content).items[sep]) == 1
  {
    hide Lex;
    SeparatorLen(content, sep);
  }

  lemma ExtentNext(items: seq<Item>, k: nat)
    requires k < |items|
    ensures Extent(items[..k + 1]) == Extent(items[..k]) + ItemLen(items[k])
  {
    hide ItemLen, Extent;
    assert items[..k + 1] == items[..k] + [items[k]];
    SpanAppend(items[..k], [items[k]]);
    ExtentCons(items[k], []);
  }

  // A new line, preceded by a line break if need be, after a settled text.
  lemma EndedItems(p: string, broken: bool, name: string, value: string, rest: string)
    requires Lex(p).fault.None? && Settled(Lex(p).items) && Lex(rest).fault.None? && IsPlainName(name)
    ensures Lex(p + ((if broken then "\n" else "") + (AssignText(name, value) + ("\n" + rest)))) ==
      Lexed(Lex(p).items + (if broken then [NL] else []) + ([AssignItem(name, value)] + ([NL] + Lex(rest).items)), None)
  {
    hide *;
    NewLineItems(name, value, rest);
    var t := AssignText(name, value) + ("\n" + rest);
    var added := [AssignItem(name, value)] + ([NL] + Lex(rest).items);
    NoFault(|p|);
    assert NL == Lexeme(NEWLINE, 1, []) by { NewlineItem(); }
    if broken {
      LexNewline(t);
      LexAppend(p, "\n" + t);
      assert Lex(p).items + ([NL] + added) == Lex(p).items + [NL] + added;
    } else {
      assert "" + t == t;
      LexAppend(p, t);
      assert Lex(p).items + [] == Lex(p).items;
    }
  }

  // What the items up to the end of the line of an assignment read as.
  lemma EndedReads(items: seq<Item>, m: nat, sep: nat, nl: seq<Item>)
    requires m < sep < |items| && items[m].Lexeme? && items[m].kind == WORD
    requires items[sep].Lexeme? && EndsLine(items[sep].kind) && BareItems(items[m + 1..sep]) == []
    requires AtLineStart(BareItems(items[..m])) && (nl == [] || nl == [NL])
    ensures AtLineStart(BareItems(items[..sep + 1] + nl))
    ensures Read(BareItems(items[..sep + 1] + nl)) == Both(Read(BareItems(items[..m])), ReadOne([BareItem(items[m])]))
    ensures Read(BareItems(items[m + 1..])) == Read(BareItems(items[sep + 1..]))
  {
    hide Read, ReadOne, Both, BareItems;
    var e := items[sep];
    var b := BareItem(e);
    assert items[m + 1..] == items[m + 1..sep] + ([e] + items[sep + 1..]);
    BareItemsAppend(items[m + 1..sep], [e] + items[sep + 1..]);
    BareItemsAppend([e], items[sep + 1..]);
    BareOne(e);
    assert [] + ([b] + BareItems(items[sep + 1..])) == [b] + BareItems(items[sep + 1..]);
    ReadBlankLine(b, BareItems(items[sep + 1..]));
    EndedReadsFront(items, m, sep, nl);
  }

  lemma EndedReadsFront(items: seq<Item>, m: nat, sep: nat, nl: seq<Item>)
    requires m < sep < |items| && items[m].Lexeme? && items[m].kind == WORD
    requires items[sep].Lexeme? && EndsLine(items[sep].kind) && BareItems(items[m + 1..sep]) == []
    requires AtLineStart(BareItems(items[..m])) && (nl == [] || nl == [NL])
    ensures AtLineStart(BareItems(items[..sep + 1] + nl))
    ensures Read(BareItems(items[..sep + 1] + nl)) == Both(Read(BareItems(items[..m])), ReadOne([BareItem(items[m])]))
  {
    hide Read, ReadOne, Both, BareItems;
    var e := items[sep];
    var b := BareItem(e);
    var tail := items[m + 1..sep] + ([e] + nl);
    assert items[..sep + 1] + nl == items[..m] + ([items[m]] + tail);
    BareItemsAppend(items[m + 1..sep], [e] + nl);
    BareItemsAppend([e], nl);
    BareOne(e);
    BareOne(NL);
    BareNone();
    var rest := BareItems(nl);
    assert BareItems(tail) == [b] + rest;
    ReadThree(items[..m], items[m], tail);
    ReadBlankLine(b, rest);
    assert rest == if nl == [] then [] else [BareItem(NL)];
    ReadNothing();
    if nl == [NL] {
      ReadBlankLine(BareItem(NL), []);
      assert [BareItem(NL)] + [] == [BareItem(NL)];
    }
    BothNothing(ReadOne([BareItem(items[m])]));
    BareItemsAppend(items[..m], [items[m]] + tail);
    BareItemsAppend([items[m]], tail);
  }

  lemma BareNone()
    ensures BareItems([]) == []
  {
  }

  // --------------------------------------------- at the end of the file

  // The file with a new line behind the word that ends at e, which begins at i.
  lemma InsertedAtEof(content: string, line: Line, i: nat, name: string, value: string)
    requires |line.tokens| > 0 && line.endToken.None?
    requires i <= InsertAt(Some(line)) <= |content|
    ensures var e := InsertAt(Some(line));
      Inserted(content, Some(line), name, value) ==
        content[..i] + (content[i..e] + ("\n" + (AssignText(name, value) + ("\n" + content[e..]))))
  {
    hide AssignText;
    var e := InsertAt(Some(line));
    assert content[..i] + content[i..e] == content[..e];
  }

  lemma OddTailOfWord(content: string, i: nat)
    requires i < |content| && IsPlain(content[i])
    ensures OddTail(content[i..]) == OddTail(content)
  {
    if i > 0 {
      OddTailSuffix(content, i);
    }
    assert content[0..] == content;
  }

  // A word that ends before a line break is not changed by it, unless the word
  // ends the file with a backslash that would escape the line break.
  lemma WordBeforeNewline(t: string, n: nat, rest: string)
    requires Word(t, false).fault.None? && Word(t, false).n == n <= |t|
    requires n < |t| || !OddTail(t)
    ensures Word(t[..n] + ("\n" + rest), false) == Word(t, false)
  {
    hide Word, OddTail;
    WordAgain(t, t[..n] + ("\n" + rest), false);
  }

  lemma LexWord(w: string, rest: string, item: Item)
    requires w != "" && !IsBreak(w[0]) && w[0] != '#'
    requires item.Lexeme? && item.kind == WORD && item.len == |w|
    requires Word(w + rest, false) == Scan(item.len, item.pieces, None) && Lex(rest).fault.None?
    ensures Lex(w + rest) == Lexed([item] + Lex(rest).items, None)
  {
    hide Lex, Word, CommentLen;
    LexIs(w + rest);
    assert (w + rest)[|w|..] == rest;
  }

  lemma PlainStarts(c: char)
    requires IsPlain(c)
    ensures !IsBreak(c)
  {
  }

  // Inserted behind an assignment that no newline or semicolon ends.
  lemma AtEofLaw(content: string, assigns: seq<VarAssign>, k: nat, name: string, value: string)
    requires FindAssigns(content) == Ok(assigns) && k < |assigns| && IsPlainName(name)
    requires assigns[k].line.endToken.None?
    ensures |assigns[k].line.tokens| > 0 && InsertAt(Some(assigns[k].line)) <= |content|
    ensures InsertAt(Some(assigns[k].line)) < |content| || !OddTail(content) ==>
      Assignments(Inserted(content, Some(assigns[k].line), name, value)) ==
        Ok(PairsOf(assigns[..k + 1]) + [(name, value)] + PairsOf(assigns[k + 1..]))
  {
    hide *;
    AssignInside(content, assigns, k);
    var m, sep := Locate(content, assigns, k);
    AtFacts(content, assigns, k, m, sep);
    ReadsAt(content, assigns, k, m, sep);
    EofFacts(content, assigns, k, m, sep);
    AssignWord(content, assigns, k, m, sep);
    var line := assigns[k].line;
    var items := Lex(content).items;
    var i := Extent(items[..m]);
    var e := InsertAt(Some(line));
    if e < |content| || !OddTail(content) {
      OddTailOfWord(content, i);
      NotSettled(items[m]);
      BeforeWord(content, m);
      LexSplit(content, m);
      InsertedAtEof(content, line, i, name, value);
      var x := AssignText(name, value) + ("\n" + content[e..]);
      assert content[i..][..e - i] == content[i..e];
      WordBeforeNewline(content[i..], e - i, x);
      EofItems(content[..i], content[i..e], items[m], name, value, content[e..]);
      AssignmentsAreRead(Inserted(content, Some(line), name, value));
      EofReads(items, m, name, value);
      BothFour(PairsOf(assigns[..k]), (assigns[k].name, assigns[k].value), (name, value), PairsOf(assigns[k + 1..]));
      PairsNext(assigns, k);
      PairsFront(assigns, k);
    }
  }

  lemma PairsFront(assigns: seq<VarAssign>, k: nat)
    requires k < |assigns|
    ensures PairsOf(assigns[..k]) + [(assigns[k].name, assigns[k].value)] == PairsOf(assigns[..k + 1])
  {
  }

  lemma BothFour(a: seq<Pair>, p: Pair, q: Pair, c: seq<Pair>)
    ensures Both(Ok(a), Both(Ok([p]), Both(Ok([]), Both(Ok([q]), Ok(c))))) == Ok(a + [p] + [q] + c)
  {
    assert [] + ([q] + c) == [q] + c;
    assert a + ([p] + ([q] + c)) == a + [p] + [q] + c;
  }

  lemma EofFacts(content: string, assigns: seq<VarAssign>, k: nat, m: nat, sep: Option<nat>)
    requires k < |assigns| && IsAt(content, assigns, k, m, sep) && assigns[k].line.endToken.None?
    ensures m < |Lex(content).items| && Lex(content).items[m].Lexeme?
    ensures |assigns[k].line.tokens| > 0
    ensures InsertAt(Some(assigns[k].line)) == Extent(Lex(content).items[..m]) + Lex(content).items[m].len
    ensures BareItems(Lex(content).items[m + 1..]) == []
  {
    hide Lex, Read, ReadOne, BareItems, BareItem, PairsOf, Extent;
  }

  lemma EofItems(p: string, w: string, item: Item, name: string, value: string, rest: string)
    requires Lex(p).fault.None? && Settled(Lex(p).items) && Lex(rest).fault.None? && IsPlainName(name)
    requires w != "" && IsPlain(w[0]) && w[0] != '#'
    requires item.Lexeme? && item.kind == WORD && item.len == |w|
    requires Word(w + ("\n" + (AssignText(name, value) + ("\n" + rest))), false) == Scan(item.len, item.pieces, None)
    ensures Lex(p + (w + ("\n" + (AssignText(name, value) + ("\n" + rest))))) ==
      Lexed(Lex(p).items + ([item] + ([NL] + ([AssignItem(name, value)] + ([NL] + Lex(rest).items)))), None)
  {
    hide *;
    NewlineItem();
    NewLineItems(name, value, rest);
    var t := AssignText(name, value) + ("\n" + rest);
    LexNewline(t);
    PlainStarts(w[0]);
    LexWord(w, "\n" + t, item);
    LexAppend(p, w + ("\n" + t));
    NoFault(|p|);
  }

  lemma EofReads(items: seq<Item>, m: nat, name: string, value: string)
    requires m < |items| && items[m].Lexeme? && items[m].kind == WORD && IsPlainName(name)
    requires AtLineStart(BareItems(items[..m]))
    ensures Read(BareItems(items[..m] + ([items[m]] + ([NL] + ([AssignItem(name, value)] + ([NL] + items[m + 1..])))))) ==
      Both(Read(BareItems(items[..m])), Both(ReadOne([BareItem(items[m])]),
        Both(Ok([]), Both(Ok([(name, value)]), Read(BareItems(items[m + 1..]))))))
  {
    hide *;
    var y := [AssignItem(name, value)] + ([NL] + items[m + 1..]);
    NewlineBare(y);
    ReadThree(items[..m], items[m], [NL] + y);
    NoItems();
    NewLineReads([], name, value, items[m + 1..]);
    assert [] + y == y;
  }

  // ---------------------------------------------------- a dangling backslash

  lemma {:induction false} PlainLength(p: string, rest: string, seen: nat, sb: string)
    requires forall k :: 0 <= k < |p| ==> IsPlain(p[k])
    requires rest != "" && IsStop(rest[0])
    ensures Unquoted(p + rest, seen, sb, true).n == |p|
  {
    hide IsStop;
    if p == "" {
      assert p + rest == rest;
    } else {
      assert (p + rest)[1..] == p[1..] + rest;
      PlainLength(p[1..], rest, seen + 1, sb + [p[0]]);
    }
  }

  // A string that ends in a dangling backslash goes on over a line break.
  lemma {:induction false} UnquotedDangles(t: string, u: string, p: string, rest: string, seen: nat, sb: string, notFirst: bool)
    requires Unquoted(t, seen, sb, notFirst).n == |t| && OddTail(t)
    requires forall k :: 0 <= k < |p| ==> IsPlain(p[k])
    requires rest != "" && IsStop(rest[0]) && |u| > 0 && u[0] == '\n' && u[1..] == p + rest
    ensures Unquoted(t + u, seen, sb, notFirst).n == |t| + 1 + |p|
    decreases |t|, !notFirst
  {
    hide IsStop, OddTail, IsPlain;
    OddTailEmpty();
    if t == "" || IsStop(t[0]) {
    } else if t[0] == '\\' && !notFirst {
      UnquotedDangles(t, u, p, rest, 0, "", true);
    } else if t[0] == '\\' && |t| == 1 {
      EscapedBreak(t, u, p, rest, seen, sb);
    } else if t[0] == '\\' {
      OddTailPair(t);
      assert (t + u)[2..] == t[2..] + u;
      UnquotedDangles(t[2..], u, p, rest, seen + 2, if t[1] == '\n' then sb else sb + [t[1]], true);
    } else {
      OddTailStep(t);
      assert (t + u)[1..] == t[1..] + u;
      UnquotedDangles(t[1..], u, p, rest, seen + 1, sb + [t[0]], notFirst);
    }
  }

  lemma EscapedBreak(t: string, u: string, p: string, rest: string, seen: nat, sb: string)
    requires |t| == 1 && t[0] == '\\' && !IsStop(t[0])
    requires forall k :: 0 <= k < |p| ==> IsPlain(p[k])
    requires rest != "" && IsStop(rest[0]) && |u| > 0 && u[0] == '\n' && u[1..] == p + rest
    ensures Unquoted(t + u, seen, sb, true).n == 2 + |p|
  {
    hide IsStop, IsPlain;
    assert (t + u)[2..] == p + rest;
    PlainLength(p, rest, seen + 2, sb);
  }

  lemma ExpansionEnd(t: string, kind: SubWordType)
    requires t != "" && t[0] == '$' && Expansion(t, kind).fault.None?
    ensures t[Expansion(t, kind).n - 1] != '\\'
  {
    hide NameLen;
    var open := if |t| > 1 && t[1] == '{' then 2 else 1;
    var m := NameLen(t[open..]);
    assert m > 0 ==> IsNameChar(t[open..][m - 1]);
  }

  lemma LastPart(w: string, notFirst: bool)
    requires w != "" && !IsBreak(w[0]) && Part(w, notFirst).fault.None?
    requires Part(w, notFirst).n == |w| && OddTail(w)
    ensures w[0] != '"' && w[0] != '\'' && w[0] != '$'
  {
    hide DoubleQuoted, SingleQuoted, Expansion, Unquoted, IsBreak;
    if w[0] == '"' {
      DoubleQuotedEnd(w[1..], 1, "");
    } else if w[0] == '\'' {
      SingleQuotedEnd(w[1..], 1, "");
    } else if w[0] == '$' {
      ExpansionEnd(w, VAR_EXPANSION);
    }
  }

  // A word that ends in a dangling backslash swallows the assignment after it.
  lemma {:induction false} WordDangles(w: string, name: string, value: string, notFirst: bool)
    requires Word(w, notFirst).fault.None? && Word(w, notFirst).n == |w| && OddTail(w) && IsPlainName(name)
    ensures var r := Word(w + ("\n" + (AssignText(name, value) + "\n")), notFirst);
      r.fault.None? && r.n == |w| + 1 + |AssignText(name, value)|
    decreases |w|
  {
    hide *;
    var x := AssignText(name, value);
    var t := w + ("\n" + (x + "\n"));
    OddTailEmpty();
    assert t[0] == w[0] && |t| == |w| + 2 + |x|;
    WordGoes(w, notFirst);
    var n := Part(w, notFirst).n;
    if n == |w| {
      LastPart(w, notFirst);
      WordDanglesLast(w, name, value, notFirst);
    } else {
      PartIsUnchanged(w, t, notFirst);
      PartEnd(w, notFirst);
      OddTailSuffix(w, n);
      WordDangles(w[n..], name, value, true);
      assert t[n..] == w[n..] + ("\n" + (x + "\n"));
      WordGoes(t, notFirst);
    }
  }

  // A word is a part and the word after it.
  lemma WordGoes(t: string, notFirst: bool)
    requires t != ""
    ensures Word(t, notFirst).fault.None? && Word(t, notFirst).n > 0 ==> !IsBreak(t[0])
    ensures !IsBreak(t[0]) ==>
      var part, rest := Part(t, notFirst), Word(t[Part(t, notFirst).n..], true);
      && (Word(t, notFirst).fault.None? <==> part.fault.None? && rest.fault.None?)
      && (Word(t, notFirst).fault.None? ==> Word(t, notFirst).n == part.n + rest.n)
  {
    hide Part, IsBreak;
  }

  lemma PartIsUnchanged(w: string, t: string, notFirst: bool)
    requires w != "" && !IsBreak(w[0]) && Part(w, notFirst).fault.None? && Part(w, notFirst).n < |w|
    requires |w| <= |t| && forall k :: 0 <= k < |w| ==> t[k] == w[k]
    ensures t != "" && t[0] == w[0] && Part(t, notFirst) == Part(w, notFirst)
  {
    hide Part, OddTail, IsBreak;
    PartAgain(w, t, notFirst);
  }

  lemma WordDanglesLast(w: string, name: string, value: string, notFirst: bool)
    requires w != "" && !IsBreak(w[0]) && w[0] != '"' && w[0] != '\'' && w[0] != '$'
    requires Part(w, notFirst).n == |w| && OddTail(w) && IsPlainName(name)
    ensures var r := Word(w + ("\n" + (AssignText(name, value) + "\n")), notFirst);
      r.fault.None? && r.n == |w| + 1 + |AssignText(name, value)|
  {
    hide Unquoted, OddTail, IsBreak, IsPlainName, Escape, DoubleQuoted;
    var key := name + "=";
    var q := Quoted(value);
    var t := w + ("\n" + (AssignText(name, value) + "\n"));
    assert t == w + ("\n" + (key + (q + "\n"))) && t[0] == w[0];
    PlainKey(name);
    QuoteIsStop();
    assert (q + "\n")[0] == '"';
    UnquotedDangles(w, "\n" + (key + (q + "\n")), key, q + "\n", 0, "", notFirst);
    assert t[|w| + 1 + |key|..] == q + "\n";
    QuotedIsPart(value, "\n", true);
    assert (q + "\n")[|q|..] == "\n";
    assert IsBreak('\n') by { NewlineBreaks(); }
    assert Word("\n", true) == Scan(0, [], None);
    assert Word(q + "\n", true).n == |q|;
  }

  lemma NewlineBreaks()
    ensures IsBreak('\n')
  {
  }

  // Then the new line becomes part of the last word: the assignments before it
  // stay, and at most one follows.
  lemma DanglingLaw(content: string, assigns: seq<VarAssign>, k: nat, name: string, value: string)
    requires FindAssigns(content) == Ok(assigns) && k < |assigns| && IsPlainName(name)
    requires assigns[k].line.endToken.None?
    requires |assigns[k].line.tokens| > 0 && InsertAt(Some(assigns[k].line)) == |content| && OddTail(content)
    ensures var r := Assignments(Inserted(content, Some(assigns[k].line), name, value));
      r.Ok? ==> PairsOf(assigns[..k]) <= r.value && |r.value| <= k + 1
  {
    hide *;
    var m, sep := Locate(content, assigns, k);
    AtFacts(content, assigns, k, m, sep);
    ReadsAt(content, assigns, k, m, sep);
    EofFacts(content, assigns, k, m, sep);
    AssignWord(content, assigns, k, m, sep);
    var line := assigns[k].line;
    var items := Lex(content).items;
    var i := Extent(items[..m]);
    OddTailOfWord(content, i);
    NotSettled(items[m]);
    BeforeWord(content, m);
    LexSplit(content, m);
    InsertedAtEof(content, line, i, name, value);
    var w := content[i..];
    assert content[i..|content|] == w && content[|content|..] == "";
    WordDangles(w, name, value, false);
    var x := AssignText(name, value);
    assert "\n" + "" == "\n";
    var long := w + ("\n" + x);
    assert w + ("\n" + (x + "\n")) == long + "\n";
    var r := Word(long + "\n", false);
    var item := Lexeme(WORD, r.n, r.pieces);
    NewlineItem();
    LexNothing();
    LexNewline("");
    PlainStarts(w[0]);
    LexWord(long, "\n", item);
    LexAppend(content[..i], long + "\n");
    NoFault(|content[..i]|);
    AssignmentsAreRead(Inserted(content, Some(line), name, value));
    NewlineBare([]);
    assert [NL] + [] == [NL];
    ReadThree(items[..m], item, [NL]);
    NoItems();
    AtMostOne(PairsOf(assigns[..k]), [BareItem(item)]);
  }

  lemma AtMostOne(a: seq<Pair>, line: seq<Bare>)
    ensures var r := Both(Ok(a), Both(ReadOne(line), Ok([]))); r.Ok? ==> a <= r.value && |r.value| <= |a| + 1
  {
    hide ReadLine;
  }

  // ------------------------------------------------------------- the law

  // The new line would go behind a backslash that ends the file.
  predicate DanglesAtEof(content: string, assigns: seq<VarAssign>) {
    && |assigns| > 1
    && var line := assigns[|assigns| - 1].line;
    && line.endToken.None?
    && |line.tokens| > 0
    && InsertAt(Some(line)) == |content|
    && OddTail(content)
  }

  // Every name that is read from a file is plain.
  lemma NamesArePlain(content: string, assigns: seq<VarAssign>, k: nat)
    requires FindAssigns(content) == Ok(assigns) && k < |assigns|
    ensures IsPlainName(assigns[k].name)
  {
    hide *;
    var m, sep := Locate(content, assigns, k);
    AssignWord(content, assigns, k, m, sep);
  }

  lemma AssignmentNamesArePlain(content: string, p: Pair)
    requires Assignments(content).Ok? && p in Assignments(content).value
    ensures IsPlainName(p.0)
  {
    hide FindAssigns, IsPlainName;
    var assigns := FindAssigns(content).value;
    var k :| 0 <= k < |assigns| && PairsOf(assigns)[k] == p;
    NamesArePlain(content, assigns, k);
  }

  // Setting a variable and reading the file back gives exactly that variable
  // that value, and leaves every other assignment in place, if and only if the
  // variable was there already, or its name is plain and the new line does not
  // go behind a backslash that ends the file.
  lemma GetAfterSet(content: string, name: string, value: string)
    requires FindAssigns(content).Ok?
    ensures Updated(content, name, value).Ok?
    ensures var assigns := FindAssigns(content).value;
      Assignments(Updated(content, name, value).value) == Ok(SetPair(PairsOf(assigns), name, value))
      <==> FirstNamed(assigns, name) < |assigns| || (IsPlainName(name) && !DanglesAtEof(content, assigns))
  {
    hide FindAssigns, Assignments, Replaced, Inserted, InsertAt, IsPlainName, PairsOf, OddTail;
    var assigns := FindAssigns(content).value;
    var k := FirstNamed(assigns, name);
    FirstPairIs(assigns, name);
    if k < |assigns| {
      ReplaceLaw(content, assigns, k, value);
    } else {
      var r := Assignments(Updated(content, name, value).value);
      if r == Ok(SetPair(PairsOf(assigns), name, value)) {
        SetPairHas(PairsOf(assigns), name, value);
        AssignmentNamesArePlain(Updated(content, name, value).value, (name, value));
      }
      if IsPlainName(name) {
        InsertLaw(content, assigns, name, value);
      }
    }
  }

  lemma SetPairHas(pairs: seq<Pair>, name: string, value: string)
    ensures (name, value) in SetPair(pairs, name, value)
  {
    var k := FirstPair(pairs, name);
    var s := SetPair(pairs, name, value);
    assert s[if k < |pairs| then k else if |pairs| > 1 then |pairs| else 0] == (name, value);
  }

  lemma {:induction false} FirstPairIs(assigns: seq<VarAssign>, name: string)
    ensures FirstPair(PairsOf(assigns), name) == FirstNamed(assigns, name)
  {
    if assigns == [] {
    } else {
      FirstPairIs(assigns[1..], name);
      assert PairsOf(assigns)[1..] == PairsOf(assigns[1..]);
    }
  }

  lemma InsertLaw(content: string, assigns: seq<VarAssign>, name: string, value: string)
    requires FindAssigns(content) == Ok(assigns) && IsPlainName(name)
    requires FirstNamed(assigns, name) == |assigns| && FirstPair(PairsOf(assigns), name) == |assigns|
    requires Updated(content, name, value).Ok?
    ensures Assignments(Updated(content, name, value).value) == Ok(SetPair(PairsOf(assigns), name, value))
      <==> !DanglesAtEof(content, assigns)
  {
    hide FindAssigns, Assignments, Replaced, Inserted, InsertAt, IsPlainName, PairsOf, OddTail;
    if |assigns| <= 1 {
      FrontLaw(content, assigns, name, value);
    } else {
      var k := |assigns| - 1;
      AssignInside(content, assigns, k);
      assert assigns[..k + 1] == assigns && assigns[k + 1..] == [];
      var all := PairsOf(assigns);
      PairsNone();
      assert all + [(name, value)] + [] == all + [(name, value)];
      if assigns[k].line.endToken.Some? {
        AfterEndLaw(content, assigns, k, name, value);
      } else if DanglesAtEof(content, assigns) {
        DanglingLaw(content, assigns, k, name, value);
      } else {
        AtEofLaw(content, assigns, k, name, value);
      }
    }
  }

  lemma PairsNone()
    ensures PairsOf([]) == []
  {
  }

  // --------------------------------------------------- what a caller sees

  // The value a shell would see first under a name.
  function Lookup(pairs: seq<Pair>, name: string): Option<string> {
    var k := FirstPair(pairs, name);
    if k < |pairs| then Some(pairs[k].1) else None
  }

  lemma {:induction false} FirstPairUnique(pairs: seq<Pair>, name: string, k: nat)
    requires k <= |pairs| && forall j :: 0 <= j < k ==> pairs[j].0 != name
    requires k < |pairs| ==> pairs[k].0 == name
    ensures FirstPair(pairs, name) == k
  {
    if k == 0 {
    } else {
      FirstPairUnique(pairs[1..], name, k - 1);
    }
  }

  // The variable that was set has the new value, the others keep theirs.
  lemma LookupAfterSet(pairs: seq<Pair>, name: string, value: string, other: string)
    ensures Lookup(SetPair(pairs, name, value), name) == Some(value)
    ensures other != name ==> Lookup(SetPair(pairs, name, value), other) == Lookup(pairs, other)
  {
    var k := FirstPair(pairs, name);
    var s := SetPair(pairs, name, value);
    var shift := if k == |pairs| && |pairs| <= 1 then 1 else 0;
    FirstPairUnique(s, name, if k < |pairs| || |pairs| > 1 then k else 0);
    var j := FirstPair(pairs, other);
    if other != name {
      assert forall i :: 0 <= i < j ==> s[i + shift].0 == (if i == k then name else pairs[i].0);
      assert forall i :: shift <= i < j + shift ==> s[i].0 == (if i - shift == k then name else pairs[i - shift].0);
      FirstPairUnique(s, other, if j == |pairs| then |s| else j + shift);
    }
  }
}
