// Replacing one field of a Boot Loader Specification entry
// (toolkit/tools/pkg/imagecustomizerlib/blsutils.go:517-528).
module BlsField {
  import opened GrubTokens
  import opened Wrappers
  import opened BlsLines
  import opened BlsArgs
  import opened BlsNames
  import opened BlsReadBack
  import opened BlsUpdate
  import DefaultGrub
  import opened GrubQuoting
  import opened BlsLaws

  datatype Field = Field(key: string, value: string)

  function FieldOf(line: Line): Field {
    Field(line.key, line.value)
  }

  function FieldsOf(content: string): (r: seq<Field>)
    ensures |r| == |Lines(content)|
    ensures forall k :: 0 <= k < |r| ==> r[k] == FieldOf(Lines(content)[k])
  {
    seq(|Lines(content)|, k requires 0 <= k < |Lines(content)| => FieldOf(Lines(content)[k]))
  }

  // The first line with that key is line k.
  predicate IsFirst(content: string, key: string, k: nat) {
    k < |Lines(content)| && Lines(content)[k].key == key && forall j :: 0 <= j < k ==> Lines(content)[j].key != key
  }

  // One line gets a new content, all others are left alone.
  function Single(n: nat, k: nat, x: string): (edits: seq<Edit>)
    ensures |edits| == n
    ensures forall j :: 0 <= j < n ==> edits[j] == if j == k then Some(x) else None
  {
    seq(n, j => if j == k then Some(x) else None)
  }

  // The entry with that line replaced.
  function WithField(content: string, k: nat, key: string, value: string): string {
    LinesAndTexts(content);
    Rewrite(content, Single(|Lines(content)|, k, key + (" " + value)))
  }

  method SetBLSEntryField(content: string, key: string, newValue: string) returns (r: Option<string>)
    ensures r.None? <==> forall k :: 0 <= k < |Lines(content)| ==> Lines(content)[k].key != key
    ensures r.Some? ==> exists k :: IsFirst(content, key, k) && r.value == WithField(content, k, key, newValue)
  {
    hide Lines, WithField;
    var lines := ParseLines(content);
    for i := 0 to |lines|
      invariant forall j :: 0 <= j < i ==> lines[j].key != key
    {
      var line := lines[i];
      if line.key != key {
        continue;
      }
      SpliceSingle(content, i, key + (" " + newValue));
      WithFieldIs(content, i, key, newValue);
      assert content[..line.contentStart] + key + " " + newValue == content[..line.contentStart] + (key + (" " + newValue));
      assert IsFirst(content, key, i);
      return Some(content[..line.contentStart] + key + " " + newValue + content[line.contentEnd..]);
    }
    return None;
  }

  lemma WithFieldIs(content: string, k: nat, key: string, value: string)
    ensures |Lines(content)| == |Texts(content)|
    ensures WithField(content, k, key, value) == Rewrite(content, Single(|Lines(content)|, k, key + (" " + value)))
  {
    hide Lines, Texts, Rewrite, Single;
    LinesAndTexts(content);
  }

  lemma SpliceSingle(content: string, k: nat, x: string)
    requires k < |Lines(content)|
    ensures |Lines(content)| == |Texts(content)|
    ensures Lines(content)[k].contentStart <= Lines(content)[k].contentEnd <= |content|
    ensures content[..Lines(content)[k].contentStart] + x + content[Lines(content)[k].contentEnd..]
      == Rewrite(content, Single(|Lines(content)|, k, x))
  {
    hide *;
    LinesAndTexts(content);
    var n := |Lines(content)|;
    var edits := Single(n, k, x);
    PartialEnds(content, edits);
    PartialSkip(content, edits, k + 1, n);
    PartialStep(content, edits, k);
    SpliceIs(content, Lines(content)[k], x);
    PartialSkip(content, edits, 0, k);
  }

  // ------------------------------------------------------------ the law

  // A value that a line can have.
  predicate IsValue(value: string) {
    && NoNewline(value)
    && (value != "" ==> !IsBlank(value[0]) && !IsTrailing(value[|value| - 1]))
  }

  // What a line can be given: a key and a value, where an empty value needs a key
  // that does not end in a carriage return; a line without a key has no value.
  predicate CanSet(key: string, value: string) {
    && IsValue(value)
    && (key == "" ==> value == "")
    && (key != "" && value == "" ==> key[|key| - 1] != '\r')
  }

  lemma ValuesAreValues(t: string)
    requires NoNewline(t)
    ensures IsValue(ValueOf(Body(t)))
  {
    ValueNoNewline(t);
    BodyEnds(t);
    ValueEnds(Body(t));
  }

  lemma BodyEnds(t: string)
    ensures Body(t) != "" ==> !IsTrailing(Body(t)[|Body(t)| - 1])
  {
    hide LeadLen, IsTrailing;
  }

  lemma ValueEnds(body: string)
    requires body != "" ==> !IsTrailing(body[|body| - 1])
    ensures var v := ValueOf(body); v != "" ==> !IsBlank(v[0]) && !IsTrailing(v[|v| - 1])
  {
    hide IsTrailing, IsBlank;
  }

  // The keys that lines have.
  lemma KeysAreKeys(t: string)
    requires NoNewline(t) && KeyOf(Body(t)) != ""
    ensures IsKey(KeyOf(Body(t))) && NoNewline(KeyOf(Body(t)))
  {
    ValueNoNewline(t);
    KeyIsKey(Body(t));
  }

  lemma KeyIsKey(body: string)
    requires KeyOf(body) != ""
    ensures IsKey(KeyOf(body))
  {
    hide IsBlank;
  }

  // What a line reads as once its field has been replaced.
  lemma FieldReadBack(key: string, value: string)
    requires key != "" && IsKey(key) && IsValue(value)
    ensures var y := Stripped(key + (" " + value));
      KeyOf(y) == key && ValueOf(y) == value <==> CanSet(key, value)
    ensures CanSet(key, value) ==> TrimEnd(key + (" " + value)) > 0
  {
    hide *;
    if value == "" {
      EmptyReadBack(key);
    } else {
      ValueReadBack(key, value);
    }
    CanSetIs(key, value);
  }

  lemma CanSetIs(key: string, value: string)
    requires key != "" && IsKey(key) && IsValue(value)
    ensures (CanSet(key, value) <==> (value == "" ==> key[|key| - 1] != '\r'))
  {
  }

  lemma ValueReadBack(key: string, value: string)
    requires IsKey(key) && IsValue(value) && value != ""
    ensures var x := key + (" " + value);
      Stripped(x) == x && KeyOf(x) == key && ValueOf(x) == value && TrimEnd(x) > 0
  {
    assert key != "" && key[0] != '#';
    assert !IsBlank(value[0]) && !IsTrailing(value[|value| - 1]);
    var x := key + (" " + value);
    assert x[|x| - 1] == value[|value| - 1];
    assert IsBlank(x[|key|]);
    hide IsKey, IsBlank, IsTrailing, WordLen, LeadLen, TrimEnd;
    TrimEndIs(x, |x|);
    KeyIs(x, key);
    assert x[|key|..] == " " + value;
    AfterOneBlank(value);
    assert (" " + value)[1..] == value;
  }

  lemma AfterOneBlank(value: string)
    requires value == "" || !IsBlank(value[0])
    ensures LeadLen(" " + value) == 1
  {
    LeadLenIs(" " + value, 1);
  }

  // A key that ends in a carriage return is cut short when no value follows.
  lemma EmptyReadBack(key: string)
    requires IsKey(key)
    ensures key != ""
    ensures var y := Stripped(key + (" " + ""));
      KeyOf(y) == key && ValueOf(y) == "" <==> key[|key| - 1] != '\r'
    ensures key[|key| - 1] != '\r' ==> TrimEnd(key + (" " + "")) > 0
  {
    var x := key + (" " + "");
    var n := |key|;
    assert IsBlank(x[n]) && key[n - 1] == x[n - 1] && !IsBlank(key[n - 1]);
    hide IsKey, IsBlank, WordLen, LeadLen;
    if key[n - 1] != '\r' {
      TrimEndIs(x, n);
      assert Stripped(x) == key && key[..n] == key;
      KeyIs(key, key);
    } else {
      CutShort(x, n);
      ShortKey(Stripped(x));
    }
  }

  lemma CutShort(x: string, n: nat)
    requires 0 < n < |x| && x[n - 1] == '\r' && n + 1 == |x| && IsBlank(x[n])
    ensures TrimEnd(x) < n
  {
  }

  lemma ShortKey(y: string)
    ensures |KeyOf(y)| <= |y|
  {
    hide WordLen;
  }

  // Replacing the first field with that key and reading the entry again gives
  // the same fields with that value in that place, exactly when the value has
  // no newline and no whitespace at its ends and is not empty after a key that
  // ends in a carriage return. The empty key is that of blank lines and comments,
  // which can only be given the empty value.
  lemma SetField(content: string, key: string, value: string, k: nat)
    requires IsFirst(content, key, k)
    ensures FieldsOf(WithField(content, k, key, value)) == FieldsOf(content)[k := Field(key, value)] <==> CanSet(key, value)
  {
    hide *;
    FirstIs(content, key, k);
    var r := WithField(content, k, key, value);
    CanSetNeeds(key, value);
    if IsPair(Field(key, value)) {
      if key == "" {
        NewContent(key, value);
        SetBlank(content, k);
      } else {
        FirstIsKey(content, key, k);
        NewContent(key, value);
        FieldReadBack(key, value);
        SetAt(content, key, value, k);
      }
      SetElsewhere(content, key, value, k);
      SameFields(FieldsOf(r), FieldsOf(content), k, Field(key, value));
    } else {
      AllPairs(r);
      UnlikeAny(FieldsOf(r), FieldsOf(content), k, Field(key, value));
    }
  }

  // A line has no value without a key.
  predicate IsPair(f: Field) {
    IsValue(f.value) && (f.key == "" ==> f.value == "")
  }

  lemma CanSetNeeds(key: string, value: string)
    ensures CanSet(key, value) ==> IsPair(Field(key, value))
    ensures IsPair(Field(key, value)) ==> IsValue(value) && (key == "" ==> value == "" && CanSet(key, value))
  {
  }

  lemma FirstIs(content: string, key: string, k: nat)
    requires IsFirst(content, key, k)
    ensures k < |Lines(content)| && Lines(content)[k].key == key
    ensures |FieldsOf(content)| == |Lines(content)|
  {
    hide Lines;
  }

  lemma SameFields(a: seq<Field>, b: seq<Field>, k: nat, f: Field)
    requires |a| == |b| && k < |b|
    requires forall j :: 0 <= j < |b| && j != k ==> a[j] == b[j]
    ensures a == b[k := f] <==> a[k] == f
  {
  }

  lemma UnlikeAny(a: seq<Field>, b: seq<Field>, k: nat, f: Field)
    requires k < |b| && forall j :: 0 <= j < |a| ==> IsPair(a[j])
    requires !IsPair(f)
    ensures a != b[k := f]
  {
    hide IsPair;
    assert b[k := f][k] == f;
  }

  lemma AllPairs(content: string)
    ensures forall k :: 0 <= k < |FieldsOf(content)| ==> IsPair(FieldsOf(content)[k])
  {
    hide *;
    LinesAndTexts(content);
    TextsNoNewline(content);
    forall k | 0 <= k < |FieldsOf(content)| ensures IsPair(FieldsOf(content)[k]) {
      FieldAt(content, k);
      ValuesAreValues(Texts(content)[k]);
      NoKeyNoValue(Texts(content)[k]);
    }
  }

  lemma NoKeyNoValue(t: string)
    requires IsValue(ValueOf(Body(t)))
    ensures IsPair(Field(KeyOf(Body(t)), ValueOf(Body(t))))
  {
    hide *;
    BodyStarts(t);
    EntryHasKey(Body(t));
    PairIs(KeyOf(Body(t)), ValueOf(Body(t)));
  }

  lemma BodyStarts(t: string)
    ensures Body(t) != "" ==> !IsBlank(Body(t)[0])
  {
    hide TrimEnd, IsBlank;
  }

  lemma EntryHasKey(body: string)
    requires body != "" ==> !IsBlank(body[0])
    ensures KeyOf(body) == "" ==> ValueOf(body) == ""
  {
    hide IsBlank;
  }

  lemma PairIs(key: string, value: string)
    requires IsValue(value) && (key == "" ==> value == "")
    ensures IsPair(Field(key, value))
  {
  }

  lemma FieldAt(content: string, k: nat)
    requires k < |FieldsOf(content)|
    ensures |FieldsOf(content)| == |Texts(content)| == |Lines(content)|
    ensures FieldsOf(content)[k] == Field(KeyOf(Body(Texts(content)[k])), ValueOf(Body(Texts(content)[k])))
  {
    hide Lines, Texts, KeyOf, ValueOf, Body;
    LinesAndTexts(content);
    LineOf(content, k);
  }

  lemma FirstIsKey(content: string, key: string, k: nat)
    requires k < |Lines(content)| && Lines(content)[k].key == key && key != ""
    ensures IsKey(key) && NoNewline(key)
  {
    hide *;
    LinesAndTexts(content);
    TextsNoNewline(content);
    LineOf(content, k);
    KeysAreKeys(Texts(content)[k]);
  }

  lemma NewContent(key: string, value: string)
    requires (key == "" || (IsKey(key) && NoNewline(key))) && IsValue(value)
    ensures IsContent(Some(key + (" " + value)))
    ensures key + (" " + value) != ""
    ensures key != "" ==> !IsBlank((key + (" " + value))[0])
  {
    hide IsBlank;
  }

  lemma SetTexts(content: string, key: string, value: string, k: nat)
    requires k < |Lines(content)| && IsContent(Some(key + (" " + value)))
    ensures var r := WithField(content, k, key, value);
      |FieldsOf(r)| == |FieldsOf(content)| == |Texts(r)| == |Texts(content)|
    ensures forall j :: 0 <= j < |Texts(content)| ==>
      Texts(WithField(content, k, key, value))[j] ==
        EditText(Texts(content)[j], if j == k then Some(key + (" " + value)) else None)
  {
    hide *;
    var x := key + (" " + value);
    WithFieldIs(content, k, key, value);
    var edits := Single(|Lines(content)|, k, x);
    SingleContents(|Lines(content)|, k, x);
    TextsOfRewrite(content, edits);
    LinesAndTexts(WithField(content, k, key, value));
  }

  lemma SingleContents(n: nat, k: nat, x: string)
    requires IsContent(Some(x))
    ensures AllContents(Single(n, k, x))
  {
    hide Single;
  }

  lemma SetAt(content: string, key: string, value: string, k: nat)
    requires k < |Lines(content)| && key != "" && IsKey(key) && NoNewline(key) && IsValue(value)
    ensures var r := WithField(content, k, key, value);
      k < |FieldsOf(r)| && (FieldsOf(r)[k] == Field(key, value) <==> CanSet(key, value))
  {
    hide *;
    var r := WithField(content, k, key, value);
    var x := key + (" " + value);
    NewContent(key, value);
    SetTexts(content, key, value, k);
    FieldAt(r, k);
    BodyOfEdit(Texts(content)[k], x);
    FieldReadBack(key, value);
    NothingKey(key);
  }

  lemma NothingKey(key: string)
    requires IsKey(key)
    ensures KeyOf("") != key
  {
  }

  // A line that is given neither key nor value is blank.
  lemma SetBlank(content: string, k: nat)
    requires k < |Lines(content)|
    ensures var r := WithField(content, k, "", "");
      k < |FieldsOf(r)| && FieldsOf(r)[k] == Field("", "")
  {
    hide *;
    var r := WithField(content, k, "", "");
    NothingIsValue();
    NewContent("", "");
    SetTexts(content, "", "", k);
    FieldAt(r, k);
    BlankBody(Texts(content)[k]);
    NoEntry("");
  }

  lemma NothingIsValue()
    ensures IsValue("")
  {
  }

  lemma BlankBody(t: string)
    ensures Body(EditText(t, Some("" + (" " + "")))) == ""
  {
    hide *;
    var x := "" + (" " + "");
    EditTextIs(t, x);
    LeadIsBlank(t);
    BlankIsTrailing(x);
    TrimTrailing(t[..BodyStart(t)] + x, t[BodyEnd(t)..]);
    TrimAll(t[..BodyStart(t)], x);
    NothingLeft(EditText(t, Some(x)));
  }

  lemma BlankIsTrailing(x: string)
    requires x == " "
    ensures TrimEnd(x) == 0
  {
  }

  lemma SetElsewhere(content: string, key: string, value: string, k: nat)
    requires k < |Lines(content)| && IsContent(Some(key + (" " + value)))
    ensures var r := WithField(content, k, key, value);
      |FieldsOf(r)| == |FieldsOf(content)| &&
      forall j :: 0 <= j < |FieldsOf(content)| && j != k ==> FieldsOf(r)[j] == FieldsOf(content)[j]
  {
    hide *;
    var r := WithField(content, k, key, value);
    SetTexts(content, key, value, k);
    forall j | 0 <= j < |FieldsOf(content)| && j != k ensures FieldsOf(r)[j] == FieldsOf(content)[j] {
      FieldAt(r, j);
      FieldAt(content, j);
      NoEdit(Texts(content)[j]);
    }
  }

  // -------------------------------------------------------- single lines

  // An entry of one line.
  lemma OneLine(key: string, value: string)
    requires IsKey(key) && NoNewline(key) && IsValue(value) && value != ""
    ensures Lines(key + (" " + value)) != [] && |Lines(key + (" " + value))| == 1
    ensures FieldsOf(key + (" " + value)) == [Field(key, value)]
  {
    hide *;
    var x := key + (" " + value);
    NewContent(key, value);
    ValueReadBack(key, value);
    KeyIsNotEmpty(key);
    BodyOfEdit("", x);
    EditOfNothing(x);
    ContentNoNewline(x);
    TextsCons(x, "");
    LinesAndTexts(x);
    FieldAt(x, 0);
  }

  lemma KeyIsNotEmpty(key: string)
    requires IsKey(key)
    ensures key != ""
  {
  }

  lemma ContentNoNewline(x: string)
    requires IsContent(Some(x))
    ensures NoNewline(x)
  {
  }

  // With a key that ends in a carriage return, setting the empty value loses that
  // carriage return.
  lemma EmptyValueChangesKey()
    ensures IsFirst("a\r b", "a\r", 0)
    ensures FieldsOf("a\r b") == [Field("a\r", "b")]
    ensures FieldsOf(WithField("a\r b", 0, "a\r", "")) == [Field("a", "")]
  {
    var s, key := "a\r b", "a\r";
    assert s == key + (" " + "b");
    OneLine(key, "b");
    assert Lines(s)[0].key == FieldsOf(s)[0].key;
    hide IsFirst, FieldsOf, WithField, Lines;
    NewContent(key, "");
    SetTexts(s, key, "", 0);
    var r := WithField(s, 0, key, "");
    FieldAt(r, 0);
    CutContent(Texts(s)[0]);
  }

  lemma CutContent(t: string)
    ensures var b := Body(EditText(t, Some("a\r" + (" " + "")))); KeyOf(b) == "a" && ValueOf(b) == ""
  {
    var x := "a\r" + (" " + "");
    BodyOfEdit(t, x) by { assert x[0] == 'a'; }
    TrimEndIs(x, 1);
    assert Stripped(x) == "a";
    WordLenIs("a", 1);
    hide Body, EditText;
  }

  // A removed argument comes back when quoting gives another one its spelling.
  lemma RemovedComesBack()
    ensures Lines("options x$y") != [] && Lines("options x$y")[0].key == OPTIONS
    ensures KeptAt(Lines("options x$y"), ["x\\$y"], 0) == ["x$y"]
    ensures ReadBack(["x$y"], AddedAt(Lines("options x$y"), [], 0)) == ["x\\$y"]
    ensures OptionTokens(Lines(UpdatedOptions("options x$y", ["x\\$y"], []))[0].value) == ["x\\$y"]
  {
    hide *;
    var s, remove := "options x$y", ["x\\$y"];
    assert s == "options" + (" " + "x$y");
    OptionsIsKey();
    PlainToken();
    OneLine(OPTIONS, "x$y");
    FieldIs(s, OPTIONS, "x$y");
    OneToken();
    KeptIs(Lines(s), remove);
    TokenComesBack(AddedAt(Lines(s), [], 0));
    HasOptions(Lines(s), 0);
    NoNewArguments();
    UpdateKeeps(s, remove, [], 0);
  }

  lemma PlainToken()
    ensures OPTIONS == "options" && NoNewline(OPTIONS) && IsValue("x$y")
  {
  }

  lemma FieldIs(content: string, key: string, value: string)
    requires FieldsOf(content) == [Field(key, value)]
    ensures |Lines(content)| == 1 && Lines(content)[0].key == key && Lines(content)[0].value == value
  {
    hide Lines;
    assert FieldsOf(content)[0] == FieldOf(Lines(content)[0]);
  }

  lemma KeptIs(lines: seq<Line>, remove: seq<string>)
    requires lines != []
    ensures KeptAt(lines, remove, 0) == Kept(OptionTokens(lines[0].value), remove)
    ensures AddedAt(lines, [], 0) == []
  {
    hide Kept, OptionTokens, Staying;
    KeptAre(OptionTokens(lines[0].value), remove);
  }

  lemma NoNewArguments()
    ensures NoNewlines([])
  {
  }

  lemma OneToken()
    ensures OptionTokens("x$y") == ["x$y"] && ArgOf("x$y").name == "x$y" && ArgOf("x$y").name !in ["x\\$y"]
    ensures Kept(["x$y"], ["x\\$y"]) == ["x$y"]
  {
    SplitPlain("x$y", "", "");
    assert "x$y" + "" == "x$y" && "" + "x$y" == "x$y";
    DefaultGrub.IndexOfIs("x$y", '=', 3);
    assert "x$y"[..3] == "x$y";
    assert ["x$y"][1..] == [] && Kept([], ["x\\$y"]) == [];
    assert ["x$y"] + [] == ["x$y"];
  }

  lemma TokenComesBack(added: seq<string>)
    requires added == []
    ensures ReadBack(["x$y"], added) == ["x\\$y"]
  {
    var a := "x$y";
    assert IsStop(a[1]);
    assert Cleaned(["x$y"]) == ["x$y"];
    assert Escape(a) == "x" + Escape("$y") && a[1..] == "$y";
    assert Escape("$y") == "\\$" + Escape("y") && Escape("y") == "y";
    assert "$y"[1..] == "y" && "y"[1..] == "";
    assert Escape(a) == "x\\$y";
    assert RequiresQuotes(a) && Mangle(a) == "x\\$y";
    var one := [a];
    assert |one[1..]| == 0 && Mangled([]) == [];
    assert Mangled([a]) == ["x\\$y"];
    assert OptionTokens("") == [];
    assert Mangled([a]) + [] == Mangled([a]);
  }
}
