// What the lines of an entry are, put together from their parts.
module BlsText {
  import opened Wrappers
  import opened GrubQuoting
  import opened BlsLines
  import opened BlsArgs
  import opened BlsUpdate
  import opened BlsLaws

  predicate Blanks(s: string) {
    forall k :: 0 <= k < |s| ==> s[k] == ' ' || s[k] == '\t'
  }

  predicate Trailing(s: string) {
    forall k :: 0 <= k < |s| ==> s[k] == ' ' || s[k] == '\t' || s[k] == '\r'
  }

  predicate EndsClean(s: string) {
    s != "" && s[|s| - 1] != ' ' && s[|s| - 1] != '\t' && s[|s| - 1] != '\r'
  }

  // ------------------------------------------------------------- a single line

  // The body of a line, between the whitespace around it.
  lemma BodyMeans(lead: string, body: string, tail: string)
    requires Blanks(lead) && Trailing(tail) && EndsClean(body) && body[0] != ' ' && body[0] != '\t'
    ensures var t := lead + body + tail;
      && Body(t) == body && BodyStart(t) == |lead| && BodyEnd(t) == |lead| + |body|
  {
    var t := lead + body + tail;
    TrimEndIs(t, |lead| + |body|);
    assert t[..|lead| + |body|] == lead + body;
    LeadLenIs(lead + body, |lead|);
  }

  lemma NoBody(t: string)
    requires Trailing(t)
    ensures TrimEnd(t) == 0 && Body(t) == ""
  {
    TrimEndIs(t, 0);
  }

  predicate IsWord(key: string) {
    key != "" && key[0] != '#' && forall k :: 0 <= k < |key| ==> key[k] != ' ' && key[k] != '\t'
  }

  // A line can have a key and a value, or a key alone; it can also be a comment,
  // or say nothing.
  lemma LineMeans(lead: string, key: string, gap: string, value: string, tail: string, base: nat)
    requires Blanks(lead) && IsWord(key) && Blanks(gap) && gap != "" && Trailing(tail)
    requires EndsClean(value) && value[0] != ' ' && value[0] != '\t'
    ensures LineAt(lead + (key + (gap + value)) + tail, base) ==
      Line(key, value, base + |lead|, base + |lead| + |key| + |gap| + |value|)
  {
    var body := key + (gap + value);
    BodyMeans(lead, body, tail);
    WordLenIs(body, |key|);
    assert body[..|key|] == key && body[|key|..] == gap + value;
    LeadLenIs(gap + value, |gap|);
  }

  lemma KeyAlone(lead: string, key: string, tail: string, base: nat)
    requires Blanks(lead) && IsWord(key) && EndsClean(key) && Trailing(tail)
    ensures LineAt(lead + key + tail, base) == Line(key, "", base + |lead|, base + |lead| + |key|)
  {
    BodyMeans(lead, key, tail);
    WordLenIs(key, |key|);
    LeadLenIs(key[|key|..], 0);
  }

  lemma CommentMeans(lead: string, comment: string, tail: string, base: nat)
    requires Blanks(lead) && Trailing(tail)
    ensures EndsClean("#" + comment) ==>
      LineAt(lead + ("#" + comment) + tail, base) == Line("", "", base + |lead|, base + |lead| + 1 + |comment|)
    ensures LineAt(tail, base).key == "" && LineAt(tail, base).value == ""
  {
    NoBody(tail);
    if EndsClean("#" + comment) {
      BodyMeans(lead, "#" + comment, tail);
    }
  }

  // A line that is given a new content keeps the whitespace around it.
  lemma EditMeans(lead: string, body: string, tail: string, content: string)
    requires Blanks(lead) && Trailing(tail) && EndsClean(body) && body[0] != ' ' && body[0] != '\t'
    ensures EditText(lead + body + tail, Some(content)) == lead + content + tail
  {
    var t := lead + body + tail;
    BodyMeans(lead, body, tail);
    assert t[..|lead|] == lead && t[|lead| + |body|..] == tail;
  }

  // The content that an options line is given.
  lemma OptionsMean(args: seq<string>, a: string)
    ensures OptionsText([]) == "options"
    ensures args != [] ==> OptionsText(args) == "options " + Print(args)
    ensures Print([a]) == QuoteIfNeeded(a)
    ensures args != [] ==> Print([a] + args) == QuoteIfNeeded(a) + " " + Print(args)
  {
    hide QuoteIfNeeded;
    assert ([a] + args)[1..] == args;
    if args != [] {
      assert OPTIONS + (" " + Print(args)) == OPTIONS + " " + Print(args);
      assert OPTIONS + " " == "options ";
    }
  }

  // ---------------------------------------------------------------- a whole file

  // Lines, each with its newline.
  function Joined(lines: seq<string>): string {
    if lines == [] then "" else lines[0] + ("\n" + Joined(lines[1..]))
  }

  predicate AreLines(lines: seq<string>) {
    forall k :: 0 <= k < |lines| ==> '\n' !in lines[k]
  }

  // A file is read line by line; a last line may lack its newline.
  lemma {:induction false} FileMeans(lines: seq<string>, last: string)
    requires AreLines(lines) && '\n' !in last
    ensures Texts(Joined(lines) + last) == lines + if last == "" then [] else [last]
  {
    hide *;
    JoinedIs(lines, last);
    LastText(last);
    var end: seq<string> := if last == "" then [] else [last];
    if lines == [] {
      assert lines + end == end;
    } else {
      RestAreLines(lines);
      FileMeans(lines[1..], last);
      FirstText(lines[0], Joined(lines[1..]) + last);
      assert [lines[0]] + (lines[1..] + end) == lines + end;
    }
  }

  lemma RestAreLines(lines: seq<string>)
    requires AreLines(lines) && lines != []
    ensures AreLines(lines[1..]) && '\n' !in lines[0]
  {
  }

  lemma JoinedIs(lines: seq<string>, last: string)
    ensures lines == [] ==> Joined(lines) + last == last
    ensures lines != [] ==> Joined(lines) + last == lines[0] + ("\n" + (Joined(lines[1..]) + last))
  {
    if lines != [] {
      Regroup(lines[0], Joined(lines[1..]), last);
    } else {
      assert "" + last == last;
    }
  }

  lemma Regroup(a: string, b: string, c: string)
    ensures a + ("\n" + b) + c == a + ("\n" + (b + c))
  {
  }

  lemma FirstText(first: string, rest: string)
    requires '\n' !in first
    ensures Texts(first + ("\n" + rest)) == [first] + Texts(rest)
  {
    var s := first + ("\n" + rest);
    LineLenIs(s, |first|);
    assert s[..|first|] == first && s[|first| + 1..] == rest;
    hide LineLen;
  }

  lemma LastText(last: string)
    requires '\n' !in last
    ensures Texts(last) == if last == "" then [] else [last]
  {
    if last != "" {
      LineLenIs(last, |last|);
      assert last[..|last|] == last;
      assert Texts("") == [];
    }
  }

  // Each of its lines is read by itself.
  lemma LinesMean(lines: seq<string>, last: string, k: nat)
    requires AreLines(lines) && '\n' !in last && k < |lines + if last == "" then [] else [last]|
    ensures var all := lines + if last == "" then [] else [last];
      && |Lines(Joined(lines) + last)| == |all|
      && Lines(Joined(lines) + last)[k].key == LineAt(all[k], 0).key
      && Lines(Joined(lines) + last)[k].value == LineAt(all[k], 0).value
  {
    hide *;
    FileMeans(lines, last);
    LineOf(Joined(lines) + last, k);
    LineAtHas((lines + if last == "" then [] else [last])[k]);
  }

  lemma LineAtHas(t: string)
    ensures LineAt(t, 0).key == KeyOf(Body(t)) && LineAt(t, 0).value == ValueOf(Body(t))
  {
    hide KeyOf, ValueOf, Body;
  }
}
