// The line parser for Boot Loader Specification entries
// (toolkit/tools/internal/bls/bls.go).
module BlsLines {

  // One line of an entry: its key and value, and where its content lies once
  // surrounding whitespace is stripped.
  datatype Line = Line(key: string, value: string, contentStart: nat, contentEnd: nat)

  predicate IsBlank(c: char) {
    c == ' ' || c == '\t'
  }

  // Stripped from the end of a line (the CR of a CRLF included).
  predicate IsTrailing(c: char) {
    IsBlank(c) || c == '\r'
  }

  // ------------------------------------------------ what a single line means

  // The length of t without the whitespace at its end.
  function TrimEnd(t: string): (n: nat)
    ensures n <= |t|
    ensures n > 0 ==> !IsTrailing(t[n - 1])
    ensures forall k :: n <= k < |t| ==> IsTrailing(t[k])
  {
    if t != "" && IsTrailing(t[|t| - 1]) then TrimEnd(t[..|t| - 1]) else |t|
  }

  // The number of blanks t begins with.
  function LeadLen(t: string): (n: nat)
    ensures n <= |t|
    ensures n < |t| ==> !IsBlank(t[n])
    ensures forall k :: 0 <= k < n ==> IsBlank(t[k])
  {
    if t != "" && IsBlank(t[0]) then 1 + LeadLen(t[1..]) else 0
  }

  // The length of the run of other characters that t begins with.
  function WordLen(t: string): (n: nat)
    ensures n <= |t|
    ensures n < |t| ==> IsBlank(t[n])
    ensures forall k :: 0 <= k < n ==> !IsBlank(t[k])
  {
    if t != "" && !IsBlank(t[0]) then 1 + WordLen(t[1..]) else 0
  }

  // A stripped line is blank, a comment, or a key and a value.
  predicate IsEntry(body: string) {
    body != "" && body[0] != '#'
  }

  function KeyOf(body: string): string {
    if IsEntry(body) then body[..WordLen(body)] else ""
  }

  function ValueOf(body: string): string {
    if IsEntry(body) then
      var rest := body[WordLen(body)..];
      rest[LeadLen(rest)..]
    else ""
  }

  // The whitespace before the body of a line, and where the body ends.
  function BodyStart(t: string): (n: nat)
    ensures n <= BodyEnd(t)
  {
    LeadLen(t[..TrimEnd(t)])
  }

  function BodyEnd(t: string): (n: nat)
    ensures n <= |t|
  {
    TrimEnd(t)
  }

  function Body(t: string): string {
    t[BodyStart(t)..BodyEnd(t)]
  }

  // The line with text t that begins at offset base.
  function LineAt(t: string, base: nat): Line {
    Line(KeyOf(Body(t)), ValueOf(Body(t)), base + BodyStart(t), base + BodyEnd(t))
  }

  // ----------------------------------------------------- what a file means

  // The length of the first line.
  function LineLen(s: string): (n: nat)
    ensures n <= |s| && forall k :: 0 <= k < n ==> s[k] != '\n'
    ensures n < |s| ==> s[n] == '\n'
  {
    if s == "" || s[0] == '\n' then 0 else 1 + LineLen(s[1..])
  }

  // What follows the first line and its newline.
  function NextLines(s: string): (rest: string)
    ensures if s == "" then rest == "" else |rest| < |s| && rest == s[|s| - |rest|..]
  {
    if LineLen(s) == |s| then "" else s[LineLen(s) + 1..]
  }

  // The lines of the text s, which begins at offset base.
  function LinesFrom(s: string, base: nat): seq<Line>
    decreases |s|
  {
    if s == "" then []
    else [LineAt(s[..LineLen(s)], base)] + LinesFrom(NextLines(s), base + (|s| - |NextLines(s)|))
  }

  function Lines(s: string): seq<Line> {
    LinesFrom(s, 0)
  }

  // The texts of the lines.
  function Texts(s: string): seq<string>
    decreases |s|
  {
    if s == "" then [] else [s[..LineLen(s)]] + Texts(NextLines(s))
  }

  lemma {:induction false} LinesCount(s: string, base: nat)
    ensures |LinesFrom(s, base)| == |Texts(s)|
    decreases |s|
  {
    hide LineLen, NextLines, LineAt;
    if s == "" {
    } else {
      LinesCount(NextLines(s), base + (|s| - |NextLines(s)|));
    }
  }

  // What a line says depends on its text alone.
  lemma {:induction false} TextOfLine(s: string, base: nat, k: nat)
    requires k < |Texts(s)|
    ensures |LinesFrom(s, base)| == |Texts(s)|
    ensures LinesFrom(s, base)[k].key == KeyOf(Body(Texts(s)[k]))
    ensures LinesFrom(s, base)[k].value == ValueOf(Body(Texts(s)[k]))
    decreases k
  {
    hide LineLen, NextLines, KeyOf, ValueOf, Body;
    LinesCount(s, base);
    if k == 0 {
    } else {
      TextOfLine(NextLines(s), base + (|s| - |NextLines(s)|), k - 1);
    }
  }

  // ------------------------------------------------------------- the parser

  lemma {:induction false} TrimEndIs(t: string, n: nat)
    requires n <= |t| && (n > 0 ==> !IsTrailing(t[n - 1]))
    requires forall k :: n <= k < |t| ==> IsTrailing(t[k])
    ensures TrimEnd(t) == n
  {
    if n == |t| {
    } else {
      TrimEndIs(t[..|t| - 1], n);
    }
  }

  lemma {:induction false} LeadLenIs(t: string, n: nat)
    requires n <= |t| && (n < |t| ==> !IsBlank(t[n]))
    requires forall k :: 0 <= k < n ==> IsBlank(t[k])
    ensures LeadLen(t) == n
  {
    if n == 0 {
    } else {
      LeadLenIs(t[1..], n - 1);
    }
  }

  lemma {:induction false} WordLenIs(t: string, n: nat)
    requires n <= |t| && (n < |t| ==> IsBlank(t[n]))
    requires forall k :: 0 <= k < n ==> !IsBlank(t[k])
    ensures WordLen(t) == n
  {
    if n == 0 {
    } else {
      WordLenIs(t[1..], n - 1);
    }
  }

  lemma {:induction false} LineLenIs(s: string, n: nat)
    requires n <= |s| && (n < |s| ==> s[n] == '\n')
    requires forall k :: 0 <= k < n ==> s[k] != '\n'
    ensures LineLen(s) == n
  {
    if n == 0 {
    } else {
      LineLenIs(s[1..], n - 1);
    }
  }

  // The index of the first newline from pos on, or the length of content.
  method IndexNewline(content: string, pos: nat) returns (i: nat)
    requires pos <= |content|
    ensures i == pos + LineLen(content[pos..])
  {
    i := pos;
    while i < |content| && content[i] != '\n'
      invariant pos <= i <= |content| && forall k :: pos <= k < i ==> content[k] != '\n'
    {
      i := i + 1;
    }
    LineLenIs(content[pos..], i - pos);
  }

  method ParseLines(content: string) returns (lines: seq<Line>)
    ensures lines == Lines(content)
  {
    hide LinesFrom, LineAt, LineLen, NextLines;
    if content == "" {
      LinesStep(content, 0);
      return [];
    }
    lines := [];
    var pos := 0;
    assert content[0..] == content;
    assert [] + Lines(content) == Lines(content);
    while pos < |content|
      invariant pos <= |content|
      invariant lines + LinesFrom(content[pos..], pos) == Lines(content)
    {
      LinesStep(content, pos);
      ghost var before := lines;
      var lineEnd := IndexNewline(content, pos);
      var line := ParseLine(content, pos, lineEnd);
      lines := lines + [line];
      if lineEnd == |content| {
        assert lines == before + [line];
        return;
      }
      pos := lineEnd + 1;
      LinesAssoc(before, [line], LinesFrom(content[pos..], pos));
    }
    LinesStep(content, pos);
    assert lines + [] == lines;
  }

  lemma LinesAssoc(a: seq<Line>, b: seq<Line>, c: seq<Line>)
    ensures a + b + c == a + (b + c)
  {
  }

  lemma LinesStep(content: string, pos: nat)
    requires pos <= |content|
    ensures var n := LineLen(content[pos..]);
      LinesFrom(content[pos..], pos) ==
        if pos == |content| then []
        else if pos + n == |content| then [LineAt(content[pos..pos + n], pos)]
        else [LineAt(content[pos..pos + n], pos)] + LinesFrom(content[pos + n + 1..], pos + n + 1)
  {
    hide LinesFrom, LineAt, LineLen;
    var s := content[pos..];
    var n := LineLen(s);
    LinesUnfold(s, pos);
    LinesUnfold("", |content|);
    DropSlice(content, pos, n);
    if pos + n < |content| {
      DropSlice(content, pos, n + 1);
    }
    var line := LineAt(s[..n], pos);
    assert [line] + [] == [line];
  }

  lemma LinesUnfold(s: string, base: nat)
    ensures LinesFrom(s, base) ==
      if s == "" then [] else [LineAt(s[..LineLen(s)], base)] + LinesFrom(NextLines(s), base + (|s| - |NextLines(s)|))
  {
  }

  lemma DropSlice(s: string, i: nat, n: nat)
    requires i + n <= |s|
    ensures s[i..][..n] == s[i..i + n] && s[i..][n..] == s[i + n..]
  {
    assert forall k :: 0 <= k < n ==> s[i..][..n][k] == s[i..i + n][k];
  }

  // Strips the line between two offsets and splits it into key and value.
  method ParseLine(content: string, pos: nat, lineEnd: nat) returns (line: Line)
    requires pos <= lineEnd <= |content|
    ensures line == LineAt(content[pos..lineEnd], pos)
  {
    hide LineAt, KeyOf, ValueOf, WordLen, LeadLen, IsBlank;
    var end := lineEnd;
    while end > pos && IsTrailing(content[end - 1])
      invariant pos <= end <= lineEnd && forall k :: end <= k < lineEnd ==> IsTrailing(content[k])
    {
      end := end - 1;
    }
    var start := pos;
    while start < end && IsBlank(content[start])
      invariant pos <= start <= end && forall k :: pos <= k < start ==> IsBlank(content[k])
    {
      start := start + 1;
    }
    LineAtIs(content, pos, start, end, lineEnd);
    var key, value := SplitBody(content, start, end);
    line := Line(key, value, start, end);
  }

  method SplitBody(content: string, start: nat, end: nat) returns (key: string, value: string)
    requires start <= end <= |content|
    ensures key == KeyOf(content[start..end]) && value == ValueOf(content[start..end])
  {
    hide KeyOf, ValueOf, WordLen, LeadLen, IsBlank;
    NoEntry(content[start..end]);
    key, value := "", "";
    if start < end && content[start] != '#' {
      var sep := start;
      while sep < end && !IsBlank(content[sep])
        invariant start <= sep <= end && forall k :: start <= k < sep ==> !IsBlank(content[k])
      {
        sep := sep + 1;
      }
      SliceWord(content, start, sep, end);
      key := content[start..sep];
      var valStart := sep;
      while valStart < end && IsBlank(content[valStart])
        invariant sep <= valStart <= end && forall k :: sep <= k < valStart ==> IsBlank(content[k])
      {
        valStart := valStart + 1;
      }
      SliceLead(content, sep, valStart, end);
      value := content[valStart..end];
      SplitIs(content, start, sep, valStart, end);
    }
  }

  lemma NoEntry(body: string)
    ensures body == "" || body[0] == '#' ==> KeyOf(body) == "" && ValueOf(body) == ""
  {
  }

  lemma LineAtIs(content: string, pos: nat, start: nat, end: nat, lineEnd: nat)
    requires pos <= start <= end <= lineEnd <= |content|
    requires forall k :: end <= k < lineEnd ==> IsTrailing(content[k])
    requires end == pos || !IsTrailing(content[end - 1])
    requires forall k :: pos <= k < start ==> IsBlank(content[k])
    requires start == end || !IsBlank(content[start])
    ensures var body := content[start..end];
      LineAt(content[pos..lineEnd], pos) == Line(KeyOf(body), ValueOf(body), start, end)
  {
    hide IsTrailing, IsBlank, KeyOf, ValueOf, LeadLen, TrimEnd;
    var t := content[pos..lineEnd];
    TrimEndIs(t, end - pos);
    var u := t[..end - pos];
    assert forall k :: 0 <= k < |u| ==> u[k] == content[pos + k];
    LeadLenIs(u, start - pos);
    SliceSlice(content, pos, lineEnd, start - pos, end - pos);
  }

  lemma SliceWord(content: string, start: nat, sep: nat, end: nat)
    requires start <= sep <= end <= |content|
    requires forall k :: start <= k < sep ==> !IsBlank(content[k])
    requires sep == end || IsBlank(content[sep])
    ensures WordLen(content[start..end]) == sep - start
  {
    hide IsBlank, WordLen;
    WordLenIs(content[start..end], sep - start);
  }

  lemma SliceLead(content: string, sep: nat, valStart: nat, end: nat)
    requires sep <= valStart <= end <= |content|
    requires forall k :: sep <= k < valStart ==> IsBlank(content[k])
    requires valStart == end || !IsBlank(content[valStart])
    ensures LeadLen(content[sep..end]) == valStart - sep
  {
    hide IsBlank, LeadLen;
    LeadLenIs(content[sep..end], valStart - sep);
  }

  lemma SplitIs(content: string, start: nat, sep: nat, valStart: nat, end: nat)
    requires start < end <= |content| && content[start] != '#' && start <= sep <= valStart <= end
    requires WordLen(content[start..end]) == sep - start && LeadLen(content[sep..end]) == valStart - sep
    ensures KeyOf(content[start..end]) == content[start..sep]
    ensures ValueOf(content[start..end]) == content[valStart..end]
  {
    hide WordLen, LeadLen;
    SliceTake(content, start, end, sep - start);
    SliceDrop(content, start, end, sep - start);
    SliceDrop(content, sep, end, valStart - sep);
  }

  lemma SliceTake(s: string, i: nat, j: nat, b: nat)
    requires b <= j - i && i <= j <= |s|
    ensures s[i..j][..b] == s[i..i + b]
  {
    assert forall k :: 0 <= k < b ==> s[i..j][..b][k] == s[i..i + b][k];
  }

  lemma SliceDrop(s: string, i: nat, j: nat, a: nat)
    requires a <= j - i && i <= j <= |s|
    ensures s[i..j][a..] == s[i + a..j]
  {
    assert forall k :: 0 <= k < j - i - a ==> s[i..j][a..][k] == s[i + a..j][k];
  }

  lemma SliceSlice(s: string, i: nat, j: nat, a: nat, b: nat)
    requires a <= b <= j - i && i <= j <= |s|
    ensures s[i..j][a..b] == s[i + a..i + b]
  {
    assert forall k :: 0 <= k < b - a ==> s[i..j][a..b][k] == s[i + a..i + b][k];
  }

  // ------------------------------------------------------------- lossless

  // Whitespace that is stripped at the end of a line, if any, then a newline,
  // then the blanks before the content of the next line.
  predicate IsBreak(g: string) {
    exists k :: 0 <= k < |g| && g[k] == '\n'
      && (forall j :: 0 <= j < k ==> IsTrailing(g[j])) && (forall j :: k < j < |g| ==> IsBlank(g[j]))
  }

  // The lines lie in s in order, from index i on: blanks, content, break,
  // content, break, ..., and at the end nothing but whitespace.
  predicate Spread(s: string, i: nat, lines: seq<Line>)
    decreases |lines|
  {
    if lines == [] then i == |s|
    else
      var l := lines[0];
      && i <= l.contentStart <= l.contentEnd <= |s|
      && (forall k :: i <= k < l.contentStart ==> IsBlank(s[k]))
      && l.key == KeyOf(s[l.contentStart..l.contentEnd])
      && l.value == ValueOf(s[l.contentStart..l.contentEnd])
      && if |lines| == 1 then IsTail(s[l.contentEnd..])
         else
           && l.contentEnd <= lines[1].contentStart <= |s|
           && IsBreak(s[l.contentEnd..lines[1].contentStart])
           && exists j :: l.contentEnd < j <= lines[1].contentStart && Spread(s, j, lines[1..])
  }

  predicate IsTail(g: string) {
    (forall j :: 0 <= j < |g| ==> IsTrailing(g[j])) || (|g| > 0 && g[|g| - 1] == '\n' && forall j :: 0 <= j < |g| - 1 ==> IsTrailing(g[j]))
  }

  lemma LinesSpread(s: string)
    ensures Spread(s, 0, Lines(s))
  {
    assert s[0..] == s;
    LinesSpreadFrom(s, 0);
  }

  lemma {:induction false} LinesSpreadFrom(s: string, i: nat)
    requires i <= |s|
    ensures Spread(s, i, LinesFrom(s[i..], i))
    decreases |s| - i
  {
    hide *;
    LinesStep(s, i);
    if i == |s| {
      SpreadNothing(s);
    } else {
      var n := LineLen(s[i..]);
      var l := LineAt(s[i..i + n], i);
      BodySurrounded(s, i, n);
      if i + n < |s| {
        var j := i + n + 1;
        LinesSpreadFrom(s, j);
        var rest := LinesFrom(s[j..], j);
        LinesStep(s, j);
        if j == |s| {
          TailAfter(s, l.contentEnd, i + n);
        } else {
          BodySurrounded(s, j, LineLen(s[j..]));
          BreakBetween(s, l.contentEnd, i + n, rest[0].contentStart);
        }
        SpreadCons(s, i, l, j, rest);
      } else {
        TailNone(s, l.contentEnd);
        assert [l] + [] == [l];
        SpreadCons(s, i, l, |s|, []);
      }
    }
  }

  lemma SpreadNothing(s: string)
    ensures Spread(s, |s|, [])
  {
  }

  lemma SpreadCons(s: string, i: nat, l: Line, j: nat, rest: seq<Line>)
    requires i <= l.contentStart <= l.contentEnd <= |s|
    requires forall k :: i <= k < l.contentStart ==> IsBlank(s[k])
    requires l.key == KeyOf(s[l.contentStart..l.contentEnd]) && l.value == ValueOf(s[l.contentStart..l.contentEnd])
    requires rest == [] ==> IsTail(s[l.contentEnd..])
    requires rest != [] ==>
      && l.contentEnd < j <= rest[0].contentStart <= |s| && IsBreak(s[l.contentEnd..rest[0].contentStart])
      && Spread(s, j, rest)
    ensures Spread(s, i, [l] + rest)
  {
    hide IsBlank, KeyOf, ValueOf, IsBreak, IsTail;
    var lines := [l] + rest;
    assert lines[1..] == rest;
  }

  lemma BodySurrounded(s: string, i: nat, n: nat)
    requires i + n <= |s|
    ensures var l := LineAt(s[i..i + n], i);
      && i <= l.contentStart <= l.contentEnd <= i + n
      && l.key == KeyOf(s[l.contentStart..l.contentEnd])
      && l.value == ValueOf(s[l.contentStart..l.contentEnd])
      && (forall k :: i <= k < l.contentStart ==> IsBlank(s[k]))
      && (forall k :: l.contentEnd <= k < i + n ==> IsTrailing(s[k]))
  {
    hide KeyOf, ValueOf, TrimEnd, LeadLen;
    var t := s[i..i + n];
    SliceSlice(s, i, i + n, BodyStart(t), BodyEnd(t));
    assert forall k :: i <= k < i + n ==> s[k] == t[k - i];
    assert forall k :: 0 <= k < TrimEnd(t) ==> t[..TrimEnd(t)][k] == t[k];
  }

  lemma TailNone(s: string, e: nat)
    requires e <= |s| && forall k :: e <= k < |s| ==> IsTrailing(s[k])
    ensures IsTail(s[e..])
  {
  }

  lemma TailAfter(s: string, e: nat, m: nat)
    requires e <= m < |s| && m + 1 == |s| && s[m] == '\n' && forall k :: e <= k < m ==> IsTrailing(s[k])
    ensures IsTail(s[e..])
  {
  }

  lemma BreakBetween(s: string, e: nat, m: nat, b: nat)
    requires e <= m < b <= |s| && s[m] == '\n'
    requires forall k :: e <= k < m ==> IsTrailing(s[k])
    requires forall k :: m < k < b ==> IsBlank(s[k])
    ensures IsBreak(s[e..b])
  {
    var g := s[e..b];
    assert g[m - e] == '\n';
  }

  // The parts of an entry: key, blanks, value; the value keeps its spelling.
  lemma EntryParts(body: string)
    requires IsEntry(body)
    ensures exists blanks: string :: body == KeyOf(body) + blanks + ValueOf(body) && forall k :: 0 <= k < |blanks| ==> IsBlank(blanks[k])
  {
    var n := WordLen(body);
    var rest := body[n..];
    var m := LeadLen(rest);
    assert body == body[..n] + rest[..m] + rest[m..];
    assert forall k :: 0 <= k < |rest[..m]| ==> IsBlank(rest[..m][k]);
  }
}
