// Ordering of kernel versions
// (toolkit/tools/pkg/imagecustomizerlib/blsutils.go:243-336).
module KernelVersion {

  predicate IsDigit(c: char) {
    '0' <= c <= '9'
  }

  predicate IsAlpha(c: char) {
    'a' <= c <= 'z' || 'A' <= c <= 'Z'
  }

  predicate IsAlnum(c: char) {
    IsDigit(c) || IsAlpha(c)
  }

  // --------------------------------------------------- what a version means

  // A version is a list of numbers and words; everything else separates them.
  datatype Segment = Letters(text: string) | Digits(value: nat)

  predicate InRun(c: char, numeric: bool) {
    if numeric then IsDigit(c) else IsAlpha(c)
  }

  predicate AllIn(s: string, numeric: bool) {
    forall k :: 0 <= k < |s| ==> InRun(s[k], numeric)
  }

  function DigitValue(c: char): (d: nat)
    requires InRun(c, true)
    ensures d < 10
  {
    (c as int) - ('0' as int)
  }

  // The number a string of digits denotes.
  function Value(digits: string): nat
    requires AllIn(digits, true)
  {
    if digits == "" then 0
    else 10 * Value(digits[..|digits| - 1]) + DigitValue(digits[|digits| - 1])
  }

  // The length of the run of digits, or of letters, that s begins with.
  function Run(s: string, numeric: bool): (n: nat)
    ensures n <= |s|
    ensures forall k :: 0 <= k < n ==> InRun(s[k], numeric)
    ensures n < |s| ==> !InRun(s[n], numeric)
    ensures s != "" && InRun(s[0], numeric) ==> n > 0
  {
    if s == "" || !InRun(s[0], numeric) then 0 else 1 + Run(s[1..], numeric)
  }

  function Segments(s: string): seq<Segment>
    decreases |s|
  {
    if s == "" then []
    else if !IsAlnum(s[0]) then Segments(s[1..])
    else
      var numeric := IsDigit(s[0]);
      var n := Run(s, numeric);
      [SegmentOf(s[..n], numeric)] + Segments(s[n..])
  }

  function SegmentOf(run: string, numeric: bool): Segment
    requires AllIn(run, numeric)
  {
    if numeric then Digits(Value(run)) else Letters(run)
  }

  function Sign(n: int): int {
    if n < 0 then -1 else if n > 0 then 1 else 0
  }

  // Lexicographic order by character code.
  function CompareText(a: string, b: string): (c: int)
    ensures -1 <= c <= 1
  {
    if a == "" && b == "" then 0
    else if a == "" then -1
    else if b == "" then 1
    else if a[0] != b[0] then Sign(a[0] as int - b[0] as int)
    else CompareText(a[1..], b[1..])
  }

  // Words are older than numbers.
  function CompareSegment(a: Segment, b: Segment): (c: int)
    ensures -1 <= c <= 1
  {
    match (a, b)
    case (Letters(x), Letters(y)) => CompareText(x, y)
    case (Digits(m), Digits(n)) => Sign(m - n)
    case (Letters(_), Digits(_)) => -1
    case (Digits(_), Letters(_)) => 1
  }

  // Lexicographic order; a version is older than its continuations.
  function CompareSegments(a: seq<Segment>, b: seq<Segment>): (c: int)
    ensures -1 <= c <= 1
  {
    if a == [] && b == [] then 0
    else if a == [] then -1
    else if b == [] then 1
    else if CompareSegment(a[0], b[0]) != 0 then CompareSegment(a[0], b[0])
    else CompareSegments(a[1..], b[1..])
  }

  // ------------------------------------------------------ it is an ordering

  lemma {:induction false} TextOrder(a: string, b: string, c: string)
    ensures CompareText(a, b) == -CompareText(b, a)
    ensures CompareText(a, b) == 0 <==> a == b
    ensures CompareText(a, b) <= 0 && CompareText(b, c) <= 0 ==> CompareText(a, c) <= 0
    decreases |a| + |b| + |c|
  {
    if a != "" && b != "" && a[0] == b[0] {
      TextOrder(a[1..], b[1..], if c == "" then c else c[1..]);
      assert a == [a[0]] + a[1..] && b == [b[0]] + b[1..];
    }
  }

  lemma SegmentOrder(a: Segment, b: Segment, c: Segment)
    ensures CompareSegment(a, b) == -CompareSegment(b, a)
    ensures CompareSegment(a, b) == 0 <==> a == b
    ensures CompareSegment(a, b) <= 0 && CompareSegment(b, c) <= 0 ==> CompareSegment(a, c) <= 0
  {
    if a.Letters? && b.Letters? {
      TextOrder(a.text, b.text, if c.Letters? then c.text else "");
    }
  }

  lemma {:induction false} SegmentsOrder(a: seq<Segment>, b: seq<Segment>, c: seq<Segment>)
    ensures CompareSegments(a, b) == -CompareSegments(b, a)
    ensures CompareSegments(a, b) == 0 <==> a == b
    ensures CompareSegments(a, b) <= 0 && CompareSegments(b, c) <= 0 ==> CompareSegments(a, c) <= 0
    decreases |a| + |b| + |c|
  {
    hide CompareSegment;
    if a != [] && b != [] {
      SegmentsOrder(a[1..], b[1..], if c == [] then [] else c[1..]);
      assert a == [a[0]] + a[1..] && b == [b[0]] + b[1..];
      SegmentOrder(a[0], b[0], if c == [] then b[0] else c[0]);
      SegmentOrder(b[0], a[0], b[0]);
      if c != [] {
        SegmentOrder(b[0], c[0], a[0]);
        SegmentOrder(a[0], c[0], b[0]);
      }
    }
  }

  // The order of two versions: newer is 1, older is -1.
  function CompareVersions(a: string, b: string): int {
    CompareSegments(Segments(a), Segments(b))
  }

  // It is antisymmetric, transitive and total, and takes two versions for equal
  // exactly when their numbers and words agree.
  lemma VersionsOrder(a: string, b: string, c: string)
    ensures CompareVersions(a, b) == -CompareVersions(b, a)
    ensures CompareVersions(a, b) <= 0 && CompareVersions(b, c) <= 0 ==> CompareVersions(a, c) <= 0
    ensures CompareVersions(a, b) <= 0 || CompareVersions(b, a) <= 0
    ensures CompareVersions(a, b) == 0 <==> Segments(a) == Segments(b)
  {
    hide Segments, CompareSegments;
    SegmentsOrder(Segments(a), Segments(b), Segments(c));
  }

  // ------------------------------------------------- numbers as digit runs

  function Pow10(n: nat): (p: nat)
    ensures p > 0
  {
    if n == 0 then 1 else 10 * Pow10(n - 1)
  }

  function TrimZeros(digits: string): (r: string)
    ensures |r| <= |digits| && r == digits[|digits| - |r|..]
    ensures r != "" ==> r[0] != '0'
  {
    if digits != "" && digits[0] == '0' then TrimZeros(digits[1..]) else digits
  }

  lemma {:induction false} ValueFront(digits: string)
    requires digits != "" && AllIn(digits, true)
    ensures Value(digits) == DigitValue(digits[0]) * Pow10(|digits| - 1) + Value(digits[1..])
    decreases |digits|
  {
    var n := |digits| - 1;
    if n == 0 {
      assert digits[..0] == "" && digits[1..] == "";
    } else {
      var front := digits[..n];
      ValueFront(front);
      assert digits[1..][..n - 1] == front[1..];
      var d := DigitValue(digits[0]);
      assert 10 * (d * Pow10(n - 1)) == d * Pow10(n);
    }
  }

  lemma {:induction false} ValueBounds(digits: string)
    requires AllIn(digits, true)
    ensures Value(digits) < Pow10(|digits|)
    ensures digits != "" && digits[0] != '0' ==> Value(digits) >= Pow10(|digits| - 1)
  {
    if digits == "" {
    } else {
      var n := |digits| - 1;
      ValueBounds(digits[..n]);
      if n == 0 {
        assert digits[..0] == "";
      }
    }
  }

  lemma {:induction false} ValueTrimmed(digits: string)
    requires AllIn(digits, true)
    ensures AllIn(TrimZeros(digits), true)
    ensures Value(TrimZeros(digits)) == Value(digits)
  {
    hide Value, IsDigit;
    if digits != "" && digits[0] == '0' {
      LeadingZero(digits);
      ValueTrimmed(digits[1..]);
    }
  }

  lemma LeadingZero(digits: string)
    requires digits != "" && AllIn(digits, true) && digits[0] == '0'
    ensures Value(digits[1..]) == Value(digits)
  {
    hide Value, Pow10;
    ValueFront(digits);
    assert DigitValue(digits[0]) == 0;
  }

  lemma {:induction false} PowGrows(m: nat, n: nat)
    requires m <= n
    ensures Pow10(m) <= Pow10(n)
    decreases n
  {
    if m == n {
    } else {
      PowGrows(m, n - 1);
    }
  }

  // Of two numbers of the same length, the one with the larger first digit
  // that differs is the larger.
  lemma {:induction false} SameLength(x: string, y: string)
    requires |x| == |y|
    requires AllIn(x, true) && AllIn(y, true)
    ensures CompareText(x, y) == Sign(Value(x) - Value(y))
  {
    if x == "" {
    } else {
      ValueFront(x);
      ValueFront(y);
      ValueBounds(x[1..]);
      ValueBounds(y[1..]);
      if x[0] == y[0] {
        SameLength(x[1..], y[1..]);
      } else {
        var d, e, p := DigitValue(x[0]), DigitValue(y[0]), Pow10(|x| - 1);
        if d < e {
          Leading(d, e, p, Value(x[1..]), Value(y[1..]));
        } else {
          Leading(e, d, p, Value(y[1..]), Value(x[1..]));
        }
      }
    }
  }

  lemma Leading(d: nat, e: nat, p: nat, u: nat, v: nat)
    requires d < e && u < p
    ensures d * p + u < e * p + v
  {
    assert (d + 1) * p <= e * p;
  }

  // A longer number without leading zeros is the larger.
  lemma Longer(x: string, y: string)
    requires AllIn(x, true)
    requires AllIn(y, true)
    requires |x| > |y| && x[0] != '0'
    ensures Value(x) > Value(y)
  {
    ValueBounds(x);
    ValueBounds(y);
    PowGrows(|y|, |x| - 1);
  }

  // ------------------------------------------------------------ the loops

  lemma {:induction false} SkipSeparators(s: string, i: nat, j: nat)
    requires i <= j <= |s| && forall k :: i <= k < j ==> !IsAlnum(s[k])
    ensures Segments(s[i..]) == Segments(s[j..])
    decreases j - i
  {
    if i == j {
    } else {
      assert s[i..][1..] == s[i + 1..];
      SkipSeparators(s, i + 1, j);
    }
  }

  lemma {:induction false} RunIs(s: string, numeric: bool, n: nat)
    requires n <= |s| && forall k :: 0 <= k < n ==> InRun(s[k], numeric)
    requires n < |s| ==> !InRun(s[n], numeric)
    ensures Run(s, numeric) == n
  {
    if n == 0 {
    } else {
      RunIs(s[1..], numeric, n - 1);
    }
  }

  lemma NextSegment(s: string, i: nat, j: nat, numeric: bool)
    requires i < j <= |s| && forall k :: i <= k < j ==> InRun(s[k], numeric)
    requires j < |s| ==> !InRun(s[j], numeric)
    ensures AllIn(s[i..j], numeric) && SegmentOf(s[i..j], numeric).Digits? == numeric
    ensures Segments(s[i..]) == [SegmentOf(s[i..j], numeric)] + Segments(s[j..])
  {
    var t := s[i..];
    assert t[0] == s[i];
    assert numeric == IsDigit(t[0]);
    RunIs(t, numeric, j - i);
    assert t[..j - i] == s[i..j] && t[j - i..] == s[j..];
  }

  // A segment exists, and is of the other kind.
  lemma OtherKind(s: string, i: nat, numeric: bool)
    requires i < |s| && IsAlnum(s[i]) && !InRun(s[i], numeric)
    ensures Segments(s[i..]) != [] && Segments(s[i..])[0].Digits? == !numeric
  {
    assert s[i..][0] == s[i];
  }

  lemma CompareCons(x: Segment, a: seq<Segment>, y: Segment, b: seq<Segment>)
    ensures CompareSegments([x] + a, [y] + b) ==
      if CompareSegment(x, y) != 0 then CompareSegment(x, y) else CompareSegments(a, b)
  {
    hide CompareSegment;
    assert ([x] + a)[1..] == a && ([y] + b)[1..] == b;
  }

  method CompareKernelVersions(a: string, b: string) returns (c: int)
    ensures c == CompareVersions(a, b)
  {
    hide Segments, CompareSegments, CompareSegment, IsAlnum, InRun, SegmentOf;
    if a == b {
      VersionsOrder(a, b, b);
      return 0;
    }
    var i, j := 0, 0;
    ghost var goal := CompareVersions(a, b);
    assert a[0..] == a && b[0..] == b;
    while i < |a| || j < |b|
      invariant 0 <= i <= |a| && 0 <= j <= |b|
      invariant CompareSegments(Segments(a[i..]), Segments(b[j..])) == goal
      decreases |a| - i + |b| - j
    {
      i := SkipFrom(a, i);
      j := SkipFrom(b, j);
      if i >= |a| || j >= |b| {
        break;
      }
      var aStart, bStart := i, j;
      var numeric := IsDigit(a[i]);
      AlnumKind(a[i]);
      AlnumKind(b[j]);
      i := RunFrom(a, i, numeric);
      j := RunFrom(b, j, numeric);
      var aSeg, bSeg := a[aStart..i], b[bStart..j];
      NextSegment(a, aStart, i, numeric);
      if |bSeg| == 0 {
        OtherKind(b, j, numeric);
        assert Segments(a[aStart..])[0] == SegmentOf(aSeg, numeric);
        KindsDiffer(Segments(a[aStart..]), Segments(b[j..]), numeric);
        return if numeric then 1 else -1;
      }
      NextSegment(b, bStart, j, numeric);
      CompareCons(SegmentOf(aSeg, numeric), Segments(a[i..]), SegmentOf(bSeg, numeric), Segments(b[j..]));
      var d := CompareRuns(aSeg, bSeg, numeric);
      if d != 0 {
        return d;
      }
    }
    AtEnd(a, i, b, j);
    if i >= |a| && j >= |b| {
      c := 0;
    } else if i >= |a| {
      c := -1;
    } else {
      c := 1;
    }
  }

  lemma AlnumKind(c: char)
    ensures IsAlnum(c) ==> InRun(c, IsDigit(c))
    ensures IsAlnum(c) && !InRun(c, true) ==> InRun(c, false)
  {
  }

  lemma KindsDiffer(a: seq<Segment>, b: seq<Segment>, numeric: bool)
    requires a != [] && b != [] && a[0].Digits? == numeric && b[0].Digits? == !numeric
    ensures CompareSegments(a, b) == if numeric then 1 else -1
  {
  }

  // Neither text has anything left to compare, or one of them has not.
  lemma AtEnd(a: string, i: nat, b: string, j: nat)
    requires i <= |a| && j <= |b| && (i == |a| || j == |b|)
    requires i < |a| ==> IsAlnum(a[i])
    requires j < |b| ==> IsAlnum(b[j])
    ensures CompareSegments(Segments(a[i..]), Segments(b[j..])) ==
      if i >= |a| && j >= |b| then 0 else if i >= |a| then -1 else 1
  {
    if i < |a| {
      OtherKind(a, i, !IsDigit(a[i]));
    }
    if j < |b| {
      OtherKind(b, j, !IsDigit(b[j]));
    }
  }

  // The index of the next letter or digit.
  method SkipFrom(s: string, i: nat) returns (j: nat)
    requires i <= |s|
    ensures i <= j <= |s| && (j < |s| ==> IsAlnum(s[j]))
    ensures Segments(s[j..]) == Segments(s[i..])
  {
    j := i;
    while j < |s| && !IsAlnum(s[j])
      invariant i <= j <= |s| && forall k :: i <= k < j ==> !IsAlnum(s[k])
    {
      j := j + 1;
    }
    SkipSeparators(s, i, j);
  }

  // The end of the run of digits, or of letters, that begins at i.
  method RunFrom(s: string, i: nat, numeric: bool) returns (j: nat)
    requires i <= |s|
    ensures i <= j <= |s|
    ensures forall k :: i <= k < j ==> InRun(s[k], numeric)
    ensures j < |s| ==> !InRun(s[j], numeric)
    ensures i < |s| && InRun(s[i], numeric) ==> i < j
  {
    j := i;
    while j < |s| && InRun(s[j], numeric)
      invariant i <= j <= |s| && forall k :: i <= k < j ==> InRun(s[k], numeric)
    {
      j := j + 1;
    }
  }

  // Leading zeros do not count; then the longer run of digits is the larger
  // number, and runs of the same length compare as text.
  method CompareRuns(aSeg: string, bSeg: string, numeric: bool) returns (c: int)
    requires AllIn(aSeg, numeric) && AllIn(bSeg, numeric)
    ensures c == CompareSegment(SegmentOf(aSeg, numeric), SegmentOf(bSeg, numeric))
  {
    hide Value, CompareText, IsDigit, IsAlpha;
    var x, y := aSeg, bSeg;
    if numeric {
      ValueTrimmed(aSeg);
      ValueTrimmed(bSeg);
      x, y := TrimZeros(aSeg), TrimZeros(bSeg);
      if |x| > |y| {
        Longer(x, y);
        return 1;
      }
      if |y| > |x| {
        Longer(y, x);
        return -1;
      }
      SameLength(x, y);
    }
    c := CompareText(x, y);
  }
}
