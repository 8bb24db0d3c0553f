// How two kernel versions compare, said of their characters.
module KernelOrder {
  import opened KernelVersion

  predicate Digit(c: char) {
    '0' <= c && c <= '9'
  }

  predicate Letter(c: char) {
    ('a' <= c && c <= 'z') || ('A' <= c && c <= 'Z')
  }

  predicate Digits(s: string) {
    s != "" && forall k :: 0 <= k < |s| ==> Digit(s[k])
  }

  predicate Letters(s: string) {
    s != "" && forall k :: 0 <= k < |s| ==> Letter(s[k])
  }

  predicate Separators(s: string) {
    forall k :: 0 <= k < |s| ==> !Digit(s[k]) && !Letter(s[k])
  }

  // No number and no word goes on from the end of p into r.
  predicate Breaks(p: string, r: string) {
    p != "" && r != "" ==>
      && !(Digit(p[|p| - 1]) && Digit(r[0]))
      && !(Letter(p[|p| - 1]) && Letter(r[0]))
  }

  // ------------------------------------------------------------- the segments

  lemma KindsAre(c: char)
    ensures InRun(c, true) <==> Digit(c)
    ensures InRun(c, false) <==> Letter(c)
    ensures IsDigit(c) <==> Digit(c)
    ensures IsAlnum(c) <==> Digit(c) || Letter(c)
    ensures !(Digit(c) && Letter(c))
  {
  }

  lemma RunOf(s: string, numeric: bool, n: nat)
    requires n <= |s| && forall k :: 0 <= k < n ==> if numeric then Digit(s[k]) else Letter(s[k])
    requires n < |s| ==> !(if numeric then Digit(s[n]) else Letter(s[n]))
    requires n > 0
    ensures AllIn(s[..n], numeric)
    ensures Segments(s) == [SegmentOf(s[..n], numeric)] + Segments(s[n..])
  {
    forall c ensures (InRun(c, true) <==> Digit(c)) && (InRun(c, false) <==> Letter(c)) {
      KindsAre(c);
    }
    hide InRun, Digit, Letter, Segments, SegmentOf;
    assert s[0..] == s && s[0..n] == s[..n];
    NextSegment(s, 0, n, numeric);
  }

  // Segments of texts between which nothing goes on.
  lemma {:induction false} SegmentsAppend(p: string, r: string)
    requires Breaks(p, r)
    ensures Segments(p + r) == Segments(p) + Segments(r)
    decreases |p|
  {
    hide *;
    if p == "" {
      assert p + r == r && Segments("") + Segments(r) == Segments(r) by {
        NothingMore();
      }
    } else if !Digit(p[0]) && !Letter(p[0]) {
      SeparatorFirst(p, r);
      SegmentsAppend(p[1..], r);
    } else {
      var n := RunFirst(p, r, Digit(p[0]));
      SegmentsAppend(p[n..], r);
    }
  }

  lemma NothingMore()
    ensures Segments("") == []
  {
  }

  lemma SeparatorFirst(p: string, r: string)
    requires p != "" && !Digit(p[0]) && !Letter(p[0]) && Breaks(p, r)
    ensures Segments(p) == Segments(p[1..]) && Segments(p + r) == Segments(p[1..] + r) && Breaks(p[1..], r)
  {
    KindsAre(p[0]);
    assert (p + r)[1..] == p[1..] + r;
    hide Digit, Letter;
  }

  lemma RunFirst(p: string, r: string, numeric: bool) returns (n: nat)
    requires p != "" && (if numeric then Digit(p[0]) else Letter(p[0])) && Breaks(p, r)
    ensures 0 < n <= |p| && Breaks(p[n..], r) && AllIn(p[..n], numeric)
    ensures Segments(p) == [SegmentOf(p[..n], numeric)] + Segments(p[n..])
    ensures Segments(p + r) == [SegmentOf(p[..n], numeric)] + Segments(p[n..] + r)
  {
    hide Segments, SegmentOf, Digit, Letter, AllIn;
    n := RunLength(p, numeric);
    RunOf(p, numeric, n);
    assert n < |p| ==> (p + r)[n] == p[n];
    RunOf(p + r, numeric, n);
    assert (p + r)[..n] == p[..n] && (p + r)[n..] == p[n..] + r;
  }

  lemma {:induction false} RunLength(s: string, numeric: bool) returns (n: nat)
    requires s != "" && if numeric then Digit(s[0]) else Letter(s[0])
    ensures 0 < n <= |s| && forall k :: 0 <= k < n ==> if numeric then Digit(s[k]) else Letter(s[k])
    ensures n < |s| ==> !(if numeric then Digit(s[n]) else Letter(s[n]))
  {
    if |s| > 1 && (if numeric then Digit(s[1]) else Letter(s[1])) {
      n := RunLength(s[1..], numeric);
      n := n + 1;
    } else {
      n := 1;
    }
  }

  // A version is made of words, numbers and separators: the separators count
  // for nothing, and each word and each number is a segment.
  lemma SegmentsMean(s: string)
    ensures Separators(s) ==> Segments(s) == []
    ensures Letters(s) ==> Segments(s) == [Segment.Letters(s)]
    ensures Digits(s) ==> AllIn(s, true) && Segments(s) == [Segment.Digits(Value(s))]
  {
    if Letters(s) {
      RunOf(s, false, |s|);
    }
    if Digits(s) {
      RunOf(s, true, |s|);
    }
    if Separators(s) {
      OnlySeparators(s);
    }
    assert s[..|s|] == s && s[|s|..] == "";
  }

  lemma {:induction false} OnlySeparators(s: string)
    requires Separators(s)
    ensures Segments(s) == []
  {
    if s != "" {
      KindsAre(s[0]);
      OnlySeparators(s[1..]);
    }
  }

  // ------------------------------------------------------------- words, numbers

  // x is before y in a dictionary.
  ghost predicate IsBefore(x: string, y: string) {
    exists k :: 0 <= k <= |x| && k <= |y| && x[..k] == y[..k] && k < |y| && (k < |x| ==> x[k] < y[k])
  }

  lemma {:induction false} TextIs(x: string, y: string)
    ensures CompareText(x, y) < 0 <==> IsBefore(x, y)
    decreases |x|
  {
    if x == "" {
      if y != "" {
        assert x[..0] == y[..0];
      }
    } else if y != "" && x[0] == y[0] {
      TextIs(x[1..], y[1..]);
      if IsBefore(x, y) {
        var k :| 0 <= k <= |x| && k <= |y| && x[..k] == y[..k] && k < |y| && (k < |x| ==> x[k] < y[k]);
        assert k > 0;
        assert x[1..][..k - 1] == x[..k][1..] && y[1..][..k - 1] == y[..k][1..];
        assert IsBefore(x[1..], y[1..]);
      }
      if IsBefore(x[1..], y[1..]) {
        var k :| 0 <= k <= |x| - 1 && k <= |y| - 1 && x[1..][..k] == y[1..][..k] && k < |y| - 1 && (k < |x| - 1 ==> x[1..][k] < y[1..][k]);
        assert x[..k + 1] == [x[0]] + x[1..][..k] && y[..k + 1] == [y[0]] + y[1..][..k];
        assert IsBefore(x, y);
      }
    } else {
      FirstCharacters(x, y);
    }
  }

  lemma FirstCharacters(x: string, y: string)
    requires x != "" && (y != "" ==> x[0] != y[0])
    ensures IsBefore(x, y) <==> y != "" && x[0] < y[0]
  {
    assert y != "" ==> x[..0] == y[..0];
    forall k | 0 < k <= |x| && k <= |y| ensures x[..k] != y[..k] {
      assert x[..k][0] == x[0] && y[..k][0] == y[0];
    }
  }

  // A smaller number, of digits without leading zeros.
  ghost predicate IsSmaller(x: string, y: string) {
    |x| < |y| || (|x| == |y| && IsBefore(x, y))
  }

  // x without the zeros in front of it.
  predicate IsTrimmed(x: string, trimmed: string) {
    && |trimmed| <= |x| && x[|x| - |trimmed|..] == trimmed
    && (forall k :: 0 <= k < |x| - |trimmed| ==> x[k] == '0')
    && (trimmed != "" ==> trimmed[0] != '0')
  }

  lemma {:induction false} TrimmedIs(x: string, trimmed: string)
    requires IsTrimmed(x, trimmed)
    ensures TrimZeros(x) == trimmed
    decreases |x|
  {
    if |trimmed| < |x| {
      assert x[1..][|x| - 1 - |trimmed|..] == trimmed;
      TrimmedIs(x[1..], trimmed);
    }
  }

  lemma NumbersAre(x: string, y: string, a: string, b: string)
    requires AllIn(x, true) && AllIn(y, true) && IsTrimmed(x, a) && IsTrimmed(y, b)
    ensures Value(x) < Value(y) <==> IsSmaller(a, b)
  {
    hide Value, CompareText, IsBefore, IsTrimmed, IsDigit;
    TrimmedIs(x, a);
    TrimmedIs(y, b);
    ValueTrimmed(x);
    ValueTrimmed(y);
    TrimmedFront(x, a);
    TrimmedFront(y, b);
    if |a| == |b| {
      SameLength(a, b);
      TextIs(a, b);
    } else if |a| > |b| {
      Longer(a, b);
    } else {
      Longer(b, a);
    }
  }

  lemma TrimmedFront(x: string, a: string)
    requires IsTrimmed(x, a)
    ensures a != "" ==> a[0] != '0'
  {
  }

  // ------------------------------------------------------------ the first difference

  lemma {:induction false} CommonFront(s: seq<Segment>, a: seq<Segment>, b: seq<Segment>)
    ensures CompareSegments(s + a, s + b) == CompareSegments(a, b)
  {
    if s == [] {
      assert s + a == a && s + b == b;
    } else {
      SegmentOrder(s[0], s[0], s[0]);
      assert s + a == [s[0]] + (s[1..] + a) && s + b == [s[0]] + (s[1..] + b);
      hide CompareSegment, CompareSegments;
      CompareCons(s[0], s[1..] + a, s[0], s[1..] + b);
      CommonFront(s[1..], a, b);
    }
  }

  // Two versions that go on after equal fronts compare like what follows.
  lemma SameFront(p: string, q: string, a: string, b: string)
    requires CompareVersions(p, q) == 0 && Breaks(p, a) && Breaks(q, b)
    ensures CompareVersions(p + a, q + b) == CompareVersions(a, b)
  {
    VersionsOrder(p, q, q);
    hide Segments, CompareSegments;
    SegmentsAppend(p, a);
    SegmentsAppend(q, b);
    CommonFront(Segments(p), Segments(a), Segments(b));
  }

  // Two versions begin with different segments.
  lemma FirstDiffers(x: string, r: string, y: string, t: string)
    requires |Segments(x)| == 1 && |Segments(y)| == 1 && Breaks(x, r) && Breaks(y, t)
    requires CompareSegment(Segments(x)[0], Segments(y)[0]) != 0
    ensures CompareVersions(x + r, y + t) == CompareSegment(Segments(x)[0], Segments(y)[0])
  {
    hide Segments, CompareSegment;
    SegmentsAppend(x, r);
    SegmentsAppend(y, t);
    assert Segments(x) == [Segments(x)[0]] && Segments(y) == [Segments(y)[0]];
    hide CompareSegments;
    CompareCons(Segments(x)[0], Segments(r), Segments(y)[0], Segments(t));
  }

  // After equal fronts two different words decide: the one that is before the
  // other in a dictionary is the older.
  lemma WordsDecide(p: string, q: string, x: string, r: string, y: string, t: string)
    requires CompareVersions(p, q) == 0 && Breaks(p, x) && Breaks(q, y) && Breaks(x, r) && Breaks(y, t)
    requires Letters(x) && Letters(y) && x != y
    ensures CompareVersions(p + (x + r), q + (y + t)) == if IsBefore(x, y) then -1 else 1
  {
    SegmentsMean(x);
    SegmentsMean(y);
    TextIs(x, y);
    TextOrder(x, y, x);
    hide IsBefore, CompareText, Segments, Digit, Letter;
    FirstDiffers(x, r, y, t);
    hide CompareVersions;
    SameFront(p, q, x + r, y + t);
  }

  // And so do two different numbers: the smaller is the older.
  lemma NumbersDecide(p: string, q: string, x: string, r: string, y: string, t: string, a: string, b: string)
    requires CompareVersions(p, q) == 0 && Breaks(p, x) && Breaks(q, y) && Breaks(x, r) && Breaks(y, t)
    requires Digits(x) && Digits(y) && IsTrimmed(x, a) && IsTrimmed(y, b) && a != b
    ensures CompareVersions(p + (x + r), q + (y + t)) == if IsSmaller(a, b) then -1 else 1
  {
    SegmentsMean(x);
    SegmentsMean(y);
    NumbersAre(x, y, a, b);
    NumbersAre(y, x, b, a);
    OneIsSmaller(a, b);
    hide IsSmaller, Value, Segments, Digit, Letter, IsTrimmed;
    FirstDiffers(x, r, y, t);
    hide CompareVersions;
    SameFront(p, q, x + r, y + t);
  }

  lemma OneIsSmaller(a: string, b: string)
    requires a != b
    ensures IsSmaller(a, b) || IsSmaller(b, a)
  {
    hide IsBefore, CompareText;
    TextIs(a, b);
    TextIs(b, a);
    TextOrder(a, b, a);
  }

  // A number is newer than a word.
  lemma NumberIsNewer(p: string, q: string, x: string, r: string, y: string, t: string)
    requires CompareVersions(p, q) == 0 && Breaks(p, x) && Breaks(q, y) && Breaks(x, r) && Breaks(y, t)
    requires Digits(x) && Letters(y)
    ensures CompareVersions(p + (x + r), q + (y + t)) == 1
  {
    SegmentsMean(x);
    SegmentsMean(y);
    hide Value, Segments, Digit, Letter;
    FirstDiffers(x, r, y, t);
    hide CompareVersions;
    SameFront(p, q, x + r, y + t);
  }

  // A version is older than what it is followed by some word or number in, and
  // not than what only has separators more. Numbers with leading zeros, and other
  // separators between the same words and numbers, make no difference.
  lemma FrontIsOlder(p: string, q: string, r: string)
    requires CompareVersions(p, q) == 0 && Breaks(q, r)
    ensures CompareVersions(p, q + r) == if Separators(r) then 0 else -1
  {
    assert p + "" == p;
    SameFront(p, q, "", r);
    SegmentsMean(r);
    SegmentsMean("");
    if !Separators(r) {
      SomeSegment(r);
    }
  }

  lemma {:induction false} SomeSegment(r: string)
    requires !Separators(r)
    ensures Segments(r) != []
  {
    KindsAre(r[0]);
    if !Digit(r[0]) && !Letter(r[0]) {
      SomeSegment(r[1..]);
    }
  }

  // Equal fronts stay equal with the same word, a number of the same value, or
  // separators.
  lemma StaysEqual(p: string, q: string, x: string, y: string)
    requires CompareVersions(p, q) == 0 && Breaks(p, x) && Breaks(q, y)
    ensures Letters(x) && y == x ==> CompareVersions(p + x, q + y) == 0
    ensures Separators(x) && Separators(y) ==> CompareVersions(p + x, q + y) == 0
    ensures forall a :: Digits(x) && Digits(y) && IsTrimmed(x, a) && IsTrimmed(y, a) ==> CompareVersions(p + x, q + y) == 0
  {
    SameFront(p, q, x, y);
    SegmentsMean(x);
    SegmentsMean(y);
    VersionsOrder(x, y, y);
    hide CompareVersions, Segments, IsTrimmed, Digit, Letter;
    forall a | Digits(x) && Digits(y) && IsTrimmed(x, a) && IsTrimmed(y, a) ensures Value(x) == Value(y) {
      ValuesAgree(x, y, a);
    }
  }

  lemma ValuesAgree(x: string, y: string, a: string)
    requires AllIn(x, true) && AllIn(y, true) && IsTrimmed(x, a) && IsTrimmed(y, a)
    ensures Value(x) == Value(y)
  {
    hide Value;
    TrimmedIs(x, a);
    TrimmedIs(y, a);
    ValueTrimmed(x);
    ValueTrimmed(y);
  }
}
