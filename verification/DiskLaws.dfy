// What an accepted disk layout looks like, and what validating it once more
// does.
module DiskLaws {
  import opened Words
  import opened Wrappers
  import opened DiskLayout

  predicate Accepted(l: Layout) {
    Validate(l).err.None?
  }

  function Filled(l: Layout): Layout {
    Validate(l).layout
  }

  // ------------------------------------------------------ what the passes do

  // r is parts with the starts filled in.
  predicate StartsFilled(parts: seq<Partition>, r: seq<Partition>) {
    && |r| == |parts|
    && forall k :: 0 <= k < |parts| ==> StartFilled(parts, r, k)
  }

  predicate StartFilled(parts: seq<Partition>, r: seq<Partition>, k: nat)
    requires k < |parts| == |r|
  {
    && r[k].start.Some?
    && r[k] == parts[k].(start := r[k].start)
    && (parts[k].start.Some? ==> r[k].start == parts[k].start)
    && (parts[k].start.None? ==>
          if k == 0 then r[k].start == Some(MIB) else r[k - 1].start.Some? && r[k].start == GetEnd(r[k - 1]))
    && (parts[k].kind.BiosGrub? ==> r[k].start == Some(MIB))
  }

  lemma {:induction false} StartsAreFilled(parts: seq<Partition>, i: nat)
    requires i <= |parts| && HaveStarts(parts, i) && FillStarts(parts, i).err.None?
    ensures forall k :: 0 <= k < i ==> FillStarts(parts, i).parts[k] == parts[k]
    ensures forall k :: i <= k < |parts| ==> StartFilled(parts, FillStarts(parts, i).parts, k)
    decreases |parts| - i
  {
    hide GetEnd;
    if i == |parts| {
    } else {
      var start := StartOf(parts, i);
      var next := parts[i := parts[i].(start := start)];
      StartsAreFilled(next, i + 1);
      var r := FillStarts(parts, i).parts;
      forall k | i <= k < |parts| ensures StartFilled(parts, r, k) {
        if k > i {
          assert StartFilled(next, r, k);
        }
      }
    }
  }

  // r is parts with all ends but the last filled in.
  predicate EndsFilled(parts: seq<Partition>, r: seq<Partition>, i: nat)
    requires HaveStarts(parts, |parts|)
  {
    && |r| == |parts|
    && (forall k :: 0 <= k < |parts| && (k < i || k + 1 == |parts|) ==> r[k] == parts[k])
    && forall k :: i <= k < |parts| - 1 ==> EndFilled(parts, r, k)
  }

  predicate EndFilled(parts: seq<Partition>, r: seq<Partition>, k: nat)
    requires HaveStarts(parts, |parts|) && k + 1 < |parts| == |r|
  {
    && GetEnd(parts[k]).Some?
    && r[k] == FillSizeAndEnd(parts[k], GetEnd(parts[k]).value)
    && GetEnd(parts[k]).value <= parts[k + 1].start.value
  }

  lemma {:induction false} EndsAreFilled(parts: seq<Partition>, i: nat)
    requires HaveStarts(parts, |parts|) && i <= |parts| && FillEnds(parts, i).err.None?
    ensures EndsFilled(parts, FillEnds(parts, i).parts, i)
    decreases |parts| - i
  {
    hide GetEnd, FillSizeAndEnd;
    if i + 1 < |parts| {
      KeepsStart(parts[i], GetEnd(parts[i]).value);
      var next := parts[i := FillSizeAndEnd(parts[i], GetEnd(parts[i]).value)];
      EndsAreFilled(next, i + 1);
      var r := FillEnds(parts, i).parts;
      forall k | i <= k < |parts| - 1 ensures EndFilled(parts, r, k) {
        if k > i {
          assert EndFilled(next, r, k);
        }
      }
    }
  }

  // ------------------------------------------------- what validation does

  // The partition p' that p has become, within the filled layout l'.
  predicate PartFilled(l: Layout, l': Layout, k: nat)
    requires k < |l.parts| == |l'.parts|
  {
    var p, p' := l.parts[k], l'.parts[k];
    && IsValidPartition(p)
    && p'.name == p.name && p'.kind == p.kind && p'.filled
    && p'.start.Some? && p'.end.Some? && p'.size.Explicit?
    && (if p.start.Some? then p'.start == p.start
        else if k == 0 then p'.start == Some(MIB)
        else p'.start == l'.parts[k - 1].end)
    && (if p.end.Some? then p'.end == p.end
        else if p.size.Explicit? then p'.end.value == Wrap(p'.start.value + p.size.bytes)
        else k + 1 == |l.parts| && l.maxSize.Some? && p'.end.value == Wrap(l.maxSize.value - GPT_FOOTER))
    && p'.size == (if p.size.Explicit? then p.size else Explicit(Wrap(p'.end.value - p'.start.value)))
    && (p.kind.BiosGrub? ==> p'.start == Some(MIB))
  }

  predicate InOrder(l': Layout) {
    && (forall k :: 0 <= k < |l'.parts| ==> l'.parts[k].start.Some? && l'.parts[k].end.Some?)
    && forall k :: 0 <= k < |l'.parts| - 1 ==> l'.parts[k].end.value <= l'.parts[k + 1].start.value
  }

  predicate DiskFilled(l: Layout, l': Layout)
    requires |l.parts| == |l'.parts| && InOrder(l')
  {
    if l.parts == [] then l'.maxSize == l.maxSize && l.maxSize.Some?
    else
      var last, last' := l.parts[|l.parts| - 1], l'.parts[|l.parts| - 1];
      && l'.parts[0].start.value >= GPT_HEADER
      && if l.maxSize.None? then (last.end.Some? || last.size.Explicit?) && l'.maxSize == Some(Wrap(last'.end.value + GPT_FOOTER))
         else
           && l'.maxSize == l.maxSize
           && l.maxSize.value >=
                if last.end.Some? || last.size.Explicit? then Wrap(last'.end.value + GPT_FOOTER)
                else Wrap(Wrap(last'.start.value + MIB) + GPT_FOOTER)
  }

  // The relation between an accepted layout and what it has become.
  predicate IsFilled(l: Layout, l': Layout) {
    && l.isGpt && l'.isGpt && l.maxSize != Some(0)
    && |l'.parts| == |l.parts|
    && (forall k :: 0 <= k < |l.parts| ==> PartFilled(l, l', k))
    && InOrder(l')
    && DiskFilled(l, l')
  }

  lemma AcceptedIsFilled(l: Layout)
    requires Accepted(l)
    ensures IsFilled(l, Filled(l))
  {
    hide *;
    var mid, ends, r := AcceptedPasses(l);
    assert l.isGpt && l.maxSize != Some(0) && r == Filled(l);
    AllFilled(l, mid, ends, r);
  }

  lemma AcceptedPasses(l: Layout) returns (mid: seq<Partition>, ends: seq<Partition>, r: Layout)
    requires Accepted(l)
    ensures l.isGpt && l.maxSize != Some(0) && AllValid(l.parts, |l.parts|)
    ensures r == Filled(l)
    ensures StartsFilled(l.parts, mid) && HaveStarts(mid, |mid|) && EndsFilled(mid, ends, 0) && HaveStarts(ends, |ends|)
    ensures FillDisk(l.maxSize, ends) == Outcome(None, r)
  {
    hide FillStarts, FillEnds, FillDisk, IsValidPartition, EndsFilled, StartFilled;
    mid := FillStarts(l.parts, 0).parts;
    StartsAreFilled(l.parts, 0);
    ends := FillEnds(mid, 0).parts;
    EndsAreFilled(mid, 0);
    r := Filled(l);
  }

  lemma AllFilled(l: Layout, mid: seq<Partition>, ends: seq<Partition>, r: Layout)
    requires l.isGpt && l.maxSize != Some(0) && AllValid(l.parts, |l.parts|)
    requires StartsFilled(l.parts, mid) && HaveStarts(mid, |mid|) && EndsFilled(mid, ends, 0) && HaveStarts(ends, |ends|)
    requires FillDisk(l.maxSize, ends) == Outcome(None, r)
    ensures IsFilled(l, r)
  {
    hide *;
    FilledLength(l, mid, ends, r);
    forall k | 0 <= k < |l.parts| ensures PartFilled(l, r, k) {
      OnePartFilled(l, mid, ends, r, k);
    }
    AllInOrder(l, mid, ends, r);
    WholeDiskFilled(l, mid, ends, r);
    IsFilledIs(l, r);
  }

  lemma IsFilledIs(l: Layout, r: Layout)
    requires l.isGpt && r.isGpt && l.maxSize != Some(0) && |r.parts| == |l.parts|
    requires forall k :: 0 <= k < |l.parts| ==> PartFilled(l, r, k)
    requires InOrder(r) && DiskFilled(l, r)
    ensures IsFilled(l, r)
  {
    hide PartFilled, InOrder, DiskFilled;
  }

  lemma FilledLength(l: Layout, mid: seq<Partition>, ends: seq<Partition>, r: Layout)
    requires StartsFilled(l.parts, mid) && HaveStarts(mid, |mid|) && EndsFilled(mid, ends, 0) && HaveStarts(ends, |ends|)
    requires FillDisk(l.maxSize, ends) == Outcome(None, r)
    ensures |l.parts| == |mid| == |ends| == |r.parts| && r.isGpt
  {
    hide GetEnd, FillSizeAndEnd, StartFilled, EndFilled;
  }

  // The last partition, whose end may come from the size of the disk.
  lemma LastFilled(maxSize: Option<Word>, ends: seq<Partition>, r: Layout)
    requires HaveStarts(ends, |ends|) && ends != [] && FillDisk(maxSize, ends) == Outcome(None, r)
    ensures |r.parts| == |ends| && forall k :: 0 <= k < |ends| - 1 ==> r.parts[k] == ends[k]
    ensures var last := ends[|ends| - 1];
      r.parts[|ends| - 1] == FillSizeAndEnd(last,
        if GetEnd(last).Some? then GetEnd(last).value
        else if maxSize.Some? then Wrap(maxSize.value - GPT_FOOTER) else 0)
    ensures GetEnd(ends[|ends| - 1]).None? ==> maxSize.Some?
  {
    hide GetEnd, FillSizeAndEnd, RequiredSize;
  }

  // A partition with its start filled in, and then its size and end.
  lemma FillIs(p: Partition, end: Word)
    requires p.start.Some? && (GetEnd(p).Some? ==> end == GetEnd(p).value)
    ensures var q := FillSizeAndEnd(p, end);
      && q.start == p.start && q.end == Some(end) && q.size.Explicit? && q.filled && q.name == p.name && q.kind == p.kind
      && q.size == (if p.size.Explicit? then p.size else Explicit(Wrap(end - p.start.value)))
    ensures GetEnd(p) == if p.end.Some? then p.end else if p.size.Explicit? then Some(Wrap(p.start.value + p.size.bytes)) else None
  {
  }

  lemma OnePartFilled(l: Layout, mid: seq<Partition>, ends: seq<Partition>, r: Layout, k: nat)
    requires AllValid(l.parts, |l.parts|)
    requires StartsFilled(l.parts, mid) && HaveStarts(mid, |mid|) && EndsFilled(mid, ends, 0) && HaveStarts(ends, |ends|)
    requires FillDisk(l.maxSize, ends) == Outcome(None, r)
    requires k < |l.parts| == |mid| == |ends| == |r.parts|
    ensures PartFilled(l, r, k)
  {
    hide GetEnd, FillSizeAndEnd, FillDisk, IsValidPartition, RequiredSize;
    LastFilled(l.maxSize, ends, r);
    assert StartFilled(l.parts, mid, k);
    var end := if GetEnd(mid[k]).Some? then GetEnd(mid[k]).value else if l.maxSize.Some? then Wrap(l.maxSize.value - GPT_FOOTER) else 0;
    assert k + 1 < |mid| ==> EndFilled(mid, ends, k);
    assert r.parts[k] == FillSizeAndEnd(mid[k], end);
    FillIs(mid[k], end);
    if k > 0 {
      assert EndFilled(mid, ends, k - 1);
      FillIs(mid[k - 1], GetEnd(mid[k - 1]).value);
    }
  }

  lemma AllInOrder(l: Layout, mid: seq<Partition>, ends: seq<Partition>, r: Layout)
    requires StartsFilled(l.parts, mid) && HaveStarts(mid, |mid|) && EndsFilled(mid, ends, 0) && HaveStarts(ends, |ends|)
    requires FillDisk(l.maxSize, ends) == Outcome(None, r)
    requires |l.parts| == |mid| == |ends| == |r.parts|
    requires forall k :: 0 <= k < |l.parts| ==> PartFilled(l, r, k)
    ensures InOrder(r)
  {
    hide GetEnd, FillSizeAndEnd, FillDisk, IsValidPartition, RequiredSize, StartFilled;
    forall k | 0 <= k < |l.parts| ensures r.parts[k].start.Some? && r.parts[k].end.Some? {
      assert PartFilled(l, r, k);
    }
    forall k | 0 <= k < |l.parts| - 1 ensures r.parts[k].end.value <= r.parts[k + 1].start.value {
      LastFilled(l.maxSize, ends, r);
      assert EndFilled(mid, ends, k);
      FillIs(mid[k], GetEnd(mid[k]).value);
      if k + 2 == |mid| {
        assert ends[k + 1] == mid[k + 1];
        StartStays(l.maxSize, ends, r);
      } else {
        assert EndFilled(mid, ends, k + 1);
        FillIs(mid[k + 1], GetEnd(mid[k + 1]).value);
      }
    }
  }

  lemma StartStays(maxSize: Option<Word>, ends: seq<Partition>, r: Layout)
    requires HaveStarts(ends, |ends|) && ends != [] && FillDisk(maxSize, ends) == Outcome(None, r)
    ensures |r.parts| == |ends| && r.parts[|ends| - 1].start == ends[|ends| - 1].start
  {
    hide FillDisk, GetEnd;
    LastFilled(maxSize, ends, r);
  }

  lemma WholeDiskFilled(l: Layout, mid: seq<Partition>, ends: seq<Partition>, r: Layout)
    requires StartsFilled(l.parts, mid) && HaveStarts(mid, |mid|) && EndsFilled(mid, ends, 0) && HaveStarts(ends, |ends|)
    requires FillDisk(l.maxSize, ends) == Outcome(None, r)
    requires |l.parts| == |mid| == |ends| == |r.parts| && InOrder(r)
    ensures DiskFilled(l, r)
  {
    hide GetEnd, FillSizeAndEnd, InOrder;
    if l.parts != [] {
      var n := |ends| - 1;
      assert ends[n] == mid[n] && StartFilled(l.parts, mid, n);
      LastFilled(l.maxSize, ends, r);
      var end := if GetEnd(ends[n]).Some? then GetEnd(ends[n]).value else Wrap(l.maxSize.value - GPT_FOOTER);
      FillIs(ends[n], end);
      FirstStart(l.maxSize, mid, ends, r);
    }
  }

  lemma FirstStart(maxSize: Option<Word>, mid: seq<Partition>, ends: seq<Partition>, r: Layout)
    requires HaveStarts(mid, |mid|) && HaveStarts(ends, |ends|) && ends != [] && FillDisk(maxSize, ends) == Outcome(None, r)
    ensures |r.parts| == |ends| && r.parts[0].start == ends[0].start && ends[0].start.value >= GPT_HEADER
  {
    hide GetEnd;
    LastFilled(maxSize, ends, r);
    StartStays(maxSize, ends, r);
  }

  // ------------------------------------------- the layout that is meant

  // Where a partition starts and ends by what is given, without any wrapping.
  function GivenStart(l: Layout, k: nat): nat
    requires k < |l.parts|
    decreases k, 0
  {
    if l.parts[k].start.Some? then l.parts[k].start.value
    else if k == 0 then 0x10_0000
    else GivenEnd(l, k - 1)
  }

  function GivenEnd(l: Layout, k: nat): nat
    requires k < |l.parts|
    decreases k, 1
  {
    var p := l.parts[k];
    if p.end.Some? then p.end.value
    else if p.size.Explicit? then GivenStart(l, k) + p.size.bytes
    else if l.maxSize.Some? && l.maxSize.value >= 0x10_0000 then l.maxSize.value - 0x10_0000
    else 0
  }

  predicate HasOwnEnd(p: Partition) {
    p.end.Some? || p.size.Explicit?
  }

  // No sum is above 64 bits: no start plus size, and not the end of the last
  // partition plus the GPT footer (nor its start plus 1 MiB plus the footer).
  predicate NoWrap(l: Layout) {
    && (forall k :: 0 <= k < |l.parts| && l.parts[k].end.None? && l.parts[k].size.Explicit? ==> GivenEnd(l, k) < WRAP)
    && (l.parts != [] ==>
          var n := |l.parts| - 1;
          if HasOwnEnd(l.parts[n]) then GivenEnd(l, n) + 0x10_0000 < WRAP else GivenStart(l, n) + 0x10_0000 + 0x10_0000 < WRAP)
  }

  // A partition that grows to the end of the disk.
  lemma GrowsToEnd(l: Layout, l': Layout)
    requires IsFilled(l, l') && NoWrap(l) && l.parts != [] && !HasOwnEnd(l.parts[|l.parts| - 1])
    requires l'.parts[|l.parts| - 1].start.value == GivenStart(l, |l.parts| - 1)
    ensures var n := |l.parts| - 1;
      l'.parts[n].end.value == GivenEnd(l, n) && l'.parts[n].start.value < l'.parts[n].end.value
  {
    hide IsValidPartition, GivenStart;
    var n := |l.parts| - 1;
    assert PartFilled(l, l', n);
  }

  // Without wrapping, what is filled in is what is meant.
  lemma {:induction false} FilledAsGiven(l: Layout, l': Layout, k: nat)
    requires IsFilled(l, l') && NoWrap(l) && k < |l.parts|
    ensures l'.parts[k].start == Some(GivenStart(l, k)) && l'.parts[k].end == Some(GivenEnd(l, k))
    decreases k
  {
    hide IsValidPartition, DiskFilled;
    assert PartFilled(l, l', k);
    if k == 0 {
    } else {
      FilledAsGiven(l, l', k - 1);
    }
    if !HasOwnEnd(l.parts[k]) {
      GrowsToEnd(l, l');
    }
  }

  // ---------------------------------------------------------- the main laws

  // Every filled start lies below its end.
  predicate Ascends(l': Layout) {
    forall k :: 0 <= k < |l'.parts| ==>
      l'.parts[k].start.Some? && l'.parts[k].end.Some? && l'.parts[k].start.value < l'.parts[k].end.value
  }

  // Complete, ordered, disjoint, and at least 1 MiB from both ends of the disk.
  predicate WellFormed(l': Layout) {
    && (forall k :: 0 <= k < |l'.parts| ==> IsExtent(l'.parts[k]))
    && (forall i, j :: 0 <= i < j < |l'.parts| ==> l'.parts[i].end.value <= l'.parts[j].start.value)
    && l'.maxSize.Some?
    && (l'.parts != [] ==>
          && 0x10_0000 <= l'.parts[0].start.value
          && l'.parts[|l'.parts| - 1].end.value + 0x10_0000 <= l'.maxSize.value)
  }

  predicate IsExtent(p: Partition) {
    && p.start.Some? && p.end.Some? && p.size.Explicit?
    && p.start.value < p.end.value && p.size.bytes == p.end.value - p.start.value
  }

  // Where the end is given and the start is not, the start that is filled in has
  // to lie below it.
  predicate StartFits(l: Layout, k: nat)
    requires k < |l.parts|
  {
    l.parts[k].start.None? && l.parts[k].end.Some? ==> GivenStart(l, k) < l.parts[k].end.value
  }

  // Where both the end and the size are given (only in a partition that has been
  // validated before), they have to agree.
  predicate SizeFits(l: Layout, k: nat)
    requires k < |l.parts|
  {
    l.parts[k].end.Some? && l.parts[k].size.Explicit? ==> GivenStart(l, k) + l.parts[k].size.bytes == l.parts[k].end.value
  }

  // A filled partition is an extent exactly when these two hold.
  lemma FilledExtent(l: Layout, l': Layout, k: nat)
    requires IsFilled(l, l') && NoWrap(l) && k < |l.parts|
    ensures l'.parts[k].start.Some? && l'.parts[k].end.Some?
    ensures l'.parts[k].start.value < l'.parts[k].end.value <==> StartFits(l, k)
    ensures IsExtent(l'.parts[k]) <==> StartFits(l, k) && SizeFits(l, k)
  {
    hide IsGPTName, DiskFilled, GivenStart;
    FilledAsGiven(l, l', k);
    assert PartFilled(l, l', k);
    if !HasOwnEnd(l.parts[k]) {
      GrowsToEnd(l, l');
    }
    WrapSub(l'.parts[k].end.value, l'.parts[k].start.value);
  }

  lemma {:induction false} Disjoint(l': Layout, i: nat, j: nat)
    requires InOrder(l') && Ascends(l') && i < j < |l'.parts|
    ensures l'.parts[i].end.value <= l'.parts[j].start.value
    decreases j
  {
    if i + 1 == j {
    } else {
      Disjoint(l', i, j - 1);
    }
  }

  lemma LastEndFits(l: Layout, l': Layout)
    requires IsFilled(l, l') && NoWrap(l) && l.parts != []
    ensures l'.maxSize.Some? && l'.parts[|l.parts| - 1].end.value + GPT_FOOTER <= l'.maxSize.value
  {
    hide IsValidPartition;
    FilledAsGiven(l, l', |l.parts| - 1);
    assert PartFilled(l, l', |l.parts| - 1);
  }

  // Without wrapping, an accepted layout is well formed if and only if each start
  // that is filled in lies below the end that was given (and sizes given together
  // with an end agree with it, where a partition was validated before).
  lemma AcceptedIsWellFormed(l: Layout)
    requires Accepted(l) && NoWrap(l)
    ensures WellFormed(Filled(l)) <==> forall k :: 0 <= k < |l.parts| ==> StartFits(l, k) && SizeFits(l, k)
  {
    AcceptedIsFilled(l);
    FilledIsWellFormed(l, Filled(l));
  }

  lemma FilledIsWellFormed(l: Layout, l': Layout)
    requires IsFilled(l, l') && NoWrap(l)
    ensures WellFormed(l') <==> forall k :: 0 <= k < |l.parts| ==> StartFits(l, k) && SizeFits(l, k)
  {
    hide PartFilled, StartFits, SizeFits, NoWrap;
    forall k | 0 <= k < |l.parts| ensures IsExtent(l'.parts[k]) <==> StartFits(l, k) && SizeFits(l, k) {
      FilledExtent(l, l', k);
    }
    if forall k :: 0 <= k < |l.parts| ==> StartFits(l, k) && SizeFits(l, k) {
      assert forall k :: 0 <= k < |l.parts| ==> IsExtent(l'.parts[k]);
      forall i, j | 0 <= i < j < |l'.parts| ensures l'.parts[i].end.value <= l'.parts[j].start.value {
        Disjoint(l', i, j);
      }
      if l.parts != [] {
        LastEndFits(l, l');
      }
    }
  }

  // No partition has been validated before.
  predicate Fresh(l: Layout) {
    forall k :: 0 <= k < |l.parts| ==> !l.parts[k].filled
  }

  // In a layout that is validated for the first time only the starts matter.
  lemma FreshIsWellFormed(l: Layout)
    requires Accepted(l) && Fresh(l) && NoWrap(l)
    ensures WellFormed(Filled(l)) <==> forall k :: 0 <= k < |l.parts| ==> StartFits(l, k)
  {
    AcceptedIsWellFormed(l);
    AcceptedIsFilled(l);
    hide WellFormed, Filled, Accepted, GivenStart, IsGPTName, NoWrap;
    forall k | 0 <= k < |l.parts| ensures SizeFits(l, k) {
      assert PartFilled(l, Filled(l), k);
    }
  }

  // Such a layout is accepted: the second partition starts at 3 MiB, where the
  // first one ends, but ends at 2 MiB, and its size wraps.
  lemma InvertedIsAccepted() returns (l: Layout)
    ensures Accepted(l) && Fresh(l) && NoWrap(l)
    ensures |l.parts| == 2 && !StartFits(l, 1)
    ensures |Filled(l).parts| == 2 && Filled(l).parts[1].start.value > Filled(l).parts[1].end.value
    ensures Filled(l).parts[1].size == Explicit(WRAP - MIB)
  {
    var a := Partition("a", KnownType, None, None, Explicit(2 * MIB), false);
    var b := Partition("b", KnownType, None, Some(2 * MIB), Unset, false);
    l := Layout(true, None, [a, b]);
    var a1, b1 := a.(start := Some(MIB)), b.(start := Some(3 * MIB));
    var a2 := FillSizeAndEnd(a1, 3 * MIB);
    assert l.parts[0 := a1] == [a1, b] && [a1, b][1 := b1] == [a1, b1] && [a1, b1][0 := a2] == [a2, b1];
    assert FillStarts([a1, b1], 2) == Pass(None, [a1, b1]);
    assert FillStarts([a1, b], 1) == Pass(None, [a1, b1]);
    assert FillStarts([a, b], 0) == Pass(None, [a1, b1]);
    assert FillEnds([a2, b1], 1) == Pass(None, [a2, b1]);
    assert FillEnds([a1, b1], 0) == Pass(None, [a2, b1]);
    AcceptedIsFilled(l);
  }

  // --------------------------------------------------- validating once more

  // Nothing is left to fill in.
  predicate Complete(p: Partition) {
    p.start.Some? && p.end.Some? && p.size.Explicit? && p.filled && (p.kind.BiosGrub? ==> p.start == Some(MIB))
  }

  predicate AllComplete(parts: seq<Partition>) {
    forall k :: 0 <= k < |parts| ==> Complete(parts[k])
  }

  lemma {:induction false} StartsStay(parts: seq<Partition>, i: nat)
    requires AllComplete(parts) && i <= |parts|
    ensures HaveStarts(parts, |parts|) && FillStarts(parts, i) == Pass(None, parts)
    decreases |parts| - i
  {
    if i == |parts| {
    } else {
      assert Complete(parts[i]);
      assert parts[i := parts[i].(start := parts[i].start)] == parts;
      StartsStay(parts, i + 1);
    }
  }

  lemma FillStays(p: Partition)
    requires Complete(p)
    ensures GetEnd(p) == p.end && FillSizeAndEnd(p, p.end.value) == p
  {
  }

  lemma {:induction false} EndsStay(parts: seq<Partition>, i: nat)
    requires AllComplete(parts) && i <= |parts| && HaveStarts(parts, |parts|)
    requires forall k :: 0 <= k < |parts| - 1 ==> parts[k].end.value <= parts[k + 1].start.value
    ensures FillEnds(parts, i) == Pass(None, parts)
    decreases |parts| - i
  {
    if i + 1 < |parts| {
      assert Complete(parts[i]);
      hide GetEnd, FillSizeAndEnd, Complete;
      FillStays(parts[i]);
      assert parts[i := parts[i]] == parts;
      EndsStay(parts, i + 1);
    }
  }

  lemma FilledIsComplete(l: Layout, l': Layout, k: nat)
    requires k < |l.parts| == |l'.parts| && PartFilled(l, l', k)
    ensures Complete(l'.parts[k])
    ensures IsValidPartition(l'.parts[k]) <==> l'.parts[k].start.value < l'.parts[k].end.value
  {
    hide IsGPTName;
    WrapSub(l'.parts[k].end.value, l'.parts[k].start.value);
  }

  lemma DiskStays(l: Layout, l': Layout)
    requires IsFilled(l, l') && AllComplete(l'.parts) && HaveStarts(l'.parts, |l'.parts|)
    ensures FillDisk(l'.maxSize, l'.parts) == Outcome(None, l')
  {
    hide PartFilled, InOrder;
    if l.parts != [] {
      var n := |l.parts| - 1;
      FillStays(l'.parts[n]);
      assert l'.parts[n := l'.parts[n]] == l'.parts;
      LastReaches(l, l');
    }
  }

  lemma LastReaches(l: Layout, l': Layout)
    requires IsFilled(l, l') && l.parts != []
    ensures l'.maxSize.Some? && Wrap(l'.parts[|l.parts| - 1].end.value + GPT_FOOTER) <= l'.maxSize.value
    ensures GPT_HEADER <= l'.parts[0].start.value
  {
    hide IsValidPartition;
    assert PartFilled(l, l', |l.parts| - 1);
    if l.maxSize.Some? {
      WrapSub(l.maxSize.value, GPT_FOOTER);
    }
  }

  // Validating a filled layout once more accepts it, and changes nothing,
  // exactly when every start is below its end (and the size that was filled in
  // for the disk did not wrap to zero).
  lemma SecondValidation(l: Layout)
    requires Accepted(l)
    ensures var l' := Filled(l);
      && (Accepted(l') <==> Ascends(l') && l'.maxSize != Some(0))
      && Filled(l') == l'
  {
    AcceptedIsFilled(l);
    var l' := Filled(l);
    FilledAgain(l, l');
  }

  // In terms of what was given: it is accepted once more exactly when each start
  // that is filled in lies below the end that was given.
  lemma SecondValidationByInput(l: Layout)
    requires Accepted(l) && NoWrap(l)
    ensures Accepted(Filled(l)) <==> forall k :: 0 <= k < |l.parts| ==> StartFits(l, k)
  {
    SecondValidation(l);
    AcceptedIsFilled(l);
    var l' := Filled(l);
    hide Accepted, Filled, PartFilled, StartFits, NoWrap;
    forall k | 0 <= k < |l.parts| ensures l'.parts[k].start.value < l'.parts[k].end.value <==> StartFits(l, k) {
      FilledExtent(l, l', k);
    }
    DiskSizeIsPositive(l, l');
  }

  lemma DiskSizeIsPositive(l: Layout, l': Layout)
    requires IsFilled(l, l') && NoWrap(l)
    ensures l'.maxSize != Some(0)
  {
    hide PartFilled;
    if l.parts != [] {
      LastEndFits(l, l');
    }
  }

  lemma FilledAgain(l: Layout, l': Layout)
    requires IsFilled(l, l')
    ensures Accepted(l') <==> Ascends(l') && l'.maxSize != Some(0)
    ensures Filled(l') == l'
  {
    hide PartFilled, InOrder, DiskFilled, Complete, FillStarts, FillEnds, FillDisk, IsValidPartition;
    forall k | 0 <= k < |l.parts|
      ensures Complete(l'.parts[k])
      ensures l'.parts[k].start.Some? && l'.parts[k].end.Some?
      ensures IsValidPartition(l'.parts[k]) <==> l'.parts[k].start.value < l'.parts[k].end.value
    {
      assert PartFilled(l, l', k);
      FilledIsComplete(l, l', k);
      CompleteHas(l'.parts[k]);
    }
    if AllValid(l'.parts, |l'.parts|) {
      StartsStay(l'.parts, 0);
      OrderIs(l');
      EndsStay(l'.parts, 0);
      DiskStays(l, l');
    }
  }

  lemma CompleteHas(p: Partition)
    requires Complete(p)
    ensures p.start.Some? && p.end.Some?
  {
  }

  lemma OrderIs(l': Layout)
    requires InOrder(l')
    ensures forall k :: 0 <= k < |l'.parts| ==> l'.parts[k].start.Some? && l'.parts[k].end.Some?
    ensures forall k :: 0 <= k < |l'.parts| - 1 ==> l'.parts[k].end.value <= l'.parts[k + 1].start.value
  {
  }

  // ------------------------------------------------- layouts that never wrap

  function OrZero(x: Option<Word>): nat {
    if x.Some? then x.value else 0
  }

  function Extent(p: Partition): nat {
    OrZero(p.start) + OrZero(p.end) + if p.size.Explicit? then p.size.bytes else 0
  }

  // A bound on everything the partitions say.
  function Reach(parts: seq<Partition>): nat {
    if parts == [] then MIB else Reach(parts[..|parts| - 1]) + Extent(parts[|parts| - 1])
  }

  lemma EndsWithinReach(l: Layout, l': Layout, k: nat)
    requires IsFilled(l, l') && k < |l.parts| && HasOwnEnd(l.parts[k])
    ensures GivenEnd(l, k) <= Reach(l.parts[..k + 1])
  {
    hide IsValidPartition, DiskFilled, Reach;
    ReachStep(l, k);
    StartsWithinReach(l, l', k);
  }

  lemma {:induction false} StartsWithinReach(l: Layout, l': Layout, k: nat)
    requires IsFilled(l, l') && k < |l.parts|
    ensures GivenStart(l, k) <= Reach(l.parts[..k]) + OrZero(l.parts[k].start)
    decreases k
  {
    hide IsValidPartition, DiskFilled, Reach;
    ReachStep(l, k);
    if k == 0 {
    } else {
      assert PartFilled(l, l', k - 1);
      StartsWithinReach(l, l', k - 1);
      ReachStep(l, k - 1);
    }
  }

  lemma ReachStep(l: Layout, k: nat)
    requires k < |l.parts|
    ensures Reach(l.parts[..k + 1]) == Reach(l.parts[..k]) + Extent(l.parts[k])
    ensures Reach(l.parts[..k]) >= MIB
  {
    assert l.parts[..k + 1][..k] == l.parts[..k];
    ReachLeast(l.parts[..k]);
  }

  lemma ReachLeast(parts: seq<Partition>)
    ensures Reach(parts) >= MIB
  {
  }

  lemma {:induction false} ReachMono(parts: seq<Partition>, k: nat)
    requires k <= |parts|
    ensures Reach(parts[..k]) <= Reach(parts)
    decreases |parts| - k
  {
    if k == |parts| {
      assert parts[..k] == parts;
    } else {
      ReachStep(Layout(true, None, parts), k);
      ReachMono(parts, k + 1);
    }
  }

  // No sum wraps if all the given starts, ends and sizes together, the header
  // and the footer stay below 2^64.
  lemma SmallNeverWraps(l: Layout)
    requires Accepted(l) && Reach(l.parts) + MIB + GPT_FOOTER < WRAP
    ensures NoWrap(l)
  {
    AcceptedIsFilled(l);
    var l' := Filled(l);
    hide Accepted, Filled, IsFilled, Reach, GivenStart, GivenEnd;
    forall k | 0 <= k < |l.parts| && l.parts[k].end.None? && l.parts[k].size.Explicit? ensures GivenEnd(l, k) < WRAP {
      ReachMono(l.parts, k + 1);
      EndsWithinReach(l, l', k);
    }
    if l.parts != [] {
      var n := |l.parts| - 1;
      assert l.parts[..n + 1] == l.parts;
      StartsWithinReach(l, l', n);
      ReachStep(l, n);
      if HasOwnEnd(l.parts[n]) {
        EndsWithinReach(l, l', n);
      }
    }
  }
}
