// Which disk layouts are accepted, and as what, said of what is given.
module DiskAccept {
  import opened Words
  import opened Wrappers
  import opened DiskLayout
  import opened DiskLaws

  // ------------------------------------------------------------ the conditions

  predicate NameFits(name: string) {
    |name| <= 35 && forall j :: 0 <= j < |name| ==> name[j] as int < 0x80
  }

  // What a partition has to meet by itself.
  predicate ItemFits(p: Partition) {
    && NameFits(p.name)
    && p.kind != UnknownType
    && (p.end.Some? && p.size != Unset ==> p.filled)
    && (p.start.Some? && p.end.Some? ==> p.start.value < p.end.value)
    && p.size != Explicit(0)
  }

  // What it has to meet in its place: a BIOS boot partition is at 1 MiB, and only
  // the last partition may grow, the others end before the next one starts.
  predicate PlaceFits(l: Layout, k: nat)
    requires k < |l.parts|
  {
    && (l.parts[k].kind == BiosGrub ==> GivenStart(l, k) == 0x10_0000)
    && (k + 1 < |l.parts| ==> HasOwnEnd(l.parts[k]) && GivenEnd(l, k) <= GivenStart(l, k + 1))
  }

  // The disk has a size, or its partitions say what it is; 1 MiB stays free at
  // both ends, and a last partition that grows gets 1 MiB at least.
  predicate DiskFits(l: Layout) {
    && l.isGpt && l.maxSize != Some(0)
    && if l.parts == [] then l.maxSize.Some?
       else
         var n := |l.parts| - 1;
         && GivenStart(l, 0) >= 0x10_0000
         && if HasOwnEnd(l.parts[n]) then l.maxSize.Some? ==> GivenEnd(l, n) + 0x10_0000 <= l.maxSize.value
            else l.maxSize.Some? && GivenStart(l, n) + 0x20_0000 <= l.maxSize.value
  }

  predicate Fits(l: Layout) {
    DiskFits(l) && forall k :: 0 <= k < |l.parts| ==> ItemFits(l.parts[k]) && PlaceFits(l, k)
  }

  lemma ItemIs(p: Partition)
    ensures IsValidPartition(p) <==> ItemFits(p)
  {
  }

  // ------------------------------------------------------------ what is needed

  lemma AcceptedFits(l: Layout)
    requires Accepted(l) && NoWrap(l)
    ensures Fits(l)
  {
    AcceptedIsFilled(l);
    var l' := Filled(l);
    hide *;
    FilledParts(l, l');
    FilledDisk(l, l');
    FitsIs(l);
  }

  lemma FitsIs(l: Layout)
    ensures Fits(l) <==> DiskFits(l) && forall k :: 0 <= k < |l.parts| ==> ItemFits(l.parts[k]) && PlaceFits(l, k)
  {
  }

  lemma FilledParts(l: Layout, l': Layout)
    requires IsFilled(l, l') && NoWrap(l)
    ensures forall k :: 0 <= k < |l.parts| ==> ItemFits(l.parts[k]) && PlaceFits(l, k)
  {
    forall k | 0 <= k < |l.parts| ensures ItemFits(l.parts[k]) && PlaceFits(l, k) {
      hide IsValidPartition, ItemFits, GivenStart, GivenEnd, NoWrap, DiskFilled;
      assert PartFilled(l, l', k);
      ItemIs(l.parts[k]);
      FilledAsGiven(l, l', k);
      if k + 1 < |l.parts| {
        FilledAsGiven(l, l', k + 1);
      }
    }
  }

  lemma FilledDisk(l: Layout, l': Layout)
    requires IsFilled(l, l') && NoWrap(l)
    ensures DiskFits(l)
  {
    hide PartFilled, GivenStart, GivenEnd;
    if l.parts != [] {
      FilledAsGiven(l, l', 0);
      FilledAsGiven(l, l', |l.parts| - 1);
    }
  }

  // ------------------------------------------------------------ what is enough

  // The first i partitions have got the starts that are meant.
  predicate StartedTo(l: Layout, parts: seq<Partition>, i: nat) {
    && i <= |parts| == |l.parts|
    && (forall k :: 0 <= k < i ==> IsStarted(l, parts[k], k))
    && forall k :: i <= k < |parts| ==> parts[k] == l.parts[k]
  }

  predicate IsStarted(l: Layout, p: Partition, k: nat)
    requires k < |l.parts|
  {
    p.start.Some? && p.start.value == GivenStart(l, k) && p == l.parts[k].(start := p.start)
  }

  lemma EndIsGiven(l: Layout, p: Partition, k: nat)
    requires NoWrap(l) && k < |l.parts| && IsStarted(l, p, k)
    ensures HasOwnEnd(p) <==> HasOwnEnd(l.parts[k])
    ensures if HasOwnEnd(p) then GetEnd(p).Some? && GetEnd(p).value == GivenEnd(l, k) else GetEnd(p).None?
  {
  }

  lemma StartIsGiven(l: Layout, parts: seq<Partition>, i: nat)
    requires NoWrap(l) && Fits(l) && i < |l.parts| && StartedTo(l, parts, i) && HaveStarts(parts, i)
    ensures StartOf(parts, i).Some? && StartOf(parts, i).value == GivenStart(l, i)
    ensures parts[i].kind.BiosGrub? ==> StartOf(parts, i).value == MIB
  {
    hide *;
    StartedIs(l, parts, i);
    StartOfIs(parts, i);
    FitsIs(l);
    PlaceIs(l, i);
    if i > 0 {
      PlaceIs(l, i - 1);
      EndIsGiven(l, parts[i - 1], i - 1);
    }
  }

  lemma StartedIs(l: Layout, parts: seq<Partition>, i: nat)
    requires i < |l.parts| && StartedTo(l, parts, i)
    ensures |parts| == |l.parts| && parts[i] == l.parts[i] && (i > 0 ==> IsStarted(l, parts[i - 1], i - 1))
    ensures i > 0 ==> HasOwnEnd(parts[i - 1]) == HasOwnEnd(l.parts[i - 1])
  {
    hide GivenStart;
  }

  lemma StartOfIs(parts: seq<Partition>, i: nat)
    requires i < |parts| && HaveStarts(parts, i)
    ensures i > 0 ==> parts[i - 1].start.Some?
    ensures StartOf(parts, i) == if parts[i].start.Some? then parts[i].start else if i == 0 then Some(MIB) else GetEnd(parts[i - 1])
    ensures MIB == 0x10_0000
  {
    hide GetEnd;
  }

  lemma PlaceIs(l: Layout, k: nat)
    requires k < |l.parts|
    ensures PlaceFits(l, k) ==> (l.parts[k].kind == BiosGrub ==> GivenStart(l, k) == 0x10_0000)
    ensures PlaceFits(l, k) && k + 1 < |l.parts| ==> HasOwnEnd(l.parts[k])
    ensures GivenStart(l, k) ==
      if l.parts[k].start.Some? then l.parts[k].start.value else if k == 0 then 0x10_0000 else GivenEnd(l, k - 1)
  {
    hide GivenEnd, HasOwnEnd;
  }

  lemma {:induction false} StartsGiven(l: Layout, parts: seq<Partition>, i: nat)
    requires NoWrap(l) && Fits(l) && StartedTo(l, parts, i) && HaveStarts(parts, i)
    ensures FillStarts(parts, i).err.None? && StartedTo(l, FillStarts(parts, i).parts, |l.parts|)
    decreases |l.parts| - i
  {
    hide GetEnd, NoWrap, Fits, GivenStart, StartOf;
    if i < |l.parts| {
      StartIsGiven(l, parts, i);
      StartsGiven(l, parts[i := parts[i].(start := StartOf(parts, i))], i + 1);
    }
  }

  // All starts are there, and nothing else has changed from i on.
  predicate EndedTo(l: Layout, parts: seq<Partition>, i: nat) {
    && |parts| == |l.parts|
    && (forall k :: 0 <= k < |parts| ==> parts[k].start.Some? && parts[k].start.value == GivenStart(l, k))
    && forall k :: i <= k < |parts| ==> IsStarted(l, parts[k], k)
  }

  lemma {:induction false} EndsGiven(l: Layout, parts: seq<Partition>, i: nat)
    requires NoWrap(l) && Fits(l) && EndedTo(l, parts, i) && HaveStarts(parts, |parts|) && i <= |parts| && (parts != [] ==> i < |parts|)
    ensures FillEnds(parts, i).err.None?
    ensures l.parts != [] ==> EndedTo(l, FillEnds(parts, i).parts, |l.parts| - 1)
    decreases |l.parts| - i
  {
    hide GetEnd, NoWrap, DiskFits, ItemFits, GivenStart, GivenEnd, FillSizeAndEnd, HasOwnEnd;
    if i + 1 < |l.parts| {
      assert PlaceFits(l, i);
      EndIsGiven(l, parts[i], i);
      KeepsStart(parts[i], GetEnd(parts[i]).value);
      EndsGiven(l, parts[i := FillSizeAndEnd(parts[i], GetEnd(parts[i]).value)], i + 1);
    }
  }

  lemma DiskGiven(l: Layout, parts: seq<Partition>)
    requires NoWrap(l) && DiskFits(l) && |parts| == |l.parts| && HaveStarts(parts, |parts|)
    requires l.parts != [] ==> EndedTo(l, parts, |l.parts| - 1)
    ensures FillDisk(l.maxSize, parts).err.None?
  {
    hide GetEnd, GivenStart, GivenEnd, FillSizeAndEnd, HasOwnEnd;
    if l.parts != [] {
      EndIsGiven(l, parts[|parts| - 1], |parts| - 1);
    }
  }

  lemma FittingIsAccepted(l: Layout)
    requires Fits(l) && NoWrap(l)
    ensures Accepted(l)
  {
    hide *;
    FitsIs(l);
    forall k | 0 <= k < |l.parts| ensures IsValidPartition(l.parts[k]) {
      ItemIs(l.parts[k]);
    }
    NoneStarted(l);
    StartsGiven(l, l.parts, 0);
    var starts := FillStarts(l.parts, 0).parts;
    AllStarted(l, starts);
    EndsGiven(l, starts, 0);
    DiskGiven(l, FillEnds(starts, 0).parts);
    PassesAccept(l);
  }

  lemma NoneStarted(l: Layout)
    ensures StartedTo(l, l.parts, 0) && HaveStarts(l.parts, 0)
  {
  }

  lemma AllStarted(l: Layout, parts: seq<Partition>)
    requires StartedTo(l, parts, |l.parts|)
    ensures EndedTo(l, parts, 0) && HaveStarts(parts, |parts|) && |parts| == |l.parts|
  {
    hide GivenStart;
  }

  lemma PassesAccept(l: Layout)
    requires DiskFits(l) && forall k :: 0 <= k < |l.parts| ==> IsValidPartition(l.parts[k])
    requires HaveStarts(l.parts, 0) && FillStarts(l.parts, 0).err.None?
    requires FillEnds(FillStarts(l.parts, 0).parts, 0).err.None?
    requires FillDisk(l.maxSize, FillEnds(FillStarts(l.parts, 0).parts, 0).parts).err.None?
    ensures Accepted(l)
  {
    hide IsValidPartition, FillStarts, FillEnds, FillDisk, GivenStart, GivenEnd;
  }

  // ------------------------------------------------------------ the main results

  // Without wrapping, a layout is accepted exactly when it fits.
  lemma AcceptedMeans(l: Layout)
    requires NoWrap(l)
    ensures Accepted(l) <==> Fits(l)
  {
    hide *;
    if Accepted(l) {
      AcceptedFits(l);
    }
    if Fits(l) {
      FittingIsAccepted(l);
    }
  }

  // And it becomes what is given: each partition keeps its name and type, and
  // gets its start, its end, and the size that it gave or that lies between.
  lemma FilledMeans(l: Layout)
    requires NoWrap(l) && Fits(l)
    ensures Filled(l).isGpt && |Filled(l).parts| == |l.parts|
    ensures forall k :: 0 <= k < |l.parts| ==> IsGiven(l, Filled(l).parts[k], k)
    ensures Filled(l).maxSize.Some?
    ensures Filled(l).maxSize.value ==
      if l.maxSize.Some? then l.maxSize.value else if l.parts == [] then 0 else GivenEnd(l, |l.parts| - 1) + 0x10_0000
  {
    hide *;
    FittingIsAccepted(l);
    AcceptedIsFilled(l);
    FilledPartsAre(l, Filled(l));
    FilledDiskIs(l, Filled(l));
  }

  predicate IsGiven(l: Layout, p: Partition, k: nat)
    requires k < |l.parts|
  {
    && p.name == l.parts[k].name && p.kind == l.parts[k].kind && p.filled
    && p.start.Some? && p.start.value == GivenStart(l, k)
    && p.end.Some? && p.end.value == GivenEnd(l, k)
    && (l.parts[k].size.Explicit? ==> p.size == l.parts[k].size)
    && (!l.parts[k].size.Explicit? && GivenStart(l, k) <= GivenEnd(l, k) ==> p.size == Explicit(GivenEnd(l, k) - GivenStart(l, k)))
  }

  lemma FilledPartsAre(l: Layout, l': Layout)
    requires IsFilled(l, l') && NoWrap(l)
    ensures |l'.parts| == |l.parts| && forall k :: 0 <= k < |l.parts| ==> IsGiven(l, l'.parts[k], k)
  {
    forall k | 0 <= k < |l.parts| ensures IsGiven(l, l'.parts[k], k) {
      hide IsValidPartition, GivenStart, GivenEnd, NoWrap, DiskFilled;
      assert PartFilled(l, l', k);
      FilledAsGiven(l, l', k);
    }
  }

  lemma FilledDiskIs(l: Layout, l': Layout)
    requires IsFilled(l, l') && NoWrap(l)
    ensures l'.isGpt && l'.maxSize.Some?
    ensures l'.maxSize.value ==
      if l.maxSize.Some? then l.maxSize.value else if l.parts == [] then 0 else GivenEnd(l, |l.parts| - 1) + 0x10_0000
  {
    hide PartFilled, GivenStart, GivenEnd;
    if l.parts != [] {
      FilledAsGiven(l, l', |l.parts| - 1);
    }
  }

  // The first errors: the table, the size, and the first partition that does not
  // fit by itself.
  lemma FirstErrors(l: Layout)
    ensures Validate(l).err == Some(BadTable) <==> !l.isGpt
    ensures Validate(l).err == Some(BadMaxSize) <==> l.isGpt && l.maxSize == Some(0)
    ensures forall i: nat :: Validate(l).err == Some(BadPartition(i)) <==>
      && l.isGpt && l.maxSize != Some(0) && i < |l.parts| && !ItemFits(l.parts[i])
      && forall k :: 0 <= k < i ==> ItemFits(l.parts[k])
  {
    forall k | 0 <= k < |l.parts| ensures IsValidPartition(l.parts[k]) <==> ItemFits(l.parts[k]) {
      ItemIs(l.parts[k]);
    }
    hide IsValidPartition, ItemFits, FillStarts, FillEnds, FillDisk, Validate;
    LaterErrors(l);
    var n := FirstInvalid(l.parts);
    forall i: nat ensures Validate(l).err == Some(BadPartition(i)) <==>
      && l.isGpt && l.maxSize != Some(0) && i < |l.parts| && !ItemFits(l.parts[i])
      && forall k :: 0 <= k < i ==> ItemFits(l.parts[k])
    {
    }
  }

  lemma LaterErrors(l: Layout)
    ensures !l.isGpt ==> Validate(l).err == Some(BadTable)
    ensures l.isGpt && l.maxSize == Some(0) ==> Validate(l).err == Some(BadMaxSize)
    ensures l.isGpt && l.maxSize != Some(0) && FirstInvalid(l.parts) < |l.parts| ==>
      Validate(l).err == Some(BadPartition(FirstInvalid(l.parts)))
    ensures l.isGpt && l.maxSize != Some(0) && FirstInvalid(l.parts) == |l.parts| ==>
      Validate(l).err.None? || !(Validate(l).err.value.BadTable? || Validate(l).err.value.BadMaxSize? || Validate(l).err.value.BadPartition?)
  {
    hide IsValidPartition, StartOf, GetEnd;
    if HaveStarts(l.parts, 0) {
      StartErrors(l.parts, 0);
      if FillStarts(l.parts, 0).err.None? {
        EndErrors(FillStarts(l.parts, 0).parts, 0);
      }
    }
  }

  lemma {:induction false} StartErrors(parts: seq<Partition>, i: nat)
    requires i <= |parts| && HaveStarts(parts, i)
    ensures var err := FillStarts(parts, i).err; err.None? || err.value.NoPreviousEnd? || err.value.BiosMisplaced?
    decreases |parts| - i
  {
    hide StartOf;
    if i < |parts| && StartOf(parts, i).Some? {
      StartErrors(parts[i := parts[i].(start := StartOf(parts, i))], i + 1);
    }
  }

  lemma {:induction false} EndErrors(parts: seq<Partition>, i: nat)
    requires HaveStarts(parts, |parts|) && i <= |parts|
    ensures var err := FillEnds(parts, i).err; err.None? || err.value.GrowsTooEarly? || err.value.Overlap?
    decreases |parts| - i
  {
    hide GetEnd, FillSizeAndEnd;
    if i + 1 < |parts| && GetEnd(parts[i]).Some? {
      KeepsStart(parts[i], GetEnd(parts[i]).value);
      EndErrors(parts[i := FillSizeAndEnd(parts[i], GetEnd(parts[i]).value)], i + 1);
    }
  }

  // ----------------------------------------------- what was given never changes

  predicate Keeps(p: Partition, q: Partition) {
    && q.name == p.name && q.kind == p.kind
    && (p.start.Some? ==> q.start == p.start)
    && (p.end.Some? ==> q.end == p.end)
    && (p.size.Explicit? ==> q.size == p.size)
  }

  predicate AllKept(parts: seq<Partition>, r: seq<Partition>) {
    |r| == |parts| && forall k :: 0 <= k < |parts| ==> Keeps(parts[k], r[k])
  }

  lemma KeptOnce(parts: seq<Partition>, i: nat, p: Partition)
    requires i < |parts| && Keeps(parts[i], p)
    ensures AllKept(parts, parts[i := p])
  {
  }

  lemma KeptTwice(a: seq<Partition>, b: seq<Partition>, c: seq<Partition>)
    requires AllKept(a, b) && AllKept(b, c)
    ensures AllKept(a, c)
  {
  }

  lemma {:induction false} StartsKeep(parts: seq<Partition>, i: nat)
    requires i <= |parts| && HaveStarts(parts, i)
    ensures AllKept(parts, FillStarts(parts, i).parts)
    decreases |parts| - i
  {
    hide AllKept, GetEnd;
    KeptSame(parts);
    if i < |parts| && StartOf(parts, i).Some? {
      var next := parts[i := parts[i].(start := StartOf(parts, i))];
      KeptOnce(parts, i, next[i]);
      StartsKeep(next, i + 1);
      KeptTwice(parts, next, FillStarts(next, i + 1).parts);
    }
  }

  lemma KeptSame(parts: seq<Partition>)
    ensures AllKept(parts, parts)
  {
  }

  lemma {:induction false} EndsKeep(parts: seq<Partition>, i: nat)
    requires HaveStarts(parts, |parts|) && i <= |parts|
    ensures AllKept(parts, FillEnds(parts, i).parts)
    decreases |parts| - i
  {
    hide AllKept, GetEnd;
    KeptSame(parts);
    if i + 1 < |parts| && GetEnd(parts[i]).Some? {
      var next := parts[i := FillSizeAndEnd(parts[i], GetEnd(parts[i]).value)];
      KeptOnce(parts, i, next[i]);
      EndsKeep(next, i + 1);
      KeptTwice(parts, next, FillEnds(next, i + 1).parts);
    }
  }

  lemma FilledKeeps(p: Partition, end: Word)
    requires p.start.Some?
    ensures Keeps(p, p) && Keeps(p, FillSizeAndEnd(p, end))
  {
  }

  lemma DiskKeeps(maxSize: Option<Word>, parts: seq<Partition>)
    requires HaveStarts(parts, |parts|)
    ensures AllKept(parts, FillDisk(maxSize, parts).layout.parts)
    ensures FillDisk(maxSize, parts).layout.isGpt
    ensures maxSize.Some? ==> FillDisk(maxSize, parts).layout.maxSize == maxSize
  {
    hide GetEnd, FillSizeAndEnd, Keeps;
    forall k | 0 <= k < |parts| ensures Keeps(parts[k], parts[k]) {
      FilledKeeps(parts[k], 0);
    }
    if parts != [] {
      var last := parts[|parts| - 1];
      forall end: Word ensures Keeps(last, FillSizeAndEnd(last, end)) {
        FilledKeeps(last, end);
      }
    }
  }

  // Accepted or not, whatever was given stays as it is.
  lemma GivenStays(l: Layout)
    ensures Validate(l).layout.isGpt == l.isGpt
    ensures l.maxSize.Some? ==> Validate(l).layout.maxSize == l.maxSize
    ensures AllKept(l.parts, Validate(l).layout.parts)
  {
    hide AllKept, FillStarts, FillEnds, FillDisk, AllValid, Keeps;
    KeptSame(l.parts);
    StartsKeep(l.parts, 0);
    var starts := FillStarts(l.parts, 0);
    if starts.err.None? {
      EndsKeep(starts.parts, 0);
      var ends := FillEnds(starts.parts, 0).parts;
      KeptTwice(l.parts, starts.parts, ends);
      DiskKeeps(l.maxSize, ends);
      KeptTwice(l.parts, ends, FillDisk(l.maxSize, ends).layout.parts);
    }
  }
}
