// Disk layouts that are completed while they are validated
// (toolkit/tools/imagecustomizerapi/disk.go,
// toolkit/tools/imagecustomizerapi/partition.go:30-71).
module DiskLayout {
  import opened Words
  import opened Wrappers

  const MIB: Word := 0x10_0000
  const SECTOR := 512

  // The space that the GPT header and footer take up, in whole MiB.
  const GPT_HEADER: Word := RoundUpToMiB(34 * SECTOR)
  const GPT_FOOTER: Word := RoundUpToMiB(33 * SECTOR)

  function RoundUpToMiB(n: nat): Word
    requires n < 0x8000_0000_0000_0000
  {
    if n % 0x10_0000 == 0 then n else (n / 0x10_0000 + 1) * 0x10_0000
  }

  datatype Size = Unset | Grow | Explicit(bytes: Word)

  datatype PartitionType = BiosGrub | KnownType | UnknownType

  datatype Partition = Partition(name: string, kind: PartitionType, start: Option<Word>, end: Option<Word>, size: Size, filled: bool)

  datatype DiskError =
    | BadTable | BadMaxSize | BadPartition(index: nat)
    | NoPreviousEnd(index: nat) | BiosMisplaced(index: nat)
    | GrowsTooEarly(index: nat) | Overlap(index: nat)
    | NoDiskSize | HeaderOverlap | DiskTooSmall

  datatype Layout = Layout(isGpt: bool, maxSize: Option<Word>, parts: seq<Partition>)

  // A validated layout: what it has become, and what is wrong with it.
  datatype Outcome = Outcome(err: Option<DiskError>, layout: Layout)

  // --------------------------------------------------------- one partition

  predicate IsGPTName(name: string) {
    |name| <= 35 && forall k :: 0 <= k < |name| ==> name[k] <= '\U{7f}'
  }

  predicate IsValidPartition(p: Partition) {
    && IsGPTName(p.name)
    && (!p.filled && p.end.Some? ==> p.size.Unset?)
    && (p.end.Some? && p.start.Some? ==> p.start.value < p.end.value)
    && (p.size.Explicit? ==> p.size.bytes > 0)
    && !p.kind.UnknownType?
  }

  function GetEnd(p: Partition): Option<Word>
    requires p.start.Some?
  {
    if p.end.Some? then p.end
    else if p.size.Explicit? then Some(Wrap(p.start.value + p.size.bytes))
    else None
  }

  function FillSizeAndEnd(p: Partition, end: Word): Partition
    requires p.start.Some?
  {
    p.(end := if p.end.None? then Some(end) else p.end,
       size := if p.size.Explicit? then p.size else Explicit(Wrap(end - p.start.value)),
       filled := true)
  }

  // ------------------------------------------------------- what is computed

  predicate HaveStarts(parts: seq<Partition>, n: nat) {
    n <= |parts| && forall k :: 0 <= k < n ==> parts[k].start.Some?
  }

  datatype Pass = Pass(err: Option<DiskError>, parts: seq<Partition>)

  // A start that is not given is the end of the partition before.
  function StartOf(parts: seq<Partition>, i: nat): Option<Word>
    requires i < |parts| && HaveStarts(parts, i)
  {
    if parts[i].start.Some? then parts[i].start
    else if i == 0 then Some(MIB)
    else GetEnd(parts[i - 1])
  }

  function FillStarts(parts: seq<Partition>, i: nat): (r: Pass)
    requires i <= |parts| && HaveStarts(parts, i)
    ensures |r.parts| == |parts|
    ensures r.err.None? ==> HaveStarts(r.parts, |parts|)
    decreases |parts| - i
  {
    if i == |parts| then Pass(None, parts)
    else
      var start := StartOf(parts, i);
      if start.None? then Pass(Some(NoPreviousEnd(i)), parts)
      else
        var next := parts[i := parts[i].(start := start)];
        if parts[i].kind.BiosGrub? && start.value != MIB then Pass(Some(BiosMisplaced(i)), next)
        else FillStarts(next, i + 1)
  }

  function FillEnds(parts: seq<Partition>, i: nat): (r: Pass)
    requires HaveStarts(parts, |parts|) && i <= |parts|
    ensures |r.parts| == |parts| && HaveStarts(r.parts, |parts|)
    decreases |parts| - i
  {
    if i + 1 >= |parts| then Pass(None, parts)
    else
      var end := GetEnd(parts[i]);
      if end.None? then Pass(Some(GrowsTooEarly(i)), parts)
      else if end.value > parts[i + 1].start.value then Pass(Some(Overlap(i)), parts)
      else FillEnds(parts[i := FillSizeAndEnd(parts[i], end.value)], i + 1)
  }

  // The space that a disk needs for its last partition.
  function RequiredSize(last: Partition): Word
    requires last.start.Some?
  {
    Wrap((if GetEnd(last).Some? then GetEnd(last).value else Wrap(last.start.value + MIB)) + GPT_FOOTER)
  }

  // The size of the disk, and the end of its last partition.
  function FillDisk(maxSize: Option<Word>, parts: seq<Partition>): Outcome
    requires HaveStarts(parts, |parts|)
  {
    var same := Layout(true, maxSize, parts);
    if parts == [] then Outcome(if maxSize.None? then Some(NoDiskSize) else None, same)
    else if parts[0].start.value < GPT_HEADER then Outcome(Some(HeaderOverlap), same)
    else
      var n := |parts| - 1;
      var end := GetEnd(parts[n]);
      if maxSize.None? then
        if end.None? then Outcome(Some(NoDiskSize), same)
        else Outcome(None, Layout(true, Some(Wrap(end.value + GPT_FOOTER)), parts[n := FillSizeAndEnd(parts[n], end.value)]))
      else if RequiredSize(parts[n]) > maxSize.value then Outcome(Some(DiskTooSmall), same)
      else
        var lastEnd := if end.Some? then end.value else Wrap(maxSize.value - GPT_FOOTER);
        Outcome(None, Layout(true, maxSize, parts[n := FillSizeAndEnd(parts[n], lastEnd)]))
  }

  predicate AllValid(parts: seq<Partition>, n: nat) {
    n <= |parts| && forall k :: 0 <= k < n ==> IsValidPartition(parts[k])
  }

  function FirstInvalid(parts: seq<Partition>): (i: nat)
    ensures i <= |parts| && AllValid(parts, i) && (i < |parts| ==> !IsValidPartition(parts[i]))
  {
    if parts == [] || !IsValidPartition(parts[0]) then 0 else 1 + FirstInvalid(parts[1..])
  }

  function Validate(l: Layout): Outcome {
    if !l.isGpt then Outcome(Some(BadTable), l)
    else if l.maxSize == Some(0) then Outcome(Some(BadMaxSize), l)
    else if !AllValid(l.parts, |l.parts|) then Outcome(Some(BadPartition(FirstInvalid(l.parts))), l)
    else
      var starts := FillStarts(l.parts, 0);
      if starts.err.Some? then Outcome(starts.err, l.(parts := starts.parts))
      else
        var ends := FillEnds(starts.parts, 0);
        if ends.err.Some? then Outcome(ends.err, l.(parts := ends.parts))
        else FillDisk(l.maxSize, ends.parts)
  }

  // -------------------------------------------------------------- the disk

  class Disk {
    var isGpt: bool
    var maxSize: Option<Word>
    const partitions: array<Partition>

    constructor (isGpt: bool, maxSize: Option<Word>, partitions: array<Partition>)
      ensures this.partitions == partitions
      ensures Contents() == Layout(isGpt, maxSize, partitions[..])
    {
      this.isGpt := isGpt;
      this.maxSize := maxSize;
      this.partitions := partitions;
    }

    function Contents(): Layout
      reads this, partitions
    {
      Layout(isGpt, maxSize, partitions[..])
    }

    // Completes the layout in place; on an error what was filled in so far stays.
    method IsValid() returns (err: Option<DiskError>)
      modifies this`maxSize, partitions
      ensures Outcome(err, Contents()) == Validate(old(Contents()))
    {
      hide FillStarts, FillEnds, FillDisk, IsValidPartition;
      if !isGpt {
        return Some(BadTable);
      }
      if maxSize.Some? && maxSize.value <= 0 {
        return Some(BadMaxSize);
      }
      err := CheckPartitions();
      if err.Some? {
        return;
      }
      err := FillPartitionStarts();
      if err.Some? {
        return;
      }
      err := FillPartitionEnds();
      if err.Some? {
        return;
      }
      err := FillDiskSize();
    }

    method CheckPartitions() returns (err: Option<DiskError>)
      ensures err == if AllValid(partitions[..], |partitions[..]|) then None else Some(BadPartition(FirstInvalid(partitions[..])))
    {
      hide IsValidPartition;
      for i := 0 to partitions.Length
        invariant forall k :: 0 <= k < i ==> IsValidPartition(partitions[k])
      {
        if !IsValidPartition(partitions[i]) {
          assert !IsValidPartition(partitions[..][i]);
          assert FirstInvalid(partitions[..]) == i;
          return Some(BadPartition(i));
        }
      }
      return None;
    }

    method FillPartitionStarts() returns (err: Option<DiskError>)
      modifies partitions
      ensures Pass(err, partitions[..]) == FillStarts(old(partitions[..]), 0)
    {
      hide GetEnd;
      for i := 0 to partitions.Length
        invariant HaveStarts(partitions[..], i)
        invariant FillStarts(partitions[..], i) == FillStarts(old(partitions[..]), 0)
      {
        ghost var before := partitions[..];
        if partitions[i].start.None? {
          if i == 0 {
            partitions[i] := partitions[i].(start := Some(MIB));
          } else {
            var prevEnd := GetEnd(partitions[i - 1]);
            if prevEnd.None? {
              return Some(NoPreviousEnd(i));
            }
            partitions[i] := partitions[i].(start := prevEnd);
          }
        }
        assert partitions[..] == before[i := before[i].(start := StartOf(before, i))];
        if partitions[i].kind.BiosGrub? {
          if partitions[i].start.value != MIB {
            return Some(BiosMisplaced(i));
          }
        }
      }
      return None;
    }

    method FillPartitionEnds() returns (err: Option<DiskError>)
      requires HaveStarts(partitions[..], |partitions[..]|)
      modifies partitions
      ensures Pass(err, partitions[..]) == FillEnds(old(partitions[..]), 0)
    {
      hide GetEnd, FillSizeAndEnd;
      var i := 0;
      while i < partitions.Length - 1
        invariant 0 <= i <= partitions.Length && HaveStarts(partitions[..], |partitions[..]|)
        invariant FillEnds(partitions[..], i) == FillEnds(old(partitions[..]), 0)
      {
        ghost var before := partitions[..];
        assert before[i].start.Some? && before[i + 1].start.Some?;
        var aEnd := GetEnd(partitions[i]);
        if aEnd.None? {
          return Some(GrowsTooEarly(i));
        }
        if aEnd.value > partitions[i + 1].start.value {
          return Some(Overlap(i));
        }
        KeepsStart(partitions[i], aEnd.value);
        partitions[i] := FillSizeAndEnd(partitions[i], aEnd.value);
        assert partitions[..] == before[i := FillSizeAndEnd(before[i], aEnd.value)];
        i := i + 1;
      }
      return None;
    }

    method FillDiskSize() returns (err: Option<DiskError>)
      requires HaveStarts(partitions[..], |partitions[..]|) && isGpt
      modifies this`maxSize, partitions
      ensures Outcome(err, Contents()) == FillDisk(old(maxSize), old(partitions[..]))
    {
      hide GetEnd, FillSizeAndEnd;
      if maxSize.None? && partitions.Length <= 0 {
        return Some(NoDiskSize);
      }
      if partitions.Length > 0 {
        ghost var before := partitions[..];
        assert before[0].start.Some?;
        if partitions[0].start.value < GPT_HEADER {
          return Some(HeaderOverlap);
        }
        var n := partitions.Length - 1;
        var last := partitions[n];
        assert last == before[n];
        var lastEnd := GetEnd(last);
        if lastEnd.None? && maxSize.None? {
          return Some(NoDiskSize);
        } else if maxSize.None? {
          maxSize := Some(Wrap(lastEnd.value + GPT_FOOTER));
          partitions[n] := FillSizeAndEnd(last, lastEnd.value);
          assert partitions[..] == before[n := FillSizeAndEnd(last, lastEnd.value)];
        } else {
          var requiredSize: Word;
          if lastEnd.None? {
            requiredSize := Wrap(last.start.value + MIB);
          } else {
            requiredSize := lastEnd.value;
          }
          requiredSize := Wrap(requiredSize + GPT_FOOTER);
          if requiredSize > maxSize.value {
            return Some(DiskTooSmall);
          }
          var end := if lastEnd.None? then Wrap(maxSize.value - GPT_FOOTER) else lastEnd.value;
          partitions[n] := FillSizeAndEnd(last, end);
          assert partitions[..] == before[n := FillSizeAndEnd(last, end)];
        }
      }
      return None;
    }
  }

  lemma KeepsStart(p: Partition, end: Word)
    requires p.start.Some?
    ensures FillSizeAndEnd(p, end).start == p.start
  {
  }
}
