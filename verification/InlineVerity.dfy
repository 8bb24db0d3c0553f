// Sharing a partition between a file system and its verity hashes
// (toolkit/tools/imagecustomizerapi/storage.go:515-552).
module InlineVerity {
  import opened Verity
  import opened Words
  import opened Wrappers

  const DATA_BLOCK := 4096
  const HASH_BLOCK: bv32 := 4096
  const ALGORITHM := "sha256"
  const ALIGNMENT := 0x10_0000

  // The hashes that fit in a hash block.
  const HASHES := 128

  // What that many data blocks take up together with the hash tree and its
  // superblock.
  function TotalBytes(dataBlocks: nat): nat {
    DATA_BLOCK * (TreeBlocks(dataBlocks, HASHES) + 1 + dataBlocks)
  }

  // No sum wraps for the largest size that is tried.
  predicate NoWrap(partitionSize: nat) {
    TotalBytes(partitionSize / DATA_BLOCK) < WRAP
  }

  // A size for the data such that everything fits in the partition.
  predicate Fits(size: nat, partitionSize: nat) {
    size % 4096 == 0 && TotalBytes(size / 4096) <= partitionSize
  }

  lemma TotalMono(a: nat, b: nat)
    requires a <= b
    ensures TotalBytes(a) <= TotalBytes(b) && a * DATA_BLOCK < TotalBytes(a)
    ensures a < b ==> TotalBytes(a) < TotalBytes(b)
  {
    hide TreeBlocks;
    TreeMono(a, b, HASHES);
  }

  lemma HashesFit()
    ensures VerifyHashAlgorithmAndBlockSize(ALGORITHM, HASH_BLOCK).Ok?
    ensures HashesPerBlock(ALGORITHM, HASH_BLOCK) == HASHES
  {
    assert IsPowerOf2(HASH_BLOCK);
    assert HASH_BLOCK as nat / 32 == 128;
  }

  // A partition of up to 2^63 bytes never makes a product or a sum wrap.
  lemma NeverWraps(partitionSize: nat)
    requires partitionSize <= 0x8000_0000_0000_0000
    ensures NoWrap(partitionSize)
  {
    hide TreeBlocks, Levels;
    var n := partitionSize / DATA_BLOCK;
    if n == 0 {
      NoTree(HASHES);
    } else {
      TreeBound(n, HASHES);
      PowOfTwo();
      PowMono(2, 51, 63);
      LevelsBound(n, HASHES, 63);
    }
  }

  function RoundDown(size: nat, alignment: nat): (r: nat)
    requires alignment > 0
  {
    if size % alignment == 0 then size else size / alignment * alignment
  }

  lemma RoundDownIs(size: nat, alignment: nat)
    requires alignment > 0
    ensures var r := RoundDown(size, alignment);
      r % alignment == 0 && r <= size && forall m: nat :: m % alignment == 0 && m <= size ==> m <= r
  {
    var q := size / alignment;
    assert size == q * alignment + size % alignment;
    assert RoundDown(size, alignment) == q * alignment;
    MultipleOf(q, alignment);
    forall m: nat | m % alignment == 0 && m <= size ensures m <= q * alignment {
      MultipleBelow(m, q, size, alignment);
    }
  }

  lemma MultipleBelow(m: nat, q: nat, size: nat, alignment: nat)
    requires alignment > 0 && m % alignment == 0 && m <= size < (q + 1) * alignment
    ensures m <= q * alignment
  {
    var k := m / alignment;
    assert m == k * alignment;
    if k > q {
      MulMono(q + 1, k, alignment);
    }
  }

  lemma {:induction false} MultipleOf(q: nat, a: nat)
    requires a > 0
    ensures (q * a) % a == 0
  {
    if q == 0 {
    } else {
      MultipleOf(q - 1, a);
      OneMore((q - 1) * a, a);
      assert q * a == (q - 1) * a + a;
    }
  }

  lemma OneMore(n: nat, a: nat)
    requires a > 0
    ensures (n + a) % a == n % a
  {
    assert n == n / a * a + n % a;
    assert n + a == (n / a + 1) * a + n % a;
    Remainder(n + a, a, n / a + 1, n % a);
  }

  lemma Remainder(n: nat, a: nat, q: nat, r: nat)
    requires a > 0 && n == q * a + r && r < a
    ensures n % a == r
  {
    var d := n / a;
    assert n == d * a + n % a;
    if d < q {
      MulMono(d + 1, q, a);
    } else if q < d {
      MulMono(q + 1, d, a);
    }
  }

  // The bytes that the loop adds up for some number of data blocks.
  lemma LoopTotal(dataBlocks: nat, partitionSize: nat, verityBlocks: nat)
    requires NoWrap(partitionSize) && dataBlocks <= partitionSize / DATA_BLOCK
    requires verityBlocks == Wrap(TreeBlocks(dataBlocks, HASHES) + 1)
    ensures Wrap(Wrap(verityBlocks * DATA_BLOCK) + Wrap(dataBlocks * DATA_BLOCK)) == TotalBytes(dataBlocks)
  {
    hide TreeBlocks, Wrap;
    TotalMono(dataBlocks, partitionSize / DATA_BLOCK);
  }

  // The totals grow with the number of blocks.
  lemma Separates(dataBlocks: nat, partitionSize: nat)
    ensures TotalBytes(dataBlocks) <= partitionSize ==> forall d: nat :: d <= dataBlocks ==> TotalBytes(d) <= partitionSize
    ensures TotalBytes(dataBlocks) > partitionSize ==> forall d: nat :: d >= dataBlocks ==> TotalBytes(d) > partitionSize
  {
    hide TotalBytes;
    forall d: nat | d <= dataBlocks ensures TotalBytes(d) <= TotalBytes(dataBlocks) {
      TotalMono(d, dataBlocks);
    }
    forall d: nat | d >= dataBlocks ensures TotalBytes(d) >= TotalBytes(dataBlocks) {
      TotalMono(dataBlocks, d);
    }
  }

  // More blocks than the partition has never fit.
  lemma TooMany(partitionSize: nat)
    ensures forall d: nat :: d > partitionSize / DATA_BLOCK ==> TotalBytes(d) > partitionSize
  {
    hide TotalBytes;
    forall d: nat | d > partitionSize / DATA_BLOCK ensures TotalBytes(d) > partitionSize {
      TotalMono(d, d);
    }
  }

  // answer is the largest number of data blocks that fits, if any does.
  ghost predicate IsLargest(answer: nat, partitionSize: nat) {
    && (forall d: nat :: d > answer ==> TotalBytes(d) > partitionSize)
    && (answer > 0 ==> TotalBytes(answer) <= partitionSize)
  }

  // The aligned sizes that fit are those up to the largest number of blocks.
  lemma AlignedFits(answer: nat, partitionSize: nat, m: nat)
    requires IsLargest(answer, partitionSize) && m > 0 && m % ALIGNMENT == 0
    ensures Fits(m, partitionSize) <==> m <= answer * DATA_BLOCK
  {
    hide TotalBytes;
    assert m % DATA_BLOCK == 0;
    var d := m / DATA_BLOCK;
    if d <= answer {
      TotalMono(d, answer);
    }
  }

  // The result of the search, rounded down to the alignment.
  lemma RoundedFits(answer: nat, partitionSize: nat)
    requires IsLargest(answer, partitionSize)
    ensures var r := RoundDown(answer * DATA_BLOCK, ALIGNMENT);
      && r % ALIGNMENT == 0
      && (r > 0 ==> Fits(r, partitionSize))
      && forall m: nat :: m > 0 && m % ALIGNMENT == 0 && Fits(m, partitionSize) ==> m <= r
  {
    hide RoundDown, IsLargest, Fits;
    var r := RoundDown(answer * DATA_BLOCK, ALIGNMENT);
    RoundDownIs(answer * DATA_BLOCK, ALIGNMENT);
    if r > 0 {
      AlignedFits(answer, partitionSize, r);
    }
    forall m: nat | m > 0 && m % ALIGNMENT == 0 && Fits(m, partitionSize) ensures m <= r {
      AlignedFits(answer, partitionSize, m);
    }
  }

  // Binary search for the number of data blocks.
  method LargestDataBlocks(partitionSize: nat) returns (answer: nat)
    requires partitionSize < WRAP
    ensures answer <= partitionSize / DATA_BLOCK
    ensures NoWrap(partitionSize) ==> IsLargest(answer, partitionSize)
  {
    hide TotalBytes, NoWrap, TreeBlocks, Wrap, VerifyHashAlgorithmAndBlockSize, HashesPerBlock;
    var left: nat := 0;
    var right: nat := partitionSize / DATA_BLOCK;
    answer := 0;
    TooMany(partitionSize);
    while left <= right
      invariant left <= right + 1 && right <= partitionSize / DATA_BLOCK
      invariant NoWrap(partitionSize) ==> forall d: nat :: d < left ==> TotalBytes(d) <= partitionSize
      invariant NoWrap(partitionSize) ==> forall d: nat :: d > right ==> TotalBytes(d) > partitionSize
      invariant answer == if left == 0 then 0 else left - 1
      decreases right + 1 - left
    {
      var dataBlocks := left + (right - left) / 2;
      HashesFit();
      var verityBlocks := CalculateHashSizeInBlocks(dataBlocks, HASH_BLOCK, ALGORITHM);
      var totalBytes := Wrap(Wrap(verityBlocks.value * DATA_BLOCK) + Wrap(dataBlocks * DATA_BLOCK));
      if NoWrap(partitionSize) {
        LoopTotal(dataBlocks, partitionSize, verityBlocks.value);
        Separates(dataBlocks, partitionSize);
      }
      if totalBytes <= partitionSize {
        answer := dataBlocks;
        left := dataBlocks + 1;
      } else {
        if dataBlocks == 0 {
          break;
        }
        right := dataBlocks - 1;
      }
    }
  }

  // The data gets the largest aligned size that leaves room for its hashes, and
  // there is an error exactly when no aligned size does, unless a sum wraps.
  method CalculateInlineVerityDataSize(partitionSize: nat) returns (r: Result<nat, string>)
    requires partitionSize < WRAP
    ensures r.Ok? ==> r.value > 0 && r.value % 0x10_0000 == 0 && r.value <= partitionSize
    ensures NoWrap(partitionSize) && r.Ok? ==>
      && Fits(r.value, partitionSize)
      && forall m: nat :: m > 0 && m % 0x10_0000 == 0 && Fits(m, partitionSize) ==> m <= r.value
    ensures NoWrap(partitionSize) ==>
      (r.Err? <==> !exists m: nat :: m > 0 && m % 0x10_0000 == 0 && Fits(m, partitionSize))
  {
    hide Fits, IsLargest, RoundDown, NoWrap;
    var answer := LargestDataBlocks(partitionSize);
    RoundDownIs(answer * DATA_BLOCK, ALIGNMENT);
    if NoWrap(partitionSize) {
      RoundedFits(answer, partitionSize);
    }
    var dataSizeBytes := RoundDown(Wrap(answer * DATA_BLOCK), ALIGNMENT);
    if dataSizeBytes == 0 {
      return Err("partition is too small for inline verity");
    }
    return Ok(dataSizeBytes);
  }
}
