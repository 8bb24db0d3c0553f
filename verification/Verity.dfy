// The size of a dm-verity hash tree
// (toolkit/tools/internal/verityutils/verityutils.go:81-159).
module Verity {
  import opened Words
  import opened Wrappers

  // ------------------------------------------------------------ arithmetic

  // The smallest m with m * h >= n.
  function CeilDiv(n: nat, h: nat): (m: nat)
    requires h > 0
    ensures m * h >= n && (m > 0 ==> (m - 1) * h < n)
    ensures m > 0 <==> n > 0
  {
    var m := n / h;
    assert n == m * h + n % h;
    if n % h == 0 then m else m + 1
  }

  lemma CeilDivIs(n: nat, h: nat, m: nat)
    requires h > 0 && m * h >= n && (m > 0 ==> (m - 1) * h < n)
    ensures CeilDiv(n, h) == m
  {
    hide CeilDiv;
    var c := CeilDiv(n, h);
    if c < m {
      MulMono(c, m - 1, h);
    } else if m < c {
      MulMono(m, c - 1, h);
    }
  }

  lemma MulMono(a: nat, b: nat, h: nat)
    requires a <= b
    ensures a * h <= b * h
  {
  }

  lemma CeilDivMono(a: nat, b: nat, h: nat)
    requires h > 0 && a <= b
    ensures CeilDiv(a, h) <= CeilDiv(b, h)
  {
    hide CeilDiv;
    var c, d := CeilDiv(a, h), CeilDiv(b, h);
    if d < c {
      MulMono(d, c - 1, h);
    }
  }

  lemma CeilDivLess(n: nat, h: nat)
    requires n >= 2 && h >= 2
    ensures 0 < CeilDiv(n, h) < n
  {
    hide CeilDiv;
    var m := CeilDiv(n, h);
    if m >= n {
      MulMono(n - 1, m - 1, h);
      MulMono(2, h, n - 1);
    }
  }

  lemma MulSwap(x: nat, b: nat, a: nat)
    ensures x * b * a == x * (a * b)
  {
  }

  lemma MulPositive(a: nat, b: nat)
    requires a > 0 && b > 0
    ensures a * b > 0
  {
  }

  // Dividing twice, rounding up each time, is dividing once.
  lemma CeilDivTwice(n: nat, a: nat, b: nat)
    requires a > 0 && b > 0
    ensures a * b > 0 && CeilDiv(CeilDiv(n, a), b) == CeilDiv(n, a * b)
  {
    MulPositive(a, b);
    var m := CeilDiv(n, a);
    var c := CeilDiv(m, b);
    CeilDivBounds(n, a);
    CeilDivBounds(m, b);
    hide CeilDiv;
    MulMono(m, c * b, a);
    MulSwap(c, b, a);
    if c > 0 {
      MulMono((c - 1) * b, m - 1, a);
      MulSwap(c - 1, b, a);
    }
    CeilDivIs(n, a * b, c);
  }

  lemma CeilDivBounds(n: nat, h: nat)
    requires h > 0
    ensures CeilDiv(n, h) * h >= n
    ensures CeilDiv(n, h) > 0 ==> (CeilDiv(n, h) - 1) * h < n
    ensures n > 0 ==> CeilDiv(n, h) > 0
  {
    hide CeilDiv;
  }

  function Pow(b: nat, e: nat): (r: nat)
    ensures b > 0 ==> r > 0
  {
    if e == 0 then 1 else
      var p := Pow(b, e - 1);
      assert b > 0 ==> b * p > 0;
      b * p
  }

  // ---------------------------------------------------------- the hash tree

  // The loop that goes from a level to the one above comes to an end.
  predicate Converges(n: nat, h: nat) {
    h >= 2 || n <= 1
  }

  // The number of tree blocks over n blocks with h hashes in each tree block.
  function TreeBlocks(n: nat, h: nat): nat
    requires Converges(n, h)
    decreases n
  {
    if n <= 1 then 0
    else
      CeilDivLess(n, h);
      CeilDiv(n, h) + TreeBlocks(CeilDiv(n, h), h)
  }

  function Levels(n: nat, h: nat): nat
    requires Converges(n, h)
    decreases n
  {
    if n <= 1 then 0
    else
      CeilDivLess(n, h);
      1 + Levels(CeilDiv(n, h), h)
  }

  // The sum of CeilDiv(n, h^k), h^(k + 1), ... over that many levels.
  function LevelSum(n: nat, h: nat, k: nat, levels: nat): nat
    requires h > 0
    decreases levels
  {
    if levels == 0 then 0 else CeilDiv(n, Pow(h, k)) + LevelSum(n, h, k + 1, levels - 1)
  }

  // The tree has on level k as many blocks as n / h^k rounded up, up to the
  // level with one block.
  lemma TreeIsLevelSum(n: nat, h: nat)
    requires h >= 2
    ensures TreeBlocks(n, h) == LevelSum(n, h, 1, Levels(n, h))
    ensures n >= 1 ==> CeilDiv(n, Pow(h, Levels(n, h))) == 1
    ensures forall k: nat :: k < Levels(n, h) ==> CeilDiv(n, Pow(h, k)) > 1
  {
    CeilDivIs(n, 1, n);
    TreeFrom(n, h, 0);
    if n >= 1 {
      LevelsReach(n, h);
      CeilDivIs(n, Pow(h, Levels(n, h)), 1);
    }
    forall k: nat | k < Levels(n, h) ensures CeilDiv(n, Pow(h, k)) > 1 {
      LevelsReach(n, h);
      PowMono(h, k, Levels(n, h) - 1);
    }
  }

  lemma {:induction false} TreeFrom(n: nat, h: nat, k: nat)
    requires h >= 2
    ensures var m := CeilDiv(n, Pow(h, k)); TreeBlocks(m, h) == LevelSum(n, h, k + 1, Levels(m, h))
    decreases CeilDiv(n, Pow(h, k))
  {
    hide CeilDiv;
    var m := CeilDiv(n, Pow(h, k));
    if m > 1 {
      CeilDivTwice(n, Pow(h, k), h);
      assert Pow(h, k + 1) == Pow(h, k) * h;
      CeilDivLess(m, h);
      TreeFrom(n, h, k + 1);
    }
  }

  lemma {:induction false} PowMono(h: nat, a: nat, b: nat)
    requires h > 0 && a <= b
    ensures Pow(h, a) <= Pow(h, b)
    decreases b
  {
    if a == b {
    } else {
      PowMono(h, a, b - 1);
      MulMono(1, h, Pow(h, b - 1));
    }
  }

  lemma {:induction false} LevelsReach(n: nat, h: nat)
    requires h >= 2
    ensures Pow(h, Levels(n, h)) >= n
    ensures n > 1 ==> Levels(n, h) > 0 && Pow(h, Levels(n, h) - 1) < n
    decreases n
  {
    hide CeilDiv, Pow;
    PowZero(h);
    if n > 1 {
      CeilDivLess(n, h);
      var m := CeilDiv(n, h);
      LevelsReach(m, h);
      var l := Levels(m, h);
      PowNext(h, l);
      MulMono(m, Pow(h, l), h);
      if m > 1 {
        PowNext(h, l - 1);
        MulMono(Pow(h, l - 1), m - 1, h);
      }
    }
  }

  lemma PowZero(h: nat)
    ensures Pow(h, 0) == 1
  {
  }

  lemma PowNext(h: nat, e: nat)
    ensures Pow(h, e + 1) == Pow(h, e) * h
  {
  }

  // More data never needs fewer blocks.
  lemma {:induction false} TreeMono(a: nat, b: nat, h: nat)
    requires h >= 2 && a <= b
    ensures TreeBlocks(a, h) <= TreeBlocks(b, h) && Levels(a, h) <= Levels(b, h)
    decreases b
  {
    hide CeilDiv;
    if a > 1 {
      CeilDivLess(a, h);
      CeilDivLess(b, h);
      CeilDivMono(a, b, h);
      TreeMono(CeilDiv(a, h), CeilDiv(b, h), h);
    }
  }

  // Beyond one block a level, the tree is a geometric series.
  lemma {:induction false} TreeBound(n: nat, h: nat)
    requires h >= 2 && n >= 1
    ensures Levels(n, h) <= TreeBlocks(n, h)
    ensures (h - 1) * (TreeBlocks(n, h) - Levels(n, h)) <= n - 1
    decreases n
  {
    hide CeilDiv;
    if n > 1 {
      CeilDivLess(n, h);
      var m := CeilDiv(n, h);
      TreeBound(m, h);
      LevelBound(n, h, m, TreeBlocks(m, h) - Levels(m, h));
    }
  }

  lemma LevelBound(n: nat, h: nat, m: nat, x: nat)
    requires h >= 2 && m >= 1 && (m - 1) * h < n && (h - 1) * x <= m - 1
    ensures (h - 1) * (m - 1 + x) <= n - 1
  {
    assert (h - 1) * (m - 1 + x) == (m - 1) * h - (m - 1) + (h - 1) * x;
  }

  lemma {:induction false} LevelsBound(n: nat, h: nat, e: nat)
    requires h >= 2 && n <= Pow(2, e)
    ensures Levels(n, h) <= e
    decreases e
  {
    hide CeilDiv;
    if n > 1 {
      var p := Pow(2, e - 1);
      var m := CeilDiv(n, h);
      CeilDivLess(n, h);
      if m > p {
        MulMono(p, m - 1, h);
        MulMono(2, h, p);
      }
      LevelsBound(m, h, e - 1);
    }
  }

  // Up to 2^63 data blocks, no sum in the computation wraps.
  lemma TreeFits(n: nat, h: nat)
    requires h >= 2 && n <= 0x8000_0000_0000_0000
    ensures TreeBlocks(n, h) + 1 < WRAP
  {
    hide TreeBlocks, Levels;
    if n == 0 {
      NoTree(h);
    } else {
      TreeBound(n, h);
      PowOfTwo();
      LevelsBound(n, h, 63);
      MulMono(1, h - 1, TreeBlocks(n, h) - Levels(n, h));
    }
  }

  lemma NoTree(h: nat)
    requires h >= 2
    ensures TreeBlocks(0, h) == 0
  {
  }

  lemma {:induction false} PowAdd(b: nat, x: nat, y: nat)
    ensures Pow(b, x + y) == Pow(b, x) * Pow(b, y)
  {
    if x == 0 {
    } else {
      PowAdd(b, x - 1, y);
      MulAssoc(b, Pow(b, x - 1), Pow(b, y));
    }
  }

  lemma MulAssoc(a: nat, b: nat, c: nat)
    ensures a * (b * c) == a * b * c
  {
  }

  lemma SmallPowers()
    ensures Pow(2, 4) == 16 && Pow(2, 5) == 32 && Pow(2, 6) == 64 && Pow(2, 7) == 128 && Pow(2, 8) == 256
  {
  }

  lemma PowOfTwo()
    ensures Pow(2, 63) == 0x8000_0000_0000_0000
  {
    SmallPowers();
    hide Pow;
    PowAdd(2, 8, 8);
    PowAdd(2, 16, 16);
    PowAdd(2, 32, 16);
    PowAdd(2, 48, 8);
    PowAdd(2, 56, 7);
  }

  // The number of blocks on level k.
  function Level(n: nat, h: nat, k: nat): nat
    requires h > 0
  {
    if k == 0 then n else CeilDiv(Level(n, h, k - 1), h)
  }

  // A level of at most one block, where the loop stops, is reached from n
  // exactly when a block holds two hashes or there is nothing to do.
  lemma LoopEnds(n: nat, h: nat)
    requires h > 0
    ensures (exists k: nat :: Level(n, h, k) <= 1) <==> Converges(n, h)
  {
    if h == 1 {
      forall k: nat ensures Level(n, h, k) == n {
        LevelStays(n, k);
      }
      assert Level(n, h, 0) == n;
    } else {
      LevelFalls(n, h);
    }
  }

  lemma {:induction false} LevelStays(n: nat, k: nat)
    ensures Level(n, 1, k) == n
  {
    if k == 0 {
    } else {
      LevelStays(n, k - 1);
      CeilDivIs(n, 1, n);
    }
  }

  lemma LevelFalls(n: nat, h: nat)
    requires h >= 2
    ensures Level(n, h, Levels(n, h)) <= 1
  {
    LevelIs(n, h, Levels(n, h));
    LevelsReach(n, h);
    var p := Pow(h, Levels(n, h));
    CeilDivIs(n, p, if n == 0 then 0 else 1);
  }

  lemma {:induction false} LevelIs(n: nat, h: nat, k: nat)
    requires h > 0
    ensures Level(n, h, k) == CeilDiv(n, Pow(h, k))
  {
    hide CeilDiv;
    if k == 0 {
      CeilDivIs(n, 1, n);
    } else {
      LevelIs(n, h, k - 1);
      CeilDivTwice(n, Pow(h, k - 1), h);
      assert Pow(h, k) == Pow(h, k - 1) * h;
    }
  }

  // ----------------------------------------------------------- the functions

  // Block sizes are unsigned 32-bit integers.
  predicate IsPowerOf2(n: bv32) {
    n & (n - 1) == 0
  }

  function AlgorithmHashSize(algorithm: string): Result<nat, string> {
    match algorithm
    case "sha256" => Ok(32)
    case "sha384" => Ok(48)
    case "sha512" => Ok(64)
    case _ => Err("unknown hash algorithm")
  }

  function VerifyHashAlgorithmAndBlockSize(algorithm: string, hashBlockSize: bv32): Result<nat, string> {
    var hashSize := AlgorithmHashSize(algorithm);
    if hashSize.Err? then hashSize
    else if !IsPowerOf2(hashBlockSize) || hashBlockSize as nat < hashSize.value then Err("invalid hash block size")
    else hashSize
  }

  // The smallest power of two that is not below n.
  method RoundUpToPowerOf2(n: nat) returns (res: nat)
    requires n <= 0x8000_0000
    ensures exists k: nat :: res == Pow(2, k)
    ensures n <= res
    ensures forall k: nat :: n <= Pow(2, k) ==> res <= Pow(2, k)
  {
    res := 1;
    ghost var e: nat := 0;
    while res < n
      invariant res == Pow(2, e) && (e > 0 ==> Pow(2, e - 1) < n)
      decreases n - res
    {
      res := res * 2;
      e := e + 1;
    }
    forall k: nat | n <= Pow(2, k) ensures res <= Pow(2, k) {
      if k < e {
        PowMono(2, k, e - 1);
      } else {
        PowMono(2, e, k);
      }
    }
  }

  // A hash takes up a power of two in its block.
  function PaddedHashSize(algorithm: string): nat {
    if algorithm == "sha256" then 32 else 64
  }

  lemma PaddedIsLeast(algorithm: string, res: nat)
    requires AlgorithmHashSize(algorithm).Ok? && AlgorithmHashSize(algorithm).value <= res
    requires exists k: nat :: res == Pow(2, k)
    requires forall k: nat :: AlgorithmHashSize(algorithm).value <= Pow(2, k) ==> res <= Pow(2, k)
    ensures res == PaddedHashSize(algorithm)
  {
    var k: nat :| res == Pow(2, k);
    SmallPowers();
    if k > 6 {
      PowMono(2, 7, k);
    } else if k < 5 {
      PowMono(2, k, 4);
    }
  }

  function HashesIn(hashBlockSize: nat, hashSizeFull: nat): nat
    requires hashSizeFull > 0
  {
    hashBlockSize / hashSizeFull
  }

  function HashesPerBlock(algorithm: string, hashBlockSize: bv32): nat {
    HashesIn(hashBlockSize as nat, PaddedHashSize(algorithm))
  }

  // An accepted block holds at least one hash, and exactly one when it has the
  // size of a padded hash.
  lemma AcceptedBlock(algorithm: string, hashBlockSize: bv32)
    requires VerifyHashAlgorithmAndBlockSize(algorithm, hashBlockSize).Ok?
    ensures HashesPerBlock(algorithm, hashBlockSize) >= 1
    ensures HashesPerBlock(algorithm, hashBlockSize) == 1 <==> hashBlockSize as nat == PaddedHashSize(algorithm)
  {
    SizeIs(algorithm, hashBlockSize);
    hide VerifyHashAlgorithmAndBlockSize, AlgorithmHashSize, IsPowerOf2;
    PowerSizes(hashBlockSize);
  }

  // The block sizes around those of padded hashes.
  lemma PowerSizes(n: bv32)
    requires IsPowerOf2(n)
    ensures n as nat >= 48 ==> n as nat >= 64
    ensures 64 <= n as nat < 128 ==> n as nat == 64
    ensures 32 <= n as nat < 64 ==> n as nat == 32
  {
    PowerBits(n);
    hide IsPowerOf2;
    assert n as nat >= 48 <==> n >= 48;
    assert n as nat >= 64 <==> n >= 64;
    assert n as nat >= 128 <==> n >= 128;
    assert n as nat >= 32 <==> n >= 32;
    assert n as nat == 64 <==> n == 64;
    assert n as nat == 32 <==> n == 32;
  }

  lemma PowerBits(n: bv32)
    requires IsPowerOf2(n)
    ensures n >= 48 ==> n >= 64
    ensures 64 <= n < 128 ==> n == 64
    ensures 32 <= n < 64 ==> n == 32
  {
  }

  lemma SizeIs(algorithm: string, hashBlockSize: bv32)
    requires VerifyHashAlgorithmAndBlockSize(algorithm, hashBlockSize).Ok?
    ensures AlgorithmHashSize(algorithm) == VerifyHashAlgorithmAndBlockSize(algorithm, hashBlockSize)
    ensures AlgorithmHashSize(algorithm).value <= 64
    ensures IsPowerOf2(hashBlockSize)
    ensures hashBlockSize as nat >= if PaddedHashSize(algorithm) == 32 then 32 else 48
  {
    hide IsPowerOf2;
  }

  // The smallest such block: accepted, but for two data blocks the loop goes on
  // for ever.
  lemma SingleHashLoops()
    ensures VerifyHashAlgorithmAndBlockSize("sha256", 32) == Ok(32)
    ensures HashesPerBlock("sha256", 32) == 1 && !Converges(2, HashesPerBlock("sha256", 32))
    ensures forall k: nat :: Level(2, HashesPerBlock("sha256", 32), k) == 2
  {
    assert IsPowerOf2(32);
    forall k: nat ensures Level(2, 1, k) == 2 {
      LevelStays(2, k);
    }
  }

  // The blocks of the hash tree and its superblock. An accepted block size that
  // holds a single hash makes the loop run forever on more than one data block.
  method CalculateHashSizeInBlocks(dataBlocksCount: nat, hashBlockSize: bv32, algorithm: string) returns (r: Result<nat, string>)
    requires dataBlocksCount < WRAP
    requires VerifyHashAlgorithmAndBlockSize(algorithm, hashBlockSize).Ok? ==>
      Converges(dataBlocksCount, HashesPerBlock(algorithm, hashBlockSize))
    ensures r.Ok? <==> VerifyHashAlgorithmAndBlockSize(algorithm, hashBlockSize).Ok?
    ensures r.Ok? ==>
      r.value == Wrap(TreeBlocks(dataBlocksCount, HashesPerBlock(algorithm, hashBlockSize)) + 1)
  {
    hide *;
    var size := VerifyHashAlgorithmAndBlockSize(algorithm, hashBlockSize);
    if size.Err? {
      return Err(size.error);
    }
    SizeIs(algorithm, hashBlockSize);
    var hashSizeFull := RoundUpToPowerOf2(size.value);
    PaddedIsLeast(algorithm, hashSizeFull);
    HashesIs(algorithm, hashBlockSize);
    var hashesPerBlock := HashesIn(hashBlockSize as nat, hashSizeFull);
    AcceptedBlock(algorithm, hashBlockSize);
    var total := SumLevels(dataBlocksCount, hashesPerBlock);
    WrapAdd(TreeBlocks(dataBlocksCount, hashesPerBlock), 1);
    return Ok(Wrap(total + 1));
  }

  lemma HashesIs(algorithm: string, hashBlockSize: bv32)
    ensures PaddedHashSize(algorithm) > 0
    ensures HashesPerBlock(algorithm, hashBlockSize) == HashesIn(hashBlockSize as nat, PaddedHashSize(algorithm))
  {
    hide HashesIn;
  }

  // The loop over the levels.
  method SumLevels(dataBlocksCount: nat, hashesPerBlock: nat) returns (totalTreeBlocks: nat)
    requires dataBlocksCount < WRAP && hashesPerBlock >= 1 && Converges(dataBlocksCount, hashesPerBlock)
    ensures totalTreeBlocks == Wrap(TreeBlocks(dataBlocksCount, hashesPerBlock))
  {
    hide *;
    totalTreeBlocks := 0;
    var prevLevelTreeBlocks: nat := dataBlocksCount;
    ghost var goal := TreeBlocks(dataBlocksCount, hashesPerBlock);
    ghost var done: nat := 0;
    while prevLevelTreeBlocks > 1
      invariant Converges(prevLevelTreeBlocks, hashesPerBlock)
      invariant totalTreeBlocks == Wrap(done)
      invariant done + TreeBlocks(prevLevelTreeBlocks, hashesPerBlock) == goal
      decreases prevLevelTreeBlocks
    {
      TreeStep(prevLevelTreeBlocks, hashesPerBlock);
      DivMod(prevLevelTreeBlocks, hashesPerBlock);
      var levelTreeBlocks := prevLevelTreeBlocks / hashesPerBlock;
      var rem := prevLevelTreeBlocks % hashesPerBlock;
      if rem != 0 {
        levelTreeBlocks := levelTreeBlocks + 1;
      }
      WrapAdd(done, levelTreeBlocks);
      totalTreeBlocks := Wrap(totalTreeBlocks + levelTreeBlocks);
      done := done + levelTreeBlocks;
      prevLevelTreeBlocks := levelTreeBlocks;
    }
    TreeDone(prevLevelTreeBlocks, hashesPerBlock);
  }

  lemma TreeStep(n: nat, h: nat)
    requires n > 1 && h > 0 && Converges(n, h)
    ensures h >= 2 && CeilDiv(n, h) < n && Converges(CeilDiv(n, h), h)
    ensures TreeBlocks(n, h) == CeilDiv(n, h) + TreeBlocks(CeilDiv(n, h), h)
  {
    CeilDivLess(n, h);
  }

  lemma TreeDone(n: nat, h: nat)
    requires n <= 1 && Converges(n, h)
    ensures TreeBlocks(n, h) == 0
  {
  }

  lemma DivMod(n: nat, h: nat)
    requires h > 0
    ensures n / h >= 0 && CeilDiv(n, h) == n / h + (if n % h == 0 then 0 else 1)
  {
  }
}
