// The sizes of hash trees in plain numbers.
module VeritySizes {
  import opened Verity
  import opened InlineVerity

  // The least number of levels that gets from n blocks to one.
  predicate AreLevels(n: nat, h: nat, levels: nat) {
    n <= Pow(h, levels) && (levels > 0 ==> Pow(h, levels - 1) < n)
  }

  // The tree has n / h^k blocks, rounded up, on each level k.
  lemma TreeMeans(n: nat, h: nat, levels: nat)
    requires h >= 2 && AreLevels(n, h, levels)
    ensures TreeBlocks(n, h) == LevelSum(n, h, 1, levels)
  {
    hide TreeBlocks, LevelSum;
    TreeIsLevelSum(n, h);
    LevelsReach(n, h);
    var l := Levels(n, h);
    NoLevels(n, h);
    if l < levels {
      PowMono(h, l, levels - 1);
    } else if levels < l {
      PowMono(h, levels, l - 1);
    }
  }

  lemma NoLevels(n: nat, h: nat)
    requires h >= 2
    ensures n <= 1 ==> Levels(n, h) == 0
  {
  }

  // A hash of 256 bits takes up 32 bytes, the longer ones take up 64; a block has
  // to be a power of two of at least that size.
  lemma HashesMean(algorithm: string, hashBlockSize: bv32)
    ensures VerifyHashAlgorithmAndBlockSize(algorithm, hashBlockSize).Ok? <==>
      || (algorithm == "sha256" && IsLargePower(hashBlockSize))
      || ((algorithm == "sha384" || algorithm == "sha512") && IsLargePower(hashBlockSize) && hashBlockSize != 0x20)
    ensures VerifyHashAlgorithmAndBlockSize(algorithm, hashBlockSize).Ok? ==>
      HashesPerBlock(algorithm, hashBlockSize) == hashBlockSize as nat / if algorithm == "sha256" then 32 else 64
  {
    Bits(hashBlockSize);
    hide IsPowerOf2, IsLargePower;
    assert hashBlockSize as nat >= 32 <==> hashBlockSize >= 32;
    assert hashBlockSize as nat >= 48 <==> hashBlockSize >= 48;
    assert hashBlockSize as nat >= 64 <==> hashBlockSize >= 64;
  }

  // 2^5, 2^6, ..., 2^31.
  predicate IsLargePower(n: bv32) {
    || n == 0x20 || n == 0x40 || n == 0x80
    || n == 0x100 || n == 0x200 || n == 0x400 || n == 0x800
    || n == 0x1000 || n == 0x2000 || n == 0x4000 || n == 0x8000
    || n == 0x1_0000 || n == 0x2_0000 || n == 0x4_0000 || n == 0x8_0000
    || n == 0x10_0000 || n == 0x20_0000 || n == 0x40_0000 || n == 0x80_0000
    || n == 0x100_0000 || n == 0x200_0000 || n == 0x400_0000 || n == 0x800_0000
    || n == 0x1000_0000 || n == 0x2000_0000 || n == 0x4000_0000 || n == 0x8000_0000
  }

  lemma Bits(n: bv32)
    ensures IsPowerOf2(n) && n >= 32 <==> IsLargePower(n)
    ensures IsPowerOf2(n) && n >= 48 ==> n >= 64
    ensures IsLargePower(n) && n != 0x20 ==> n >= 64
  {
  }

  // What so many blocks of 4 KiB take up with their hashes, 128 of them in a
  // block, and one more block.
  lemma TotalMeans(dataBlocks: nat, levels: nat)
    requires AreLevels(dataBlocks, 128, levels)
    ensures TotalBytes(dataBlocks) == 4096 * (LevelSum(dataBlocks, 128, 1, levels) + 1 + dataBlocks)
  {
    hide TreeBlocks, AreLevels, LevelSum;
    TreeMeans(dataBlocks, 128, levels);
  }
}
