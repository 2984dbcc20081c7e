/** Machine words and block sizes of PMFS (drivers/nvm-ref/pmfs/balloc.c, pmfs.h): the mask
    arithmetic that aligns a run of blocks. */
module BlockSizes {
  import opened Arithmetic
  import opened Words

  const ULONG: nat := 0x1_0000_0000_0000_0000

  /** A device holds at most 2^64 bytes, that is, 2^52 blocks of 4096 bytes. */
  const MAX_BLOCKS: nat := 0x10_0000_0000_0000

  // ----------------------------------------------------------- block sizes

  datatype BlockType = Block4K | Block2M | Block1G

  function Shift(bt: BlockType): nat {
    match bt
    case Block4K => 0
    case Block2M => 9
    case Block1G => 18
  }

  function NumBlocks(bt: BlockType): (n: nat)
    ensures n > 0
  {
    match bt
    case Block4K => 1
    case Block2M => 512
    case Block1G => 0x40000
  }

  /** A block of the region has 4096 bytes. */
  const BLOCK_BYTES: nat := 0x1000

  /** The bytes of a run, the table blk_type_to_size. */
  function RunBytes(bt: BlockType): nat {
    match bt
    case Block4K => 0x1000
    case Block2M => 0x20_0000
    case Block1G => 0x4000_0000
  }

  /** The number of blocks a request takes gives it exactly the bytes of its type, at a multiple of them. */
  lemma RunsHaveTheirBytes(bt: BlockType, base: nat)
    ensures NumBlocks(bt) * BLOCK_BYTES == RunBytes(bt)
    ensures Aligned(base, NumBlocks(bt)) ==> base * BLOCK_BYTES % RunBytes(bt) == 0
  {
    if Aligned(base, NumBlocks(bt)) {
      ModIsUnique(base * BLOCK_BYTES, RunBytes(bt), base / NumBlocks(bt), 0);
    }
  }

  /** The candidate base the source computes in the gap behind `high`,
      in 64-bit arithmetic. */
  function AlignAfter(high: nat, n: nat): nat
    requires 0 < n <= ULONG
  {
    And((high + n) % ULONG, ULONG - n)
  }

  predicate Aligned(b: nat, n: nat)
    requires n > 0
  {
    b % n == 0
  }

  /** base is the least multiple of n above high. */
  ghost predicate NextAligned(high: nat, n: nat, base: nat)
    requires n > 0
  {
    Aligned(base, n) && high < base && forall c :: high < c && Aligned(c, n) ==> base <= c
  }

  lemma RoundedUpIsNext(high: nat, n: nat)
    requires n > 0
    ensures (high + n) % n <= high + n
    ensures NextAligned(high, n, high + n - (high + n) % n)
  {
    var x := high + n;
    var q, r := x / n, x - x % n;
    assert x == n * q + x % n;
    ModIsUnique(r, n, q, 0);
    forall c | high < c && Aligned(c, n) ensures r <= c {
      MultiplesApart(c, r, n);
    }
  }

  lemma MultiplesApart(c: nat, r: nat, n: nat)
    requires n > 0 && c % n == 0 && r % n == 0
    ensures c < r ==> c + n <= r
  {
    var d, q := c / n, r / n;
    assert c == n * d && r == n * q;
    assert d < q ==> n * d + n <= n * q by {
      if d < q { MulMono(n, d + 1, q); }
    }
    assert q <= d ==> r <= c by {
      if q <= d { MulMono(n, q, d); }
    }
  }

  lemma MaskOfBlocks(x: nat, bt: BlockType)
    requires x < ULONG
    ensures And(x, ULONG - NumBlocks(bt)) == x - x % NumBlocks(bt)
  {
    Pow2Values();
    MaskRoundsDown(x, Shift(bt), 64);
  }

  /** The mask computes the least multiple of the block count above `high`. */
  lemma AlignAfterIsNext(high: nat, bt: BlockType)
    requires high < MAX_BLOCKS
    ensures NextAligned(high, NumBlocks(bt), AlignAfter(high, NumBlocks(bt)))
  {
    AlignAfterRounds(high, bt);
    RoundedUpIsNext(high, NumBlocks(bt));
  }

  lemma AlignAfterRounds(high: nat, bt: BlockType)
    requires high < MAX_BLOCKS
    ensures AlignAfter(high, NumBlocks(bt)) == high + NumBlocks(bt) - (high + NumBlocks(bt)) % NumBlocks(bt)
  {
    var x := high + NumBlocks(bt);
    ModIsUnique(x, ULONG, 0, x);
    MaskOfBlocks(x, bt);
  }

  lemma Products(unit: nat, n: nat, cap: nat)
    requires unit > 0
    ensures unit * n == n * unit && (n - 1) * unit == n * unit - unit
    ensures n > cap ==> unit * n >= cap * unit + unit
    ensures n == 0 ==> unit * n == 0
  {
    if n > cap {
      MulMono(unit, cap + 1, n);
    }
  }

  lemma CeilingDivision(size: nat, unit: nat, cap: nat)
    requires unit > 0 && 0 < size <= cap * unit
    ensures var n := (size + unit - 1) / unit;
      0 < n <= cap && (n - 1) * unit < size <= n * unit
  {
    var n := (size + unit - 1) / unit;
    assert size + unit - 1 == unit * n + (size + unit - 1) % unit;
    Products(unit, n, cap);
  }
}
