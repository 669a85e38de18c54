/** The memory protection controller driver (mpc.rs): a look-up table with one bit per memory block,
    reached one 32-bit word at a time through an index register. */
module Mpcs {
  import opened Words

  function Pow2(n: nat): (r: nat)
    ensures r > 0
  {
    if n == 0 then 1 else 2 * Pow2(n - 1)
  }

  /** Word i of the table once the blocks lo..hi are marked as well. */
  function SetWord(w: Word, i: nat, lo: nat, hi: nat): Word {
    seq(32, j requires 0 <= j < 32 => w[j] || lo <= 32 * i + j < hi)
  }

  function SetRange(lut: seq<Word>, lo: nat, hi: nat): seq<Word> {
    seq(|lut|, i requires 0 <= i < |lut| => SetWord(lut[i], i, lo, hi))
  }

  predicate BlockBit(lut: seq<Word>, k: nat)
    requires k / 32 < |lut|
  {
    lut[k / 32][k % 32]
  }

  /** The range function bit by bit: block k is marked exactly when it was, or lies in the range. */
  lemma SetRangeBits(lut: seq<Word>, lo: nat, hi: nat, k: nat)
    requires k / 32 < |lut|
    ensures |SetRange(lut, lo, hi)| == |lut|
    ensures BlockBit(SetRange(lut, lo, hi), k) <==> (BlockBit(lut, k) || lo <= k < hi)
  {
  }

  lemma SetWordNext(w: Word, i: nat, lo: nat, hi: nat)
    requires lo <= hi
    ensures SetWord(w, i, lo, hi + 1) ==
            if i == hi / 32 then Or(SetWord(w, i, lo, hi), FlagAt(hi % 32, true)) else SetWord(w, i, lo, hi)
  {
    forall j | 0 <= j < 32
      ensures SetWord(w, i, lo, hi + 1)[j] == (SetWord(w, i, lo, hi)[j] || (i == hi / 32 && j == hi % 32))
    {
    }
    if i == hi / 32 {
      assert SetWord(w, i, lo, hi + 1) == Or(SetWord(w, i, lo, hi), FlagAt(hi % 32, true));
    } else {
      assert SetWord(w, i, lo, hi + 1) == SetWord(w, i, lo, hi);
    }
  }

  lemma SetWordOutside(w: Word, i: nat, lo: nat, hi: nat)
    requires hi <= 32 * i || lo >= hi
    ensures SetWord(w, i, lo, hi) == w
  {
  }

  // ----- Whole blocks ----------------------------------------------------------------------

  lemma DivMod(x: nat, d: nat)
    requires d > 0
    ensures x == d * (x / d) + x % d && 0 <= x % d < d
  {
  }

  lemma Distribute(d: nat, a: int, e: nat)
    ensures d * (a + 1 + e) == d * a + d + d * e && d * e >= 0
  {
  }

  lemma MulOrder(d: nat, a: int, b: int)
    ensures a < b ==> d * a + d <= d * b
    ensures a <= b ==> d * a <= d * b
  {
    if a < b {
      Distribute(d, a, b - a - 1);
    }
  }

  lemma QuotientUnique(x: nat, d: nat, q: nat)
    requires d > 0 && d * q <= x < d * q + d
    ensures x / d == q
  {
    DivMod(x, d);
    MulOrder(d, x / d, q);
    MulOrder(d, q, x / d);
  }

  lemma DivAtLeast(x: nat, d: nat, q: nat)
    requires d > 0
    ensures x / d >= q <==> x >= d * q
  {
    DivMod(x, d);
    MulOrder(d, x / d, q);
    MulOrder(d, q, x / d);
  }

  /** Two addresses a whole number of blocks apart are that many blocks apart. */
  lemma BlocksApart(x: nat, d: nat, m: nat)
    requires d > 0
    ensures (x + d * m) / d == x / d + m && (x + d * m) % d == x % d
  {
    DivMod(x, d);
    var q := x / d + m;
    assert d * q == d * (x / d) + d * m;
    QuotientUnique(x + d * m, d, q);
    DivMod(x + d * m, d);
  }

  lemma DifferenceOfMultiples(x: nat, y: nat, d: nat)
    requires d > 0 && x % d == 0 && y % d == 0 && x < y
    ensures y / d > x / d && y - x == d * (y / d - x / d)
  {
    DivMod(x, d);
    DivMod(y, d);
    MulOrder(d, y / d, x / d);
    assert d * (y / d) - d * (x / d) == d * (y / d - x / d);
  }

  /** The memory behind the controller, as the driver keeps it. */
  datatype Memory = Memory(base: nat, limit: nat, blockSize: nat) {
    /** `blocks` blocks from `base` on, with addresses that fit 32 bits. */
    predicate Spans(blocks: nat) {
      && blockSize > 0 && blocks > 0
      && limit + 1 == base + blockSize * blocks
      && limit < 0xFFFF_FFFF
    }

    predicate Has(a: nat) {
      base <= a <= limit
    }

    /** The guards of `set_non_secure`; the driver panics on everything else. */
    predicate Accepts(from: nat, to: nat)
      requires blockSize > 0
    {
      && base <= from <= limit && to <= limit && from < to
      && from % blockSize == 0 && (to + 1) % blockSize == 0
    }

    function Block(a: nat): nat
      requires blockSize > 0 && base <= a
    {
      (a - base) / blockSize
    }
  }

  /** An accepted range is a non-empty run of whole blocks inside the table. */
  lemma AcceptedBlocks(m: Memory, blocks: nat, from: nat, to: nat)
    requires m.Spans(blocks) && m.Accepts(from, to)
    ensures m.Block(from) < m.Block(to + 1) <= blocks
    ensures (to + 1 - m.base) % m.blockSize == (from - m.base) % m.blockSize
  {
    DifferenceOfMultiples(from, to + 1, m.blockSize);
    var n := (to + 1) / m.blockSize - from / m.blockSize;
    BlocksApart(from - m.base, m.blockSize, n);
    assert from - m.base + m.blockSize * n == to + 1 - m.base;
    DivAtLeast(to + 1 - m.base, m.blockSize, blocks + 1);
    assert m.blockSize * (blocks + 1) == m.blockSize * blocks + m.blockSize;
  }

  /** A range of addresses is a whole number of blocks counted from address zero. */
  ghost predicate WholeBlocks(from: nat, to: nat, blockSize: nat) {
    exists first, last :: 0 <= first < last && from == blockSize * first && to + 1 == blockSize * last
  }

  lemma WholeBlocksAreAligned(from: nat, to: nat, d: nat)
    requires d > 0
    ensures WholeBlocks(from, to, d) <==> from % d == 0 && (to + 1) % d == 0 && from <= to
  {
    DivMod(from, d);
    DivMod(to + 1, d);
    if WholeBlocks(from, to, d) {
      var first: nat, last: nat :| first < last && from == d * first && to + 1 == d * last;
      MulOrder(d, first, last);
      BlocksApart(0, d, first);
      BlocksApart(0, d, last);
    }
    if from % d == 0 && (to + 1) % d == 0 && from <= to {
      DifferenceOfMultiples(from, to + 1, d);
      assert from == d * (from / d) && to + 1 == d * ((to + 1) / d);
    }
  }

  /** A request is accepted exactly for a run of whole blocks, counted from address zero, all of whose
      addresses belong to the memory, and more than one. */
  lemma AcceptsExactly(m: Memory, blocks: nat, from: nat, to: nat)
    requires m.Spans(blocks)
    ensures m.Accepts(from, to) <==>
            WholeBlocks(from, to, m.blockSize) && from < to && forall a :: from <= a <= to ==> m.Has(a)
  {
    hide WholeBlocks;
    WholeBlocksAreAligned(from, to, m.blockSize);
    if from < to && forall a :: from <= a <= to ==> m.Has(a) {
      assert m.Has(from) && m.Has(to);
    }
  }

  /** Marking those blocks covers the requested addresses shifted down by the misalignment of the
      memory's own base. */
  lemma CoveredAddresses(m: Memory, blocks: nat, from: nat, to: nat, a: nat)
    requires m.Spans(blocks) && m.Accepts(from, to) && m.base <= a <= m.limit
    ensures var r := (from - m.base) % m.blockSize;
            m.Block(from) <= m.Block(a) < m.Block(to + 1) <==> from - r <= a <= to - r
  {
    AcceptedBlocks(m, blocks, from, to);
    DivMod(from - m.base, m.blockSize);
    DivMod(to + 1 - m.base, m.blockSize);
    DivAtLeast(a - m.base, m.blockSize, m.Block(from));
    DivAtLeast(a - m.base, m.blockSize, m.Block(to + 1));
  }

  /** What an accepted call changes, address by address. */
  lemma ExposedAddresses(m: Memory, lut: seq<Word>, from: nat, to: nat, a: nat)
    requires m.Spans(32 * |lut|) && m.Accepts(from, to) && m.base <= a <= m.limit
    ensures m.Block(a) / 32 < |lut|
    ensures var r := (from - m.base) % m.blockSize;
            BlockBit(SetRange(lut, m.Block(from), m.Block(to + 1)), m.Block(a)) <==>
            (BlockBit(lut, m.Block(a)) || from - r <= a <= to - r)
  {
    DivAtLeast(a - m.base, m.blockSize, 32 * |lut|);
    CoveredAddresses(m, 32 * |lut|, from, to, a);
    SetRangeBits(lut, m.Block(from), m.Block(to + 1), m.Block(a));
  }

  lemma SharedMisalignment(m: Memory, from: nat)
    requires m.blockSize > 0 && m.base <= from && from % m.blockSize == 0
    ensures (from - m.base) % m.blockSize == 0 <==> m.base % m.blockSize == 0
  {
    var d := m.blockSize;
    DivMod(from, d);
    DivMod(m.base, d);
    DivMod(from - m.base, d);
    if m.base % d == 0 {
      DivAtLeast(from, d, m.base / d);
      BlocksApart(0, d, from / d - m.base / d);
      assert d * (from / d) - d * (m.base / d) == d * (from / d - m.base / d);
    } else if (from - m.base) % d == 0 {
      BlocksApart(m.base, d, (from - m.base) / d);
    }
  }

  /** Exactly the requested addresses are covered if and only if the memory itself starts on a block
      boundary; otherwise the last `r` requested bytes stay secure and `r` bytes below the range are
      opened. */
  lemma RequestedAddressesExactly(m: Memory, blocks: nat, from: nat, to: nat)
    requires m.Spans(blocks) && m.Accepts(from, to)
    ensures (forall a :: m.base <= a <= m.limit ==>
               (m.Block(from) <= m.Block(a) < m.Block(to + 1) <==> from <= a <= to))
            <==> m.base % m.blockSize == 0
  {
    SharedMisalignment(m, from);
    var r := (from - m.base) % m.blockSize;
    if r == 0 {
      forall a | m.base <= a <= m.limit
        ensures m.Block(from) <= m.Block(a) < m.Block(to + 1) <==> from <= a <= to
      {
        CoveredAddresses(m, blocks, from, to, a);
      }
    } else {
      CoveredAddresses(m, blocks, from, to, to);
      assert !(m.Block(from) <= m.Block(to) < m.Block(to + 1));
    }
  }

  /** A memory that starts in the middle of a block: an accepted request for one block opens the
      sixteen bytes below it and leaves its last sixteen secure. */
  lemma MisalignedBaseShifts()
    ensures var m := Memory(16, 1039, 32);
            && m.Spans(32) && m.Accepts(32, 63)
            && forall a :: m.base <= a <= m.limit ==>
                 (m.Block(32) <= m.Block(a) < m.Block(64) <==> 16 <= a <= 47)
  {
    var m := Memory(16, 1039, 32);
    forall a | m.base <= a <= m.limit
      ensures m.Block(32) <= m.Block(a) < m.Block(64) <==> 16 <= a <= 47
    {
      CoveredAddresses(m, 32, 32, 63, a);
    }
  }

  lemma PositiveProduct(x: nat, y: nat)
    requires x > 0 && y > 0
    ensures x * y >= 1
  {
  }

  class Mpc {
    // The register block: two control flags, the index register and the table word it selects.
    // With `autoincrement` clear an access leaves the index where it is.
    var autoincrement: bool
    var secResp: bool
    var blkIdx: nat
    const lut: array<Word>
    const memory: Memory

    ghost predicate Valid()
      reads this
    {
      !autoincrement && lut.Length > 0 && memory.Spans(32 * lut.Length)
    }

    /** `new`: the block size and count come from registers; the request for the address range must
        fit 32 bits. */
    constructor (table: array<Word>, blockSizeField: nat, memoryBase: nat)
      requires table.Length > 0 && blockSizeField < 16
      requires memoryBase + Pow2(blockSizeField + 5) * (32 * table.Length) <= 0xFFFF_FFFF
      ensures Valid() && secResp && lut == table
      ensures memory.base == memoryBase && memory.blockSize == Pow2(blockSizeField + 5)
    {
      var blockSize := Pow2(blockSizeField + 5);
      autoincrement := false;
      secResp := true;
      lut := table;
      assert blockSize * (32 * table.Length) >= 1 by {
        PositiveProduct(blockSize, 32 * table.Length);
      }
      memory := Memory(memoryBase, memoryBase + blockSize * (32 * table.Length) - 1, blockSize);
    }

    /** Marks the blocks of an address range; `ok` is false where the driver panics. */
    method SetNonSecure(baseAddress: nat, limitAddress: nat) returns (ok: bool)
      requires Valid()
      modifies `blkIdx, lut
      ensures Valid() && ok == memory.Accepts(baseAddress, limitAddress)
      ensures lut[..] == if !ok then old(lut[..])
                         else SetRange(old(lut[..]), memory.Block(baseAddress), memory.Block(limitAddress + 1))
    {
      if baseAddress < memory.base || baseAddress > memory.limit || limitAddress > memory.limit
         || baseAddress >= limitAddress
      {
        return false;
      }
      if baseAddress % memory.blockSize != 0 {
        return false;
      }
      if (limitAddress + 1) % memory.blockSize != 0 {
        return false;
      }
      AcceptedBlocks(memory, 32 * lut.Length, baseAddress, limitAddress);
      var startBlock := (baseAddress - memory.base) / memory.blockSize;
      var endBlock := (limitAddress + 1 - memory.base) / memory.blockSize;
      var currentIdx := startBlock / 32;
      ghost var was := lut[..];

      blkIdx := currentIdx;
      var currentLut := lut[blkIdx];
      forall i | 0 <= i < lut.Length ensures SetWord(was[i], i, startBlock, startBlock) == was[i] {
        SetWordOutside(was[i], i, startBlock, startBlock);
      }
      for block := startBlock to endBlock
        invariant Valid() && currentIdx < lut.Length
        invariant 32 * currentIdx <= block <= 32 * currentIdx + 32
        invariant startBlock < 32 * currentIdx + 32
        invariant currentLut == SetWord(was[currentIdx], currentIdx, startBlock, block)
        invariant forall i :: 0 <= i < lut.Length && i != currentIdx ==>
                                lut[i] == SetWord(was[i], i, startBlock, block)
      {
        var idx := block / 32;
        if idx != currentIdx {
          blkIdx := currentIdx;
          lut[blkIdx] := currentLut;
          currentIdx := idx;
          blkIdx := currentIdx;
          currentLut := lut[blkIdx];
        }
        forall i | 0 <= i < lut.Length {
          SetWordNext(was[i], i, startBlock, block);
        }
        currentLut := Or(currentLut, FlagAt(block % 32, true));
      }
      blkIdx := currentIdx;
      lut[blkIdx] := currentLut;
      return true;
    }
  }
}
