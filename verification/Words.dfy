/** 32-bit register words as their 32 bits, least significant first, with the bitwise operators the
    drivers use on them. */
module Words {
  const NO_BYTE := [false, false, false, false, false, false, false, false]
  const FULL_BYTE := [true, true, true, true, true, true, true, true]
  const ZERO := NO_BYTE + NO_BYTE + NO_BYTE + NO_BYTE

  type Byte = b: seq<bool> | |b| == 8 witness NO_BYTE
  type Word = w: seq<bool> | |w| == 32 witness ZERO

  /** `x | y` */
  function Or(x: Word, y: Word): Word {
    seq(32, k requires 0 <= k < 32 => x[k] || y[k])
  }

  /** `x & !y` */
  function AndNot(x: Word, y: Word): Word {
    seq(32, k requires 0 <= k < 32 => x[k] && !y[k])
  }

  /** `u32::from(v) << b` of a flag */
  function FlagAt(b: nat, v: bool): Word
    requires b < 32
  {
    seq(32, k => k == b && v)
  }

  /** `u32::from(v) << 8 * s` of a byte */
  function ByteAt(s: nat, v: Byte): Word
    requires s < 4
  {
    seq(32, k requires 0 <= k < 32 => k / 8 == s && v[k % 8])
  }

  /** `u32::from_ne_bytes` of four equal bytes */
  function FourTimes(v: Byte): Word {
    v + v + v + v
  }

  /** The byte in slot s of a word. */
  function Slot(w: Word, s: nat): Byte
    requires s < 4
  {
    w[8 * s..8 * s + 8]
  }

  /** The read-modify-write of one bit. */
  function PutBit(w: Word, b: nat, v: bool): (r: Word)
    requires b < 32
    ensures r == w[b := v]
  {
    Or(AndNot(w, FlagAt(b, true)), FlagAt(b, v))
  }

  /** `x >> b` */
  function ShiftDown(x: Word, b: nat): Word
    requires b < 32
  {
    seq(32, k requires 0 <= k < 32 => k + b < 32 && x[k + b])
  }

  /** Clearing one byte slot, and the read-modify-write of one. */
  function ClearSlot(w: Word, s: nat): (r: Word)
    requires s < 4
    ensures r == w[..8 * s] + NO_BYTE + w[8 * s + 8..]
  {
    AndNot(w, ByteAt(s, FULL_BYTE))
  }

  function PutSlot(w: Word, s: nat, v: Byte): (r: Word)
    requires s < 4
    ensures r == w[..8 * s] + v + w[8 * s + 8..]
  {
    Or(ClearSlot(w, s), ByteAt(s, v))
  }

  lemma SplicedSlot(w: Word, s: nat, v: Byte, k: nat)
    requires s < 4 && k < 4
    ensures Slot(w[..8 * s] + v + w[8 * s + 8..], k) == if k == s then v else Slot(w, k)
  {
  }

  lemma ClearSlotReads(w: Word, s: nat, k: nat)
    requires s < 4 && k < 4
    ensures Slot(ClearSlot(w, s), k) == if k == s then NO_BYTE else Slot(w, k)
  {
    SplicedSlot(w, s, NO_BYTE, k);
  }

  /** A written slot reads back, and the other three keep their bytes. */
  lemma PutSlotReads(w: Word, s: nat, v: Byte, k: nat)
    requires s < 4 && k < 4
    ensures Slot(PutSlot(w, s, v), k) == if k == s then v else Slot(w, k)
  {
    SplicedSlot(w, s, v, k);
  }

  lemma BytesInOrder(a: Byte, b: Byte, c: Byte, d: Byte, k: nat)
    requires k < 4
    ensures Slot(a + b + c + d, k) == if k == 0 then a else if k == 1 then b else if k == 2 then c else d
  {
    if k == 0 {
      assert (a + b + c + d)[0..8] == a;
    } else if k == 1 {
      assert (a + b + c + d)[8..16] == b;
    } else if k == 2 {
      assert (a + b + c + d)[16..24] == c;
    } else {
      assert (a + b + c + d)[24..32] == d;
    }
  }

  lemma FourTimesSlots(v: Byte, k: nat)
    requires k < 4
    ensures Slot(FourTimes(v), k) == v
  {
  }

  /** A word is its four slots. */
  lemma SlotsDecide(w: Word, x: Word)
    requires forall k :: 0 <= k < 4 ==> Slot(w, k) == Slot(x, k)
    ensures w == x
  {
    forall k | 0 <= k < 32 ensures w[k] == x[k] {
      assert Slot(w, k / 8)[k % 8] == Slot(x, k / 8)[k % 8];
    }
  }
}
