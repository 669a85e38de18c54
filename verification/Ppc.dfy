/** The peripheral protection controller driver (ppc.rs) and the tables that configure it in bulk
    (security.rs). Attributes hold one bit a region, 32 regions a word; protection-context masks hold
    one byte a region, four regions a word. */
module Ppcs {
  import opened Words

  const REGION_COUNT := 222
  const NS_ATTR_REG_COUNT := 7
  const PC_MASK_REG_COUNT := 56

  predicate BitAt(words: seq<Word>, r: nat)
    requires r / 32 < |words|
  {
    words[r / 32][r % 32]
  }

  function WithBit(words: seq<Word>, r: nat, v: bool): seq<Word>
    requires r / 32 < |words|
  {
    words[r / 32 := PutBit(words[r / 32], r % 32, v)]
  }

  function ByteOf(words: seq<Word>, r: nat): Byte
    requires r / 4 < |words|
  {
    Slot(words[r / 4], r % 4)
  }

  function WithByte(words: seq<Word>, r: nat, v: Byte): seq<Word>
    requires r / 4 < |words|
  {
    words[r / 4 := PutSlot(words[r / 4], r % 4, v)]
  }

  /** A region's bit reads back as written and every other region keeps its bit. */
  lemma WithBitReads(words: seq<Word>, r: nat, v: bool, k: nat)
    requires r / 32 < |words| && k / 32 < |words|
    ensures BitAt(WithBit(words, r, v), k) == if k == r then v else BitAt(words, k)
  {
  }

  /** A region's protection context reads back as written and every other region keeps its own. */
  lemma WithByteReads(words: seq<Word>, r: nat, v: Byte, k: nat)
    requires r / 4 < |words| && k / 4 < |words|
    ensures ByteOf(WithByte(words, r, v), k) == if k == r then v else ByteOf(words, k)
  {
    PutSlotReads(words[r / 4], r % 4, v, k % 4);
  }

  /** On the registers: bit r mod 32 of attribute word r / 32, and byte r mod 4 of context word r / 4, are
      the only ones that change. */
  lemma WrittenBits(words: seq<Word>, r: nat, v: bool, context: Byte, w: nat, b: nat)
    requires w < |words| && b < 32
    ensures r / 32 < |words| ==> WithBit(words, r, v)[w][b] == if w == r / 32 && b == r % 32 then v else words[w][b]
    ensures r / 4 < |words| ==>
              WithByte(words, r, context)[w][b] == if w == r / 4 && b / 8 == r % 4 then context[b % 8] else words[w][b]
  {
  }

  // ----- Protection contexts of a run of regions -------------------------------------------

  /** The byte `set_pc_masks_range` gives a region of a register it rewrites. */
  function MaskedByte(r: nat, end: nat, mask: Byte, exclude: seq<nat>): Byte {
    if r >= end || r in exclude then NO_BYTE else mask
  }

  function MaskedWord(reg: nat, end: nat, mask: Byte, exclude: seq<nat>): Word {
    MaskedByte(4 * reg, end, mask, exclude) + MaskedByte(4 * reg + 1, end, mask, exclude) +
    MaskedByte(4 * reg + 2, end, mask, exclude) + MaskedByte(4 * reg + 3, end, mask, exclude)
  }

  lemma MaskedWordSlots(reg: nat, end: nat, mask: Byte, exclude: seq<nat>, k: nat)
    requires k < 4
    ensures Slot(MaskedWord(reg, end, mask, exclude), k) == MaskedByte(4 * reg + k, end, mask, exclude)
  {
    hide MaskedByte;
    var byte := (i: nat) => MaskedByte(4 * reg + i, end, mask, exclude);
    BytesInOrder(byte(0), byte(1), byte(2), byte(3), k);
  }

  function DivCeil4(n: nat): nat {
    (n + 3) / 4
  }

  function RangeMasked(words: seq<Word>, start: nat, end: nat, mask: Byte, exclude: seq<nat>): (r: seq<Word>)
    ensures |r| == |words|
  {
    seq(|words|, i requires 0 <= i < |words| =>
      if start / 4 <= i < DivCeil4(end) then MaskedWord(i, end, mask, exclude) else words[i])
  }

  /** What the range setter gives each region: whole registers are rewritten. */
  lemma RangeMaskedBytes(words: seq<Word>, start: nat, end: nat, mask: Byte, exclude: seq<nat>, r: nat)
    requires r / 4 < |words|
    ensures ByteOf(RangeMasked(words, start, end, mask, exclude), r) ==
            if start / 4 <= r / 4 < DivCeil4(end) then MaskedByte(r, end, mask, exclude) else ByteOf(words, r)
  {
    MaskedWordSlots(r / 4, end, mask, exclude, r % 4);
    hide MaskedWord, Slot, MaskedByte;
    var i := r / 4;
    assert 4 * i + r % 4 == r;
    assert RangeMasked(words, start, end, mask, exclude)[i] ==
           if start / 4 <= i < DivCeil4(end) then MaskedWord(i, end, mask, exclude) else words[i];
  }

  /** Every region of the range gets the mask, unless excluded, whatever the alignment. */
  lemma RangeIsMasked(words: seq<Word>, start: nat, end: nat, mask: Byte, exclude: seq<nat>, r: nat)
    requires r / 4 < |words| && start <= r < end
    ensures ByteOf(RangeMasked(words, start, end, mask, exclude), r) == if r in exclude then NO_BYTE else mask
  {
    RangeMaskedBytes(words, start, end, mask, exclude, r);
  }

  /** Regions outside the range keep their protection context, from whatever state. */
  ghost predicate LeavesOthers(n: nat, start: nat, end: nat, mask: Byte, exclude: seq<nat>) {
    forall words: seq<Word>, r: nat | |words| == n && r < REGION_COUNT && r / 4 < n && !(start <= r < end) ::
      ByteOf(RangeMasked(words, start, end, mask, exclude), r) == ByteOf(words, r)
  }

  /** Some state shows the setter changing region r: its new byte does not depend on the old one. */
  lemma RewrittenIsNotLeft(n: nat, start: nat, end: nat, mask: Byte, exclude: seq<nat>, r: nat)
    requires r < REGION_COUNT && r / 4 < n && start / 4 <= r / 4 < DivCeil4(end) && !(start <= r < end)
    ensures !LeavesOthers(n, start, end, mask, exclude)
  {
    var other := if MaskedByte(r, end, mask, exclude) == NO_BYTE then FULL_BYTE else NO_BYTE;
    assert NO_BYTE[0] != FULL_BYTE[0];
    var words: seq<Word> := seq(n, _ => FourTimes(other));
    FourTimesSlots(other, r % 4);
    assert ByteOf(words, r) == other;
    hide MaskedByte, RangeMasked, FourTimes, Slot;
    RangeMaskedBytes(words, start, end, mask, exclude, r);
    assert ByteOf(RangeMasked(words, start, end, mask, exclude), r) != ByteOf(words, r);
  }

  /** The registers that are rewritten hold no region outside the range. */
  predicate RewritesRangeOnly(start: nat, end: nat) {
    || start / 4 >= DivCeil4(end)
    || 4 * (start / 4) >= REGION_COUNT
    || (start % 4 == 0 && (end % 4 == 0 || end >= REGION_COUNT))
  }

  /** Otherwise the first region of the first register, or the one at the end of the range, is outside
      the range in a register that is rewritten. */
  lemma RewrittenRegisters(start: nat, end: nat, r: nat)
    ensures RewritesRangeOnly(start, end) && r < REGION_COUNT && !(start <= r < end) ==>
              !(start / 4 <= r / 4 < DivCeil4(end))
    ensures start / 4 < DivCeil4(end) && start % 4 != 0 ==>
              4 * (start / 4) < start && start / 4 <= 4 * (start / 4) / 4 < DivCeil4(end)
    ensures start / 4 < DivCeil4(end) && start % 4 == 0 && end % 4 != 0 ==>
              start / 4 <= end / 4 < DivCeil4(end)
  {
    assert start == 4 * (start / 4) + start % 4 && end == 4 * (end / 4) + end % 4;
  }

  /** The range setter leaves all other regions alone exactly when it rewrites no register, only
      registers behind the last region, or from a register boundary up to a register boundary or past
      the last region. */
  lemma RangeLeavesOthersExactly(n: nat, start: nat, end: nat, mask: Byte, exclude: seq<nat>)
    requires DivCeil4(end) <= n
    ensures LeavesOthers(n, start, end, mask, exclude) <==> RewritesRangeOnly(start, end)
  {
    hide MaskedByte, RangeMasked, ByteOf;
    if RewritesRangeOnly(start, end) {
      forall words: seq<Word>, r: nat | |words| == n && r < REGION_COUNT && r / 4 < n && !(start <= r < end)
        ensures ByteOf(RangeMasked(words, start, end, mask, exclude), r) == ByteOf(words, r)
      {
        RewrittenRegisters(start, end, r);
        RangeMaskedBytes(words, start, end, mask, exclude, r);
      }
    } else {
      hide LeavesOthers;
      RewrittenRegisters(start, end, end);
      RewrittenIsNotLeft(n, start, end, mask, exclude, if start % 4 != 0 then 4 * (start / 4) else end);
    }
  }

  // ----- Region by region ------------------------------------------------------------------

  /** The words after writing the bit of regions 0..n one at a time. */
  function PerRegionBits(words: seq<Word>, value: nat -> bool, n: nat): (r: seq<Word>)
    requires n <= 32 * |words|
    ensures |r| == |words|
  {
    if n == 0 then words else WithBit(PerRegionBits(words, value, n - 1), n - 1, value(n - 1))
  }

  lemma {:induction false} PerRegionBitsRead(words: seq<Word>, value: nat -> bool, n: nat, k: nat)
    requires n <= 32 * |words| && k / 32 < |words|
    ensures BitAt(PerRegionBits(words, value, n), k) == if k < n then value(k) else BitAt(words, k)
  {
    if n > 0 {
      PerRegionBitsRead(words, value, n - 1, k);
      WithBitReads(PerRegionBits(words, value, n - 1), n - 1, value(n - 1), k);
    }
  }

  /** The words after writing the protection context of regions 0..n one at a time. */
  function PerRegionBytes(words: seq<Word>, value: nat -> Byte, n: nat): (r: seq<Word>)
    requires n <= 4 * |words|
    ensures |r| == |words|
  {
    if n == 0 then words else WithByte(PerRegionBytes(words, value, n - 1), n - 1, value(n - 1))
  }

  lemma {:induction false} PerRegionBytesRead(words: seq<Word>, value: nat -> Byte, n: nat, k: nat)
    requires n <= 4 * |words| && k / 4 < |words|
    ensures ByteOf(PerRegionBytes(words, value, n), k) == if k < n then value(k) else ByteOf(words, k)
  {
    hide ByteOf, WithByte;
    if n > 0 {
      PerRegionBytesRead(words, value, n - 1, k);
      WithByteReads(PerRegionBytes(words, value, n - 1), n - 1, value(n - 1), k);
    }
  }

  /** The bit a bulk table gives a region: set for every region but `except`, or for `only`. */
  function NsValue(secureOnly: seq<nat>): nat -> bool {
    r => r !in secureOnly
  }

  function NsPValue(unprivileged: seq<nat>): nat -> bool {
    r => r in unprivileged
  }

  function PcValue(exclude: seq<nat>): nat -> Byte {
    r => if r in exclude then NO_BYTE else FULL_BYTE
  }

  /** A table of bits whose unused end is zero. */
  ghost predicate TableOf(table: seq<Word>, value: nat -> bool) {
    && |table| == NS_ATTR_REG_COUNT
    && forall k :: 0 <= k < 224 ==> BitAt(table, k) == (k < REGION_COUNT && value(k))
  }

  ghost predicate ContextTableOf(table: seq<Word>, exclude: seq<nat>) {
    && |table| == PC_MASK_REG_COUNT
    && forall i :: 0 <= i < PC_MASK_REG_COUNT ==> table[i] == MaskedWord(i, REGION_COUNT, FULL_BYTE, exclude)
  }

  function Overlaid(words: seq<Word>, table: seq<Word>): seq<Word>
    requires |table| <= |words|
  {
    table + words[|table|..]
  }

  /** Bulk and per-region configuration agree on all regions, whatever the prior state; the two
      unused bits of the last word are the only difference. */
  lemma BulkBitsAgree(words: seq<Word>, table: seq<Word>, value: nat -> bool, k: nat)
    requires |words| == 32 && TableOf(table, value) && k < 1024
    ensures BitAt(Overlaid(words, table), k) ==
            if 222 <= k < 224 then false else BitAt(PerRegionBits(words, value, REGION_COUNT), k)
  {
    PerRegionBitsRead(words, value, REGION_COUNT, k);
    if k < 224 {
      assert BitAt(Overlaid(words, table), k) == BitAt(table, k);
    } else {
      assert BitAt(Overlaid(words, table), k) == BitAt(words, k);
    }
  }

  /** What the precomputed tables mean on the registers: non-secure access for every region that is not
      secure-only, unprivileged access for the listed regions only, and every protection context or none;
      the two entries behind the last region are clear, and the rest is as before. */
  lemma BulkTablesMean(words: seq<Word>, secureOnly: seq<nat>, unprivileged: seq<nat>, ns: seq<Word>, nsP: seq<Word>, r: nat)
    requires |words| == 32 && TableOf(ns, NsValue(secureOnly)) && TableOf(nsP, NsPValue(unprivileged)) && r < 1024
    ensures Overlaid(words, ns)[r / 32][r % 32] <==>
            (if r < 222 then r !in secureOnly else r >= 224 && words[r / 32][r % 32])
    ensures Overlaid(words, nsP)[r / 32][r % 32] <==>
            (if r < 222 then r in unprivileged else r >= 224 && words[r / 32][r % 32])
  {
    if r < 224 {
      assert BitAt(ns, r) == (r < REGION_COUNT && NsValue(secureOnly)(r));
      assert BitAt(nsP, r) == (r < REGION_COUNT && NsPValue(unprivileged)(r));
    }
  }

  lemma BulkContextsMean(words: seq<Word>, exclude: seq<nat>, table: seq<Word>, r: nat, b: nat)
    requires |words| == 1024 && ContextTableOf(table, exclude) && r < 4096 && b < 8
    ensures Overlaid(words, table)[r / 4][8 * (r % 4) + b] <==>
            (if r < 222 then r !in exclude else r >= 224 && words[r / 4][8 * (r % 4) + b])
  {
    if r < 224 {
      TableBytes(table, exclude, r);
      assert ByteOf(table, r)[b] == table[r / 4][8 * (r % 4) + b];
    }
  }

  lemma OverlaidBytes(words: seq<Word>, table: seq<Word>, k: nat)
    requires |table| <= |words| && k / 4 < |words|
    ensures ByteOf(Overlaid(words, table), k) == ByteOf(if k / 4 < |table| then table else words, k)
  {
    hide Slot;
  }

  lemma TableBytes(table: seq<Word>, exclude: seq<nat>, k: nat)
    requires ContextTableOf(table, exclude) && k < 224
    ensures ByteOf(table, k) == MaskedByte(k, REGION_COUNT, FULL_BYTE, exclude)
  {
    MaskedWordSlots(k / 4, REGION_COUNT, FULL_BYTE, exclude, k % 4);
    hide MaskedWord, Slot;
    assert table[k / 4] == MaskedWord(k / 4, REGION_COUNT, FULL_BYTE, exclude);
  }

  lemma BulkContextsAgree(words: seq<Word>, table: seq<Word>, exclude: seq<nat>, k: nat)
    requires |words| == 1024 && ContextTableOf(table, exclude) && k < 4096
    ensures ByteOf(Overlaid(words, table), k) ==
            if 222 <= k < 224 then NO_BYTE else ByteOf(PerRegionBytes(words, PcValue(exclude), REGION_COUNT), k)
  {
    hide Overlaid, ByteOf, PerRegionBytes, MaskedWord;
    OverlaidBytes(words, table, k);
    PerRegionBytesRead(words, PcValue(exclude), REGION_COUNT, k);
    if k < 224 {
      TableBytes(table, exclude, k);
    }
  }

  /** The precomputed protection contexts are those of the range setter on all regions. */
  lemma BulkContextsAreTheRange(words: seq<Word>, table: seq<Word>, exclude: seq<nat>)
    requires |words| == 1024 && ContextTableOf(table, exclude)
    ensures Overlaid(words, table) == RangeMasked(words, 0, REGION_COUNT, FULL_BYTE, exclude)
  {
  }

  // ----- security.rs -----------------------------------------------------------------------

  method ContainsRegion(values: seq<nat>, needle: nat) returns (found: bool)
    ensures found <==> needle in values
  {
    var i := 0;
    while i < |values|
      invariant i <= |values| && needle !in values[..i]
    {
      if values[i] == needle {
        return true;
      }
      i := i + 1;
    }
    return false;
  }

  /** Sets a region's bit; identifiers past the last region are ignored. */
  method SetRegionBit(mask: array<Word>, region: nat)
    requires mask.Length == NS_ATTR_REG_COUNT
    modifies mask
    ensures mask[..] == if region < REGION_COUNT then WithBit(old(mask[..]), region, true) else old(mask[..])
  {
    if region < REGION_COUNT {
      var reg := region / 32;
      var bit := region % 32;
      mask[reg] := Or(mask[reg], FlagAt(bit, true));
      assert mask[reg] == old(mask[reg])[bit := true];
    }
  }

  method ClearRegionBit(mask: array<Word>, region: nat)
    requires mask.Length == NS_ATTR_REG_COUNT
    modifies mask
    ensures mask[..] == if region < REGION_COUNT then WithBit(old(mask[..]), region, false) else old(mask[..])
  {
    if region < REGION_COUNT {
      var reg := region / 32;
      var bit := region % 32;
      mask[reg] := AndNot(mask[reg], FlagAt(bit, true));
      assert mask[reg] == old(mask[reg])[bit := false];
    }
  }

  method BuildFullNsAttrMask() returns (attrs: array<Word>)
    ensures fresh(attrs) && attrs.Length == NS_ATTR_REG_COUNT
    ensures TableOf(attrs[..], NsValue([]))
  {
    attrs := new Word[NS_ATTR_REG_COUNT](_ => ZERO);
    var region := 0;
    while region < REGION_COUNT
      invariant region <= REGION_COUNT
      invariant forall k :: 0 <= k < 224 ==> BitAt(attrs[..], k) == (k < region)
    {
      ghost var was := attrs[..];
      SetRegionBit(attrs, region);
      forall k: nat | k < 224 {
        WithBitReads(was, region, true, k);
      }
      region := region + 1;
    }
  }

  /** All regions but the secure-only ones. */
  method BuildNsAttrs(secureOnly: seq<nat>) returns (attrs: array<Word>)
    ensures fresh(attrs) && TableOf(attrs[..], NsValue(secureOnly))
  {
    attrs := BuildFullNsAttrMask();
    var i := 0;
    while i < |secureOnly|
      invariant i <= |secureOnly| && fresh(attrs) && attrs.Length == NS_ATTR_REG_COUNT
      invariant TableOf(attrs[..], NsValue(secureOnly[..i]))
    {
      ghost var was := attrs[..];
      ClearRegionBit(attrs, secureOnly[i]);
      forall k: nat | k < 224
        ensures BitAt(attrs[..], k) == (k < REGION_COUNT && k !in secureOnly[..i + 1])
      {
        if secureOnly[i] < REGION_COUNT {
          WithBitReads(was, secureOnly[i], false, k);
        }
        assert k in secureOnly[..i + 1] <==> k in secureOnly[..i] || k == secureOnly[i];
      }
      i := i + 1;
    }
    assert secureOnly[..i] == secureOnly;
  }

  /** Only the unprivileged regions. */
  method BuildNsPAttrs(unprivileged: seq<nat>) returns (attrs: array<Word>)
    ensures fresh(attrs) && TableOf(attrs[..], NsPValue(unprivileged))
  {
    attrs := new Word[NS_ATTR_REG_COUNT](_ => ZERO);
    var i := 0;
    while i < |unprivileged|
      invariant i <= |unprivileged| && fresh(attrs) && attrs.Length == NS_ATTR_REG_COUNT
      invariant TableOf(attrs[..], NsPValue(unprivileged[..i]))
    {
      ghost var was := attrs[..];
      SetRegionBit(attrs, unprivileged[i]);
      forall k: nat | k < 224
        ensures BitAt(attrs[..], k) == (k < REGION_COUNT && k in unprivileged[..i + 1])
      {
        if unprivileged[i] < REGION_COUNT {
          WithBitReads(was, unprivileged[i], true, k);
        }
        assert k in unprivileged[..i + 1] <==> k in unprivileged[..i] || k == unprivileged[i];
      }
      i := i + 1;
    }
    assert unprivileged[..i] == unprivileged;
  }

  /** The inner loop over the four slots of one register. */
  method MaskRegister(reg: nat, end: nat, mask: Byte, exclude: seq<nat>) returns (value: Word)
    ensures value == MaskedWord(reg, end, mask, exclude)
  {
    value := FourTimes(mask);
    forall k: nat | k < 4 {
      FourTimesSlots(mask, k);
    }
    var slot := 0;
    while slot < 4
      invariant slot <= 4
      invariant forall k :: 0 <= k < 4 ==>
                  Slot(value, k) == if k < slot then MaskedByte(4 * reg + k, end, mask, exclude) else mask
    {
      var region := reg * 4 + slot;
      var excluded := ContainsRegion(exclude, region);
      if region >= end || excluded {
        forall k: nat | k < 4 {
          ClearSlotReads(value, slot, k);
        }
        value := ClearSlot(value, slot);
      }
      slot := slot + 1;
    }
    forall k: nat | k < 4 {
      MaskedWordSlots(reg, end, mask, exclude, k);
    }
    SlotsDecide(value, MaskedWord(reg, end, mask, exclude));
  }

  method BuildPcMasks(exclude: seq<nat>) returns (masks: array<Word>)
    ensures fresh(masks) && ContextTableOf(masks[..], exclude)
  {
    masks := new Word[PC_MASK_REG_COUNT](_ => ZERO);
    var reg := 0;
    while reg < PC_MASK_REG_COUNT
      invariant reg <= PC_MASK_REG_COUNT
      invariant forall i :: 0 <= i < reg ==> masks[i] == MaskedWord(i, REGION_COUNT, FULL_BYTE, exclude)
    {
      var value := MaskRegister(reg, REGION_COUNT, FULL_BYTE, exclude);
      masks[reg] := value;
      reg := reg + 1;
    }
  }

  // ----- ppc.rs ----------------------------------------------------------------------------

  class Ppc {
    const nsAttrs: array<Word>
    const nsPAttrs: array<Word>
    const sPAttrs: array<Word>
    const pcMasks: array<Word>

    ghost predicate Valid() {
      && nsAttrs.Length == 32 && nsPAttrs.Length == 32 && sPAttrs.Length == 32 && pcMasks.Length == 1024
      && nsAttrs != nsPAttrs && nsAttrs != sPAttrs && nsPAttrs != sPAttrs
      && pcMasks != nsAttrs && pcMasks != nsPAttrs && pcMasks != sPAttrs
    }

    constructor (ns: array<Word>, nsP: array<Word>, sP: array<Word>, pc: array<Word>)
      requires ns.Length == 32 && nsP.Length == 32 && sP.Length == 32 && pc.Length == 1024
      requires ns != nsP && ns != sP && nsP != sP && pc != ns && pc != nsP && pc != sP
      ensures Valid() && nsAttrs == ns && nsPAttrs == nsP && sPAttrs == sP && pcMasks == pc
    {
      nsAttrs, nsPAttrs, sPAttrs, pcMasks := ns, nsP, sP, pc;
    }

    method SetPermissions(region: nat, allowNonSecure: bool, allowNsecNonpriv: bool, allowSecNonpriv: bool)
      requires Valid() && region < REGION_COUNT
      modifies nsAttrs, nsPAttrs, sPAttrs
      ensures nsAttrs[..] == WithBit(old(nsAttrs[..]), region, allowNonSecure)
      ensures nsPAttrs[..] == WithBit(old(nsPAttrs[..]), region, allowNsecNonpriv)
      ensures sPAttrs[..] == WithBit(old(sPAttrs[..]), region, allowSecNonpriv)
    {
      var reg := region / 32;
      var bit := region % 32;
      nsAttrs[reg] := Or(AndNot(nsAttrs[reg], FlagAt(bit, true)), FlagAt(bit, allowNonSecure));
      nsPAttrs[reg] := Or(AndNot(nsPAttrs[reg], FlagAt(bit, true)), FlagAt(bit, allowNsecNonpriv));
      sPAttrs[reg] := Or(AndNot(sPAttrs[reg], FlagAt(bit, true)), FlagAt(bit, allowSecNonpriv));
    }

    method GetPermissions(region: nat)
        returns (allowNonSecure: bool, allowNsecNonpriv: bool, allowSecNonpriv: bool)
      requires Valid() && region < REGION_COUNT
      ensures allowNonSecure == BitAt(nsAttrs[..], region)
      ensures allowNsecNonpriv == BitAt(nsPAttrs[..], region)
      ensures allowSecNonpriv == BitAt(sPAttrs[..], region)
    {
      var reg := region / 32;
      var bit := region % 32;
      allowNonSecure := ShiftDown(nsAttrs[reg], bit)[0];
      allowNsecNonpriv := ShiftDown(nsPAttrs[reg], bit)[0];
      allowSecNonpriv := ShiftDown(sPAttrs[reg], bit)[0];
    }

    method SetProtectionContext(region: nat, context: Byte)
      requires Valid() && region < REGION_COUNT
      modifies pcMasks
      ensures pcMasks[..] == WithByte(old(pcMasks[..]), region, context)
    {
      var reg := region / 4;
      pcMasks[reg] := PutSlot(pcMasks[reg], region % 4, context);
    }

    method ConfigureBulkNsAttrs(ns: seq<Word>, nsP: seq<Word>)
      requires Valid() && |ns| == NS_ATTR_REG_COUNT && |nsP| == NS_ATTR_REG_COUNT
      modifies nsAttrs, nsPAttrs
      ensures nsAttrs[..] == Overlaid(old(nsAttrs[..]), ns)
      ensures nsPAttrs[..] == Overlaid(old(nsPAttrs[..]), nsP)
    {
      WriteTable(nsAttrs, ns);
      WriteTable(nsPAttrs, nsP);
    }

    method ConfigureBulkPcMasks(table: seq<Word>)
      requires Valid() && |table| == PC_MASK_REG_COUNT
      modifies pcMasks
      ensures pcMasks[..] == Overlaid(old(pcMasks[..]), table)
    {
      WriteTable(pcMasks, table);
    }

    /** Writes whole registers; one past the last register would panic. */
    method SetPcMasksRange(start: nat, end: nat, mask: Byte, exclude: seq<nat>)
      requires Valid() && (start / 4 >= DivCeil4(end) || DivCeil4(end) <= 1024)
      modifies pcMasks
      ensures pcMasks[..] == RangeMasked(old(pcMasks[..]), start, end, mask, exclude)
    {
      ghost var was := pcMasks[..];
      var reg := start / 4;
      while reg < DivCeil4(end)
        invariant start / 4 <= reg && (reg <= DivCeil4(end) || reg == start / 4)
        invariant forall i :: 0 <= i < 1024 ==>
                    pcMasks[i] == if start / 4 <= i < reg then MaskedWord(i, end, mask, exclude) else was[i]
      {
        var value := MaskRegister(reg, end, mask, exclude);
        pcMasks[reg] := value;
        reg := reg + 1;
      }
    }
  }

  method WriteTable(words: array<Word>, table: seq<Word>)
    requires |table| <= words.Length
    modifies words
    ensures words[..] == Overlaid(old(words[..]), table)
  {
    var i := 0;
    while i < |table|
      invariant i <= |table|
      invariant forall j :: 0 <= j < words.Length ==> words[j] == if j < i then table[j] else old(words[j])
    {
      words[i] := table[i];
      i := i + 1;
    }
  }
}
