/** The part of CBOR (RFC 8949) that the token encoder uses: shortest-form heads as in sections 3 and
    4.2.1, byte and text strings, and the two writers behind the encoder. */
module Cbor {
  import opened Basics

  const UNSIGNED: nat := 0
  const NEGATIVE: nat := 1
  const BYTES: nat := 2
  const TEXT: nat := 3
  const ARRAY: nat := 4
  const MAP: nat := 5
  const TAG: nat := 6

  const TWO_64: int := 0x1_0000_0000_0000_0000

  // ----- Heads -----------------------------------------------------------------------------

  function Pow256(k: nat): nat {
    if k == 0 then 1 else 256 * Pow256(k - 1)
  }

  /** The k low bytes of a number, most significant first. */
  function BeBytes(n: nat, k: nat): (bs: seq<Byte>)
    ensures |bs| == k
  {
    if k == 0 then [] else BeBytes(n / 256, k - 1) + [n % 256]
  }

  function FromBe(bs: seq<Byte>): nat {
    if bs == [] then 0 else 256 * FromBe(bs[..|bs| - 1]) + Last(bs)
  }

  lemma {:induction false} BeReadsBack(n: nat, k: nat)
    requires n < Pow256(k)
    ensures FromBe(BeBytes(n, k)) == n
  {
    if k > 0 {
      BeReadsBack(n / 256, k - 1);
      assert BeBytes(n, k)[..k - 1] == BeBytes(n / 256, k - 1);
    }
  }

  /** Number of bytes that follow the initial byte in the shortest form. */
  function ExtraBytes(n: nat): nat {
    if n < 24 then 0 else if n < 0x100 then 1 else if n < 0x1_0000 then 2 else if n < 0x1_0000_0000 then 4 else 8
  }

  /** The additional information that announces so many bytes. */
  function InfoFor(n: nat): nat {
    if n < 24 then n else if n < 0x100 then 24 else if n < 0x1_0000 then 25 else if n < 0x1_0000_0000 then 26 else 27
  }

  function Head(major: nat, n: nat): (bs: seq<Byte>)
    requires major < 8
    ensures |bs| == 1 + ExtraBytes(n)
  {
    [32 * major + InfoFor(n)] + BeBytes(n, ExtraBytes(n))
  }

  datatype Decoded = Decoded(major: nat, n: nat, rest: seq<Byte>)

  /** Reads any definite-length head, shortest form or not. */
  function DecodeHead(s: seq<Byte>): Option<Decoded> {
    if s == [] then None
    else
      var major, info := s[0] / 32, s[0] % 32;
      if info < 24 then Some(Decoded(major, info, s[1..]))
      else if info > 27 then None
      else
        var k := if info == 24 then 1 else if info == 25 then 2 else if info == 26 then 4 else 8;
        if |s| < 1 + k then None else Some(Decoded(major, FromBe(s[1..1 + k]), s[1 + k..]))
  }

  lemma ExtraBytesSuffice(n: nat)
    requires n < TWO_64
    ensures n >= 24 ==> n < Pow256(ExtraBytes(n))
  {
    assert Pow256(1) == 0x100;
    assert Pow256(2) == 0x1_0000;
    assert Pow256(4) == 0x1_0000_0000 by { assert Pow256(3) == 0x100_0000; }
    assert Pow256(8) == TWO_64 by {
      assert Pow256(5) == 0x100_0000_0000;
      assert Pow256(6) == 0x1_0000_0000_0000;
      assert Pow256(7) == 0x100_0000_0000_0000;
    }
  }

  /** A head decodes to what was encoded and leaves exactly what follows. */
  lemma HeadReadsBack(major: nat, n: nat, rest: seq<Byte>)
    requires major < 8 && n < TWO_64
    ensures DecodeHead(Head(major, n) + rest) == Some(Decoded(major, n, rest))
  {
    var s := Head(major, n) + rest;
    var k := ExtraBytes(n);
    ExtraBytesSuffice(n);
    assert s[0] / 32 == major && s[0] % 32 == InfoFor(n);
    assert s[1 + k..] == rest;
    if n >= 24 {
      assert s[1..1 + k] == BeBytes(n, k);
      BeReadsBack(n, k);
    }
  }

  lemma {:induction false} FromBeIsSmall(bs: seq<Byte>)
    ensures FromBe(bs) < Pow256(|bs|)
  {
    if bs != [] {
      FromBeIsSmall(bs[..|bs| - 1]);
    }
  }

  lemma FewerBytesSuffice(n: nat, k: nat)
    requires k == 1 || k == 2 || k == 4 || k == 8
    requires n < Pow256(k)
    ensures ExtraBytes(n) <= k
  {
    assert Pow256(1) == 0x100 && Pow256(2) == 0x1_0000;
    assert Pow256(4) == 0x1_0000_0000 by { assert Pow256(3) == 0x100_0000; }
  }

  lemma AllButFirst(s: seq<Byte>, k: nat)
    requires |s| == 1 + k
    ensures s[1..1 + k] == s[1..]
  {
  }

  lemma InitialByte(first: int)
    ensures first == 32 * (first / 32) + first % 32
  {
  }

  /** A head with k further bytes is determined by them. */
  lemma HeadBytes(s: seq<Byte>, k: nat)
    requires (k == 1 || k == 2 || k == 4 || k == 8) && |s| == 1 + k
    requires s[0] % 32 == (if k == 1 then 24 else if k == 2 then 25 else if k == 4 then 26 else 27)
    ensures var n := FromBe(s[1..]);
            ExtraBytes(n) <= k && (ExtraBytes(n) == k ==> s == [32 * (s[0] / 32) + InfoFor(n)] + BeBytes(n, k))
  {
    var n := FromBe(s[1..]);
    FromBeIsSmall(s[1..]);
    FewerBytesSuffice(n, k);
    BytesAreUnique(s[1..]);
    hide FromBe, BeBytes, Pow256;
    assert s == [s[0]] + s[1..];
    InitialByte(s[0]);
  }

  /** No encoding of a head is shorter, and no other one is as short (section 4.2.1). */
  lemma HeadIsShortest(s: seq<Byte>, major: nat, n: nat)
    requires major < 8 && n < TWO_64 && DecodeHead(s) == Some(Decoded(major, n, []))
    ensures |Head(major, n)| <= |s|
    ensures |Head(major, n)| == |s| ==> s == Head(major, n)
  {
    var info := s[0] % 32;
    if info >= 24 {
      var k := if info == 24 then 1 else if info == 25 then 2 else if info == 26 then 4 else 8;
      assert |s| == 1 + k;
      AllButFirst(s, k);
      HeadBytes(s, k);
    } else {
      assert s == [s[0]];
      assert BeBytes(n, 0) == [];
    }
    hide FromBe, BeBytes, ExtraBytes, InfoFor;
  }

  lemma {:induction false} BytesAreUnique(bs: seq<Byte>)
    ensures BeBytes(FromBe(bs), |bs|) == bs
  {
    if bs != [] {
      var init, low, n := bs[..|bs| - 1], Last(bs), FromBe(bs);
      var high := FromBe(init);
      assert n == 256 * high + low;
      LowByte(high, low);
      assert BeBytes(n, |bs|) == BeBytes(n / 256, |bs| - 1) + [n % 256];
      hide FromBe;
      BytesAreUnique(init);
      assert bs == init + [low];
    }
  }

  lemma LowByte(high: nat, low: Byte)
    ensures (256 * high + low) / 256 == high && (256 * high + low) % 256 == low
  {
  }

  /** Three heads of the examples in appendix A of RFC 8949: 23, 500 and -100. */
  lemma ExampleHeads()
    ensures Head(UNSIGNED, 23) == [0x17] && Head(UNSIGNED, 500) == [0x19, 0x01, 0xf4] && Head(NEGATIVE, 99) == [0x38, 0x63]
  {
    assert BeBytes(500, 0) == [] && BeBytes(1, 0) == [] && BeBytes(0, 0) == [];
    assert BeBytes(500 / 256, 1) == [1] && BeBytes(500, 2) == [1, 0xf4];
    assert BeBytes(99, 1) == [99];
  }

  // ----- Strings ---------------------------------------------------------------------------

  function BytesItem(b: seq<Byte>): seq<Byte> {
    Head(BYTES, |b|) + b
  }

  function TextItem(t: seq<Byte>): seq<Byte> {
    Head(TEXT, |t|) + t
  }

  datatype StringItem = StringItem(content: seq<Byte>, rest: seq<Byte>)

  function DecodeString(major: nat, s: seq<Byte>): Option<StringItem> {
    match DecodeHead(s)
    case Some(Decoded(m, n, rest)) =>
      if m == major && n <= |rest| then Some(StringItem(rest[..n], rest[n..])) else None
    case None => None
  }

  lemma StringReadsBack(major: nat, b: seq<Byte>, rest: seq<Byte>)
    requires major < 8 && |b| < TWO_64
    ensures DecodeString(major, Head(major, |b|) + b + rest) == Some(StringItem(b, rest))
  {
    hide Head, DecodeHead;
    assert Head(major, |b|) + b + rest == Head(major, |b|) + (b + rest);
    HeadReadsBack(major, |b|, b + rest);
    assert (b + rest)[..|b|] == b && (b + rest)[|b|..] == rest;
  }

  /** Byte strings are self-delimiting: equal beginnings mean equal strings and equal remainders. */
  lemma BytesItemIsInjective(a: seq<Byte>, x: seq<Byte>, b: seq<Byte>, y: seq<Byte>)
    requires |a| < TWO_64 && |b| < TWO_64
    requires BytesItem(a) + x == BytesItem(b) + y
    ensures a == b && x == y
  {
    hide Head, DecodeString;
    StringReadsBack(BYTES, a, x);
    StringReadsBack(BYTES, b, y);
  }

  // ----- Writers ---------------------------------------------------------------------------

  function Saturated(n: nat): nat {
    if n > USIZE_MAX then USIZE_MAX else n
  }

  /** What is known of a writer: whether it counts, its room, its position and what it has written. */
  datatype Snapshot = Snapshot(counting: bool, room: nat, pos: nat, written: seq<Byte>)

  /** Writing these bytes leads from one snapshot to the other; it is refused only for lack of room. */
  ghost predicate Effect(a: Snapshot, bs: seq<Byte>, ok: bool, b: Snapshot) {
    && b.counting == a.counting && b.room == a.room
    && (ok <==> a.counting || a.pos + |bs| <= a.room)
    && (ok && a.counting ==> b.pos == Saturated(a.pos + |bs|))
    && (ok && !a.counting ==> b.pos == a.pos + |bs| && b.written == a.written + bs)
  }

  /** Two writes in a row, the second only if the first succeeds, are one write of both parts. */
  lemma Joined(a: Snapshot, x: seq<Byte>, first: bool, b: Snapshot, y: seq<Byte>, ok: bool, c: Snapshot)
    requires Effect(a, x, first, b)
    requires if first then Effect(b, y, ok, c) else !ok && c == b
    ensures Effect(a, x + y, ok, c)
  {
    assert a.written + x + y == a.written + (x + y);
  }

  /** The step of a loop that writes items behind a head: one more item, or all of them refused. */
  lemma NextItem(a: Snapshot, head: seq<Byte>, done: seq<Byte>, item: seq<Byte>, next: seq<Byte>, rest: seq<Byte>,
                 all: seq<Byte>, b: Snapshot, ok: bool, c: Snapshot)
    requires next == done + item && all == next + rest
    requires Effect(a, head + done, true, b) && Effect(b, item, ok, c)
    ensures ok ==> Effect(a, head + next, true, c)
    ensures !ok ==> Effect(a, head + all, false, c)
  {
    Joined(a, head + done, true, b, item, ok, c);
    assert head + done + item == head + next;
    if !ok {
      Joined(a, head + next, false, c, rest, false, c);
      assert head + next + rest == head + all;
    }
  }

  lemma NothingWritten(a: Snapshot)
    requires a.counting ==> a.pos <= USIZE_MAX
    requires !a.counting ==> a.pos <= a.room
    ensures Effect(a, [], true, a)
  {
  }

  /** Where the encoder writes: either a cursor over a buffer, which refuses what does not fit, or a
      counter, which only adds up lengths. */
  class Writer {
    const buf: array<Byte>
    const counting: bool
    var pos: nat

    ghost predicate Valid()
      reads this
    {
      pos <= if counting then USIZE_MAX else buf.Length
    }

    ghost function Now(): Snapshot
      requires Valid()
      reads this, buf
    {
      Snapshot(counting, buf.Length, pos, if counting then [] else buf[..pos])
    }

    constructor Cursor(out: array<Byte>)
      ensures Valid() && buf == out && !counting && pos == 0
    {
      buf, counting, pos := out, false, 0;
    }

    constructor SizeCounter()
      ensures Valid() && fresh(buf) && counting && pos == 0
    {
      buf := new Byte[0];
      counting, pos := true, 0;
    }

    /** The effect of writing these bytes: refused only for lack of room. */
    twostate predicate Wrote(bs: seq<Byte>, ok: bool)
      requires old(Valid())
      reads this, buf
    {
      Valid() && Effect(old(Now()), bs, ok, Now())
    }

    method WriteAll(bs: seq<Byte>) returns (ok: bool)
      requires Valid()
      modifies this, buf
      ensures Wrote(bs, ok)
    {
      if counting {
        pos := if pos + |bs| > USIZE_MAX then USIZE_MAX else pos + |bs|;
        return true;
      }
      if pos + |bs| > buf.Length {
        return false;
      }
      ghost var before := buf[..pos];
      forall i | 0 <= i < |bs| {
        buf[pos + i] := bs[i];
      }
      pos := pos + |bs|;
      assert buf[..pos] == before + bs;
      return true;
    }

    method PutHead(major: nat, n: nat) returns (ok: bool)
      requires Valid() && major < 8
      modifies this, buf
      ensures Wrote(Head(major, n), ok)
    {
      hide Head;
      ok := WriteAll(Head(major, n));
    }

    method PutString(major: nat, b: seq<Byte>) returns (ok: bool)
      requires Valid() && major < 8
      modifies this, buf
      ensures Wrote(Head(major, |b|) + b, ok)
    {
      hide Head, Effect;
      ghost var start := Now();
      ok := PutHead(major, |b|);
      ghost var first, mid := ok, Now();
      if ok {
        ok := WriteAll(b);
      }
      Joined(start, Head(major, |b|), first, mid, b, ok, Now());
    }

    method PutBytes(b: seq<Byte>) returns (ok: bool)
      requires Valid()
      modifies this, buf
      ensures Wrote(BytesItem(b), ok)
    {
      ok := PutString(BYTES, b);
    }

    method PutText(t: seq<Byte>) returns (ok: bool)
      requires Valid()
      modifies this, buf
      ensures Wrote(TextItem(t), ok)
    {
      ok := PutString(TEXT, t);
    }
  }
}
