/** The first-fit heap of the services (ffi_alloc.rs): a table of at most 64 blocks over a small
    byte array, and a search that restarts behind every block it bumps into. */
module Heaps {
  import opened Basics

  const HEAP_SIZE: nat := 1792
  const MAX_ALLOCS: nat := 64

  /** A table entry; size zero marks it as free. */
  datatype Alloc = Alloc(offset: nat, size: nat)

  datatype State = State(table: seq<Alloc>, bytes: seq<Byte>)

  predicate Live(t: seq<Alloc>, i: nat) {
    i < |t| && t[i].size > 0
  }

  predicate Disjoint(a: nat, aSize: nat, b: nat, bSize: nat) {
    a + aSize <= b || b + bSize <= a
  }

  /** A block of this size at this offset would lie in the heap and touch no live block. */
  predicate Fits(t: seq<Alloc>, offset: nat, size: nat) {
    && offset + size <= HEAP_SIZE
    && forall i :: 0 <= i < |t| && Live(t, i) ==> Disjoint(offset, size, t[i].offset, t[i].size)
  }

  function Rounded(request: nat): nat {
    request + 7 - (request + 7) % 8
  }

  /** `(request + 7) & !7` in 32-bit arithmetic. */
  function WrappedRounding(request: Word): Word {
    Wrap(request + 7) - Wrap(request + 7) % 8
  }

  /** The rounding of the source is rounding up exactly when adding seven stays in a word; beyond
      that it is zero. */
  lemma RoundingIsExact(request: Word)
    ensures WrappedRounding(request) == Rounded(request) <==> request + 7 <= USIZE_MAX
    ensures request + 7 > USIZE_MAX ==> WrappedRounding(request) == 0
    ensures WrappedRounding(request) == 0 <==> request == 0 || request + 7 > USIZE_MAX
  {
    if request + 7 > USIZE_MAX {
      assert Wrap(request + 7) == request + 7 - TWO_32;
    }
    RoundingUp(request);
  }

  // ----- The specification: try every offset in turn ---------------------------------------

  function LowestFit(t: seq<Alloc>, size: nat, from: nat): Option<nat>
    decreases HEAP_SIZE - from
  {
    if from + size > HEAP_SIZE then None
    else if Fits(t, from, size) then Some(from)
    else if from == HEAP_SIZE then None
    else LowestFit(t, size, from + 1)
  }

  function FirstFree(t: seq<Alloc>): nat {
    if t == [] || t[0].size == 0 then 0 else 1 + FirstFree(t[1..])
  }

  function Zeroed(bytes: seq<Byte>, offset: nat, n: nat): seq<Byte> {
    seq(|bytes|, i requires 0 <= i < |bytes| => if offset <= i < offset + n then 0 else bytes[i])
  }

  /** The offset an allocation returns, if it succeeds. */
  function Placed(s: State, request: nat): Option<nat> {
    if request == 0 then None
    else if FirstFree(s.table) >= |s.table| then None
    else LowestFit(s.table, Rounded(request), 0)
  }

  function Allocated(s: State, request: nat): State {
    match Placed(s, request)
    case None => s
    case Some(offset) =>
      State(s.table[FirstFree(s.table) := Alloc(offset, Rounded(request))], Zeroed(s.bytes, offset, request))
  }

  /** The entry of the live block that starts at an offset, if any. */
  function EntryAt(t: seq<Alloc>, offset: nat): Option<nat> {
    if t == [] then None
    else if t[0].size > 0 && t[0].offset == offset then Some(0)
    else match EntryAt(t[1..], offset)
      case None => None
      case Some(i) => Some(i + 1)
  }

  function Freed(s: State, offset: nat): State {
    match EntryAt(s.table, offset)
    case None => s
    case Some(i) => if i < |s.table| then s.(table := s.table[i := Alloc(s.table[i].offset, 0)]) else s
  }

  // ----- What the specification means ------------------------------------------------------

  /** The scan finds the lowest offset that fits, over all offsets from its start. */
  lemma {:induction false} LowestFitIsLowest(t: seq<Alloc>, size: nat, from: nat)
    ensures LowestFit(t, size, from).Some? ==>
              var o := LowestFit(t, size, from).value;
              from <= o && Fits(t, o, size) && forall p :: from <= p < o ==> !Fits(t, p, size)
    ensures LowestFit(t, size, from).None? ==> forall p :: from <= p ==> !Fits(t, p, size)
    decreases HEAP_SIZE - from
  {
    if from + size <= HEAP_SIZE && !Fits(t, from, size) && from < HEAP_SIZE {
      LowestFitIsLowest(t, size, from + 1);
    }
  }

  lemma {:induction false} FirstFreeIs(t: seq<Alloc>, k: nat)
    requires k <= |t| && (forall i :: 0 <= i < k ==> t[i].size > 0) && (k < |t| ==> t[k].size == 0)
    ensures FirstFree(t) == k
  {
    if k > 0 {
      FirstFreeIs(t[1..], k - 1);
    }
  }

  lemma {:induction false} FirstFreeMeans(t: seq<Alloc>)
    ensures FirstFree(t) <= |t|
    ensures forall i :: 0 <= i < FirstFree(t) ==> Live(t, i)
    ensures FirstFree(t) < |t| ==> !Live(t, FirstFree(t))
  {
    if t != [] && t[0].size > 0 {
      FirstFreeMeans(t[1..]);
      forall i | 0 <= i < FirstFree(t) ensures Live(t, i) {
        assert i > 0 ==> Live(t[1..], i - 1);
      }
    }
  }

  /** An allocation fails exactly for an empty request, a heap without a large enough gap anywhere,
      or a table whose entries are all live. */
  lemma FailureIsExact(s: State, request: nat)
    ensures Placed(s, request).None? <==>
            || request == 0
            || (forall o: nat :: !Fits(s.table, o, Rounded(request)))
            || (forall i :: 0 <= i < |s.table| ==> Live(s.table, i))
  {
    LowestFitIsLowest(s.table, Rounded(request), 0);
    FirstFreeMeans(s.table);
  }

  /** Live blocks are 8-aligned, inside the heap and pairwise disjoint. */
  ghost predicate Sound(s: State) {
    && |s.table| == MAX_ALLOCS && |s.bytes| == HEAP_SIZE
    && (forall i :: 0 <= i < |s.table| && Live(s.table, i) ==>
          s.table[i].offset % 8 == 0 && s.table[i].size % 8 == 0 && s.table[i].offset + s.table[i].size <= HEAP_SIZE)
    && (forall i, j :: 0 <= i < j < |s.table| && Live(s.table, i) && Live(s.table, j) ==>
          Disjoint(s.table[i].offset, s.table[i].size, s.table[j].offset, s.table[j].size))
  }

  /** The lowest fitting offset is the start of the heap or the end of a live block. */
  lemma LowestFitTouches(t: seq<Alloc>, size: nat, o: nat)
    requires LowestFit(t, size, 0) == Some(o) && o > 0
    ensures exists i :: 0 <= i < |t| && Live(t, i) && t[i].offset + t[i].size == o
  {
    LowestFitIsLowest(t, size, 0);
    assert !Fits(t, o - 1, size);
    var i :| 0 <= i < |t| && Live(t, i) && !Disjoint(o - 1, size, t[i].offset, t[i].size);
    assert Disjoint(o, size, t[i].offset, t[i].size);
  }

  lemma RoundingUp(request: nat)
    ensures Rounded(request) % 8 == 0 && request <= Rounded(request) < request + 8
  {
    var q := (request + 7) / 8;
    assert Rounded(request) == 8 * q;
  }

  lemma SumOfMultiples(a: nat, b: nat)
    requires a % 8 == 0 && b % 8 == 0
    ensures (a + b) % 8 == 0
  {
  }

  lemma PlacedIsAligned(s: State, request: nat)
    requires Sound(s) && Placed(s, request).Some?
    ensures Placed(s, request).value % 8 == 0 && Rounded(request) % 8 == 0
    ensures Fits(s.table, Placed(s, request).value, Rounded(request))
    ensures FirstFree(s.table) < MAX_ALLOCS && !Live(s.table, FirstFree(s.table))
  {
    hide Rounded, LowestFit, Fits;
    var o := Placed(s, request).value;
    RoundingUp(request);
    LowestFitIsLowest(s.table, Rounded(request), 0);
    FirstFreeMeans(s.table);
    if o > 0 {
      LowestFitTouches(s.table, Rounded(request), o);
      var i :| 0 <= i < |s.table| && Live(s.table, i) && s.table[i].offset + s.table[i].size == o;
      SumOfMultiples(s.table[i].offset, s.table[i].size);
    }
  }

  lemma AddingKeepsSound(s: State, k: nat, o: nat, size: nat, bytes: seq<Byte>)
    requires Sound(s) && k < MAX_ALLOCS && !Live(s.table, k) && Fits(s.table, o, size)
    requires o % 8 == 0 && size % 8 == 0 && |bytes| == HEAP_SIZE
    ensures Sound(State(s.table[k := Alloc(o, size)], bytes))
  {
    var t := s.table[k := Alloc(o, size)];
    forall i, j | 0 <= i < j < |t| && Live(t, i) && Live(t, j)
      ensures Disjoint(t[i].offset, t[i].size, t[j].offset, t[j].size)
    {
      if i != k {
        assert Live(s.table, i);
      }
      if j != k {
        assert Live(s.table, j);
      }
    }
    forall i | 0 <= i < |t| && Live(t, i)
      ensures t[i].offset % 8 == 0 && t[i].size % 8 == 0 && t[i].offset + t[i].size <= HEAP_SIZE
    {
      if i != k {
        assert Live(s.table, i);
      }
    }
  }

  lemma AllocationKeepsSound(s: State, request: nat)
    requires Sound(s)
    ensures Sound(Allocated(s, request))
  {
    hide LowestFit, FirstFree;
    if Placed(s, request).Some? {
      PlacedIsAligned(s, request);
      AddingKeepsSound(s, FirstFree(s.table), Placed(s, request).value, Rounded(request),
                       Zeroed(s.bytes, Placed(s, request).value, request));
    }
  }

  /** A new block is zero over the requested bytes, lies at the returned offset and overlaps no
      block that was live; entries and bytes of those blocks, and every other byte, are as before. */
  lemma AllocationIsFresh(s: State, request: nat)
    requires Sound(s) && Placed(s, request).Some?
    ensures var o, t := Placed(s, request).value, Allocated(s, request);
            && request <= Rounded(request) < request + 8
            && (forall b :: o <= b < o + request ==> b < |t.bytes| && t.bytes[b] == 0)
            && (forall i :: 0 <= i < |s.table| && Live(s.table, i) ==>
                  && t.table[i] == s.table[i]
                  && Disjoint(o, Rounded(request), s.table[i].offset, s.table[i].size)
                  && forall b :: s.table[i].offset <= b < s.table[i].offset + s.table[i].size ==> t.bytes[b] == s.bytes[b])
            && EntryAt(t.table, o) == Some(FirstFree(s.table))
            && |t.bytes| == |s.bytes|
            && forall b :: 0 <= b < |s.bytes| && !(o <= b < o + request) ==> t.bytes[b] == s.bytes[b]
  {
    var o := Placed(s, request).value;
    LowestFitIsLowest(s.table, Rounded(request), 0);
    FirstFreeMeans(s.table);
    assert forall i :: 0 <= i < |s.table| && Live(s.table, i) ==>
        Disjoint(o, Rounded(request), s.table[i].offset, s.table[i].size);
    AllocationKeepsSound(s, request);
    EntryAtIs(Allocated(s, request), FirstFree(s.table));
  }

  lemma {:induction false} EntryAtMeans(t: seq<Alloc>, offset: nat)
    ensures EntryAt(t, offset).Some? ==>
              var i := EntryAt(t, offset).value;
              Live(t, i) && t[i].offset == offset && forall j :: 0 <= j < i ==> !(Live(t, j) && t[j].offset == offset)
    ensures EntryAt(t, offset).None? ==> forall j :: 0 <= j < |t| ==> !(Live(t, j) && t[j].offset == offset)
  {
    if t != [] && !(t[0].size > 0 && t[0].offset == offset) {
      EntryAtMeans(t[1..], offset);
      forall j | 0 <= j < |t| && Live(t, j) && t[j].offset == offset
        ensures j > 0 && Live(t[1..], j - 1) && t[1..][j - 1].offset == offset
      {
      }
    }
  }

  /** In a sound heap a live block is found by its offset. */
  lemma EntryAtIs(s: State, i: nat)
    requires Sound(s) && Live(s.table, i)
    ensures EntryAt(s.table, s.table[i].offset) == Some(i)
  {
    EntryAtMeans(s.table, s.table[i].offset);
  }

  /** Freeing the offset of a live block removes exactly that block; any other offset changes
      nothing. Bytes are never touched. */
  lemma FreeingIsExact(s: State, offset: nat)
    requires Sound(s)
    ensures Sound(Freed(s, offset)) && Freed(s, offset).bytes == s.bytes
    ensures forall i :: 0 <= i < |s.table| ==>
              (Live(Freed(s, offset).table, i) <==> Live(s.table, i) && s.table[i].offset != offset)
    ensures forall i :: 0 <= i < |s.table| && Live(Freed(s, offset).table, i) ==> Freed(s, offset).table[i] == s.table[i]
    ensures (forall i :: 0 <= i < |s.table| && Live(s.table, i) ==> s.table[i].offset != offset) ==> Freed(s, offset) == s
  {
    EntryAtMeans(s.table, offset);
    if EntryAt(s.table, offset).Some? {
      var k := EntryAt(s.table, offset).value;
      forall i | 0 <= i < |s.table| && i != k && Live(s.table, i) ensures s.table[i].offset != offset {
        EntryAtIs(s, i);
      }
    }
  }

  /** What was just allocated can be freed again, and then the same request finds the same place. */
  lemma FreeThenAllocateAgain(s: State, request: nat)
    requires Sound(s) && Placed(s, request).Some?
    ensures Placed(Freed(Allocated(s, request), Placed(s, request).value), request) == Placed(s, request)
  {
    hide LowestFit, Fits, EntryAt;
    var o, t := Placed(s, request).value, Allocated(s, request);
    AllocationIsFresh(s, request);
    var k := FirstFree(s.table);
    FirstFreeMeans(s.table);
    var u := Freed(t, o);
    assert u.table == s.table[k := Alloc(o, 0)];
    FirstFreeIs(u.table, k);
    DeadEntriesDoNotMatter(s.table, k, o, Rounded(request), 0);
  }

  lemma {:induction false} DeadEntriesDoNotMatter(t: seq<Alloc>, k: nat, o: nat, size: nat, from: nat)
    requires k < |t| && !Live(t, k)
    ensures LowestFit(t[k := Alloc(o, 0)], size, from) == LowestFit(t, size, from)
    decreases if from < HEAP_SIZE then HEAP_SIZE - from else 0
  {
    var u := t[k := Alloc(o, 0)];
    assert forall i :: 0 <= i < |t| ==> (Live(u, i) <==> Live(t, i)) && (i != k ==> u[i] == t[i]);
    assert Fits(u, from, size) <==> Fits(t, from, size);
    if from < HEAP_SIZE {
      DeadEntriesDoNotMatter(t, k, o, size, from + 1);
    }
  }

  // ----- Requests whose rounding wraps -----------------------------------------------------

  predicate RoundingWraps(request: nat) {
    request + 7 > USIZE_MAX
  }

  /** What a request whose rounding wraps to zero leaves inside the heap: nothing is reserved, and
      every byte is cleared. */
  function Overrun(s: State): State {
    if FirstFree(s.table) < |s.table| then
      State(s.table[FirstFree(s.table) := Alloc(0, 0)], Zeroed(s.bytes, 0, |s.bytes|))
    else s
  }

  lemma OverrunIsSound(s: State)
    requires Sound(s)
    ensures Sound(Overrun(s))
  {
    FirstFreeMeans(s.table);
    var t := Overrun(s).table;
    assert forall i :: 0 <= i < |t| && Live(t, i) ==> Live(s.table, i) && t[i] == s.table[i];
  }

  /** What `calloc` does to the heap, for every product that fits a word. */
  function Calloced(s: State, request: nat): State {
    if RoundingWraps(request) then Overrun(s) else Allocated(s, request)
  }

  // ----- Every sequence of calls -----------------------------------------------------------

  datatype Op = Calloc(request: nat) | Free(offset: nat)

  function Applied(s: State, op: Op): State {
    match op
    case Calloc(request) => Calloced(s, request)
    case Free(offset) => Freed(s, offset)
  }

  function AfterOps(s: State, ops: seq<Op>): State
    decreases |ops|
  {
    if ops == [] then s else AfterOps(Applied(s, ops[0]), ops[1..])
  }

  function Fresh(): State {
    State(seq(MAX_ALLOCS, i => Alloc(0, 0)), seq(HEAP_SIZE, i => 0))
  }

  lemma {:induction false} EverySequenceIsSound(s: State, ops: seq<Op>)
    requires Sound(s)
    ensures Sound(AfterOps(s, ops))
    decreases |ops|
  {
    if ops != [] {
      match ops[0] {
        case Calloc(request) =>
          AllocationKeepsSound(s, request);
          OverrunIsSound(s);
        case Free(offset) => FreeingIsExact(s, offset);
      }
      EverySequenceIsSound(Applied(s, ops[0]), ops[1..]);
    }
  }

  /** Over every sequence that does not free it and makes no request whose rounding wraps, a live
      block keeps its entry and its bytes. */
  lemma {:induction false} LiveBlockSurvives(s: State, ops: seq<Op>, i: nat)
    requires Sound(s) && Live(s.table, i) && Free(s.table[i].offset) !in ops
    requires forall op :: op in ops && op.Calloc? ==> !RoundingWraps(op.request)
    ensures var a, e := s.table[i], AfterOps(s, ops);
            && i < |e.table| && e.table[i] == a && |e.bytes| == HEAP_SIZE
            && e.bytes[a.offset..a.offset + a.size] == s.bytes[a.offset..a.offset + a.size]
    decreases |ops|
  {
    if ops != [] {
      var a, t := s.table[i], Applied(s, ops[0]);
      OneOpLeavesBlock(s, ops[0], i);
      LiveBlockSurvives(t, ops[1..], i);
    }
  }

  lemma OneOpLeavesBlock(s: State, op: Op, i: nat)
    requires Sound(s) && Live(s.table, i) && op != Free(s.table[i].offset)
    requires op.Calloc? ==> !RoundingWraps(op.request)
    ensures var a, t := s.table[i], Applied(s, op);
            && Sound(t) && t.table[i] == a
            && t.bytes[a.offset..a.offset + a.size] == s.bytes[a.offset..a.offset + a.size]
  {
    hide LowestFit, EntryAt, FirstFree;
    match op
    case Calloc(request) =>
      AllocationKeepsSound(s, request);
      if Placed(s, request).Some? {
        AllocationIsFresh(s, request);
      }
    case Free(offset) => FreeingIsExact(s, offset);
  }

  lemma FreshIsSound()
    ensures Sound(Fresh())
  {
  }

  /** At power-up any request up to the size of the heap is placed at its start, and no other. */
  lemma FreshHeapIsEmpty(request: nat)
    ensures |Fresh().table| == 64 && |Fresh().bytes| == 1792
    ensures Placed(Fresh(), request) == if 0 < request <= 1792 then Some(0) else None
  {
    RoundingUp(request);
    FirstFreeMeans(Fresh().table);
    LowestFitIsLowest(Fresh().table, Rounded(request), 0);
    assert 1792 == 8 * 224;
    if 0 < request <= 1792 {
      SmallestMultiple(request, 224);
      assert Fits(Fresh().table, 0, Rounded(request));
    }
  }

  lemma SmallestMultiple(request: nat, n: nat)
    requires request <= 8 * n
    ensures Rounded(request) <= 8 * n
  {
    assert Rounded(request) == 8 * ((request + 7) / 8);
  }

  /** So every heap a program can reach from power-up is sound. */
  lemma EveryHistoryIsSound(ops: seq<Op>)
    ensures Sound(AfterOps(Fresh(), ops))
  {
    FreshIsSound();
    EverySequenceIsSound(Fresh(), ops);
  }

  // ----- The search that skips -------------------------------------------------------------

  /** A block in the way rules out every offset up to its end. */
  lemma {:induction false} SkippingIsSafe(t: seq<Alloc>, size: nat, from: nat, to: nat, i: nat)
    requires Live(t, i) && size > 0 && from <= to <= t[i].offset + t[i].size && t[i].offset < from + size
    ensures LowestFit(t, size, from) == LowestFit(t, size, to)
    decreases if from < to then to - from else 0
  {
    if from < to {
      assert !Disjoint(from, size, t[i].offset, t[i].size);
      if from + size <= HEAP_SIZE {
        SkippingIsSafe(t, size, from + 1, to, i);
      }
    }
  }

  lemma OverlapGoesBeyond(offset: nat, size: nat, a: Alloc)
    requires !Disjoint(offset, size, a.offset, a.size)
    ensures offset < a.offset + a.size && a.offset < offset + size
  {
  }

  lemma LowestFitUnfolds(t: seq<Alloc>, size: nat, o: nat)
    ensures o + size > HEAP_SIZE ==> LowestFit(t, size, o).None?
    ensures Fits(t, o, size) ==> LowestFit(t, size, o) == Some(o)
  {
  }

  /** With a free entry, a request whose rounding wraps clears the bytes of every live block. */
  lemma WrappingRequestClears(s: State, request: nat, i: nat, b: nat)
    requires Sound(s) && RoundingWraps(request) && FirstFree(s.table) < MAX_ALLOCS && Live(s.table, i)
    requires s.table[i].offset <= b < s.table[i].offset + s.table[i].size
    ensures var e := Calloced(s, request);
            && Live(e.table, i) && e.table[i] == s.table[i] && b < |e.bytes| && e.bytes[b] == 0
  {
    FirstFreeMeans(s.table);
  }

  /** A request six below the largest word: the rounding is zero, so the heap would hand out its
      start and clear four thousand million bytes. */
  lemma WrappingRequestOverruns()
    ensures WrappedRounding(0xFFFF_FFF9) == 0 && Rounded(0xFFFF_FFF9) > HEAP_SIZE
    ensures forall s: State :: Placed(s, 0xFFFF_FFF9).None?
    ensures RoundingWraps(0xFFFF_FFF9) && !RoundingWraps(0xFFFF_FFF8)
  {
    RoundingIsExact(0xFFFF_FFF9);
    RoundingUp(0xFFFF_FFF9);
    forall s: State ensures Placed(s, 0xFFFF_FFF9).None? {
      RequestTooLarge(s, 0xFFFF_FFF9);
    }
  }

  lemma RequestTooLarge(s: State, request: nat)
    ensures request > HEAP_SIZE ==> Placed(s, request).None?
  {
    RoundingUp(request);
  }

  lemma AllZeroed(bytes: seq<Byte>, n: nat)
    requires n >= |bytes|
    ensures Zeroed(bytes, 0, n) == Zeroed(bytes, 0, |bytes|)
  {
  }

  class Heap {
    const start: Word
    const bytes: array<Byte>
    const allocs: array<Alloc>

    ghost predicate Valid()
      reads this, bytes, allocs
    {
      && bytes.Length == HEAP_SIZE && allocs.Length == MAX_ALLOCS
      && 0 < start && start + HEAP_SIZE <= USIZE_MAX
      && Sound(View())
    }

    ghost function View(): State
      reads this, bytes, allocs
    {
      State(allocs[..], bytes[..])
    }

    constructor (heapStart: Word)
      requires 0 < heapStart && heapStart + HEAP_SIZE <= USIZE_MAX
      ensures Valid() && View() == Fresh() && start == heapStart && fresh(bytes) && fresh(allocs)
    {
      start := heapStart;
      bytes := new Byte[HEAP_SIZE](i => 0);
      allocs := new Alloc[MAX_ALLOCS](i => Alloc(0, 0));
      new;
      assert allocs[..] == Fresh().table && bytes[..] == Fresh().bytes;
    }

    /** The end of some live block that overlaps the candidate range, if there is one. */
    method FindOverlap(offset: nat, total: nat) returns (r: Option<nat>)
      requires allocs.Length == MAX_ALLOCS
      ensures r.Some? ==> exists i :: 0 <= i < MAX_ALLOCS && Live(allocs[..], i)
                            && r.value == allocs[i].offset + allocs[i].size
                            && !Disjoint(offset, total, allocs[i].offset, allocs[i].size)
      ensures r.None? ==> forall i :: 0 <= i < MAX_ALLOCS && Live(allocs[..], i) ==>
                            Disjoint(offset, total, allocs[i].offset, allocs[i].size)
    {
      for i := 0 to MAX_ALLOCS
        invariant forall k :: 0 <= k < i && Live(allocs[..], k) ==>
                    Disjoint(offset, total, allocs[k].offset, allocs[k].size)
      {
        if allocs[i].size > 0 {
          var aStart := allocs[i].offset;
          var aEnd := aStart + allocs[i].size;
          if offset < aEnd && offset + total > aStart {
            assert Live(allocs[..], i);
            return Some(aEnd);
          }
        }
      }
      return None;
    }

    /** Enter the block into the first free entry and clear the requested bytes; null if all
        entries are live. `overrun` says that clearing runs past the end of the heap. */
    method Claim(offset: nat, total: nat, totalReq: nat) returns (p: Word, overrun: bool)
      requires bytes.Length == HEAP_SIZE && allocs.Length == MAX_ALLOCS
      requires offset <= HEAP_SIZE && start + HEAP_SIZE <= USIZE_MAX
      modifies bytes, allocs
      ensures var s := old(View());
              if FirstFree(s.table) < MAX_ALLOCS then
                p == start + offset && overrun == (offset + totalReq > HEAP_SIZE)
                && View() == State(s.table[FirstFree(s.table) := Alloc(offset, total)], Zeroed(s.bytes, offset, totalReq))
              else p == 0 && !overrun && View() == s
    {
      hide FirstFree, Zeroed;
      ghost var s := View();
      for i := 0 to MAX_ALLOCS
        invariant View() == s
        invariant forall k :: 0 <= k < i ==> s.table[k].size > 0
      {
        if allocs[i].size == 0 {
          FirstFreeIs(s.table, i);
          allocs[i] := Alloc(offset, total);
          overrun := FillZero(offset, totalReq);
          assert allocs[..] == s.table[i := Alloc(offset, total)];
          return start + offset, overrun;
        }
      }
      FirstFreeIs(s.table, MAX_ALLOCS);
      return 0, false;
    }

    /** A null pointer is zero. The source asks its callers for a product that fits a word. `overrun`
        stands for a write beyond the heap: it happens exactly when rounding the product wraps and an
        entry is free, and then the pointer returned has no block behind it and every live block's
        bytes are cleared. */
    method Calloc(nobj: nat, size: nat) returns (p: Word, overrun: bool)
      requires Valid() && nobj * size <= USIZE_MAX
      modifies bytes, allocs
      ensures Valid()
      ensures overrun <==> RoundingWraps(nobj * size) && FirstFree(old(View()).table) < MAX_ALLOCS
      ensures View() == Calloced(old(View()), nobj * size)
      ensures p == if overrun then start
                   else match Placed(old(View()), nobj * size)
                     case None => 0
                     case Some(offset) => start + offset
    {
      hide Sound, FirstFree, Zeroed, Disjoint, Rounded, LowestFit;
      var totalReq: Word := nobj * size;
      ghost var s := View();
      AllocationKeepsSound(s, totalReq);
      FirstFreeMeans(s.table);
      OverrunIsSound(s);
      if totalReq == 0 {
        return 0, false;
      }
      var total := WrappedRounding(totalReq);
      RoundingIsExact(totalReq);
      var offset := 0;
      while offset + total <= HEAP_SIZE
        modifies {}
        invariant if total == 0 then offset == 0
                  else LowestFit(s.table, total, 0) == LowestFit(s.table, total, offset)
        decreases HEAP_SIZE - offset
      {
        var overlap := FindOverlap(offset, total);
        if overlap.None? {
          forall i | 0 <= i < |s.table| && Live(s.table, i)
            ensures Disjoint(offset, total, s.table[i].offset, s.table[i].size)
          {
            assert s.table[i] == allocs[i] && Live(allocs[..], i);
          }
          assert Fits(s.table, offset, total);
          break;
        }
        ghost var i :| 0 <= i < MAX_ALLOCS && Live(allocs[..], i) && overlap.value == allocs[i].offset + allocs[i].size
                       && !Disjoint(offset, total, allocs[i].offset, allocs[i].size);
        OverlapGoesBeyond(offset, total, s.table[i]);
        SkippingIsSafe(s.table, total, offset, overlap.value, i);
        offset := overlap.value;
      }
      LowestFitUnfolds(s.table, total, offset);
      RequestTooLarge(s, totalReq);
      if totalReq >= HEAP_SIZE {
        AllZeroed(s.bytes, totalReq);
      }
      if offset + total <= HEAP_SIZE {
        p, overrun := Claim(offset, total, totalReq);
      } else {
        p, overrun := 0, false;
      }
    }

    /** `write_bytes`: the part inside the heap is cleared; says whether there was more. */
    method FillZero(offset: nat, n: nat) returns (overrun: bool)
      requires offset <= bytes.Length
      modifies bytes
      ensures bytes[..] == Zeroed(old(bytes[..]), offset, n) && overrun == (offset + n > bytes.Length)
    {
      overrun := offset + n > bytes.Length;
      var end := if overrun then bytes.Length - offset else n;
      for i := 0 to end
        invariant forall b :: 0 <= b < bytes.Length ==>
                    bytes[b] == if offset <= b < offset + i then 0 else old(bytes[b])
      {
        bytes[offset + i] := 0;
      }
    }

    /** Any pointer may be passed: null and foreign pointers are ignored. */
    method Free(p: Word)
      requires Valid()
      modifies allocs
      ensures Valid()
      ensures View() == if start <= p < start + HEAP_SIZE then Freed(old(View()), p - start) else old(View())
    {
      if p == 0 {
        return;
      }
      if p < start || p >= start + HEAP_SIZE {
        return;
      }
      var offset := p - start;
      ghost var s := View();
      FreeingIsExact(s, offset);
      EntryAtMeans(s.table, offset);
      for i := 0 to MAX_ALLOCS
        invariant View() == s
        invariant forall k :: 0 <= k < i ==> !(Live(s.table, k) && s.table[k].offset == offset)
      {
        if allocs[i].size > 0 && allocs[i].offset == offset {
          EntryAtIs(s, i);
          allocs[i] := Alloc(allocs[i].offset, 0);
          assert allocs[..] == s.table[i := Alloc(s.table[i].offset, 0)];
          return;
        }
      }
    }
  }
}
