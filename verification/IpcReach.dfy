/** What a process of the process-isolating SPM can reach while it runs: its code, its memory, its custom
    regions and each vector it has mapped, in this order, as long as a region is free and apart from the
    earlier ones (spm_ipc.rs, mpu.rs). */
module IpcReaches {
  import opened Basics
  import opened Connections
  import opened ConnectionStacks
  import opened Mpus
  import opened Processes
  import opened VectorPaths
  import opened SpmIpcs
  import opened IpcProtection
  import W = IpcWrites

  // ----- What should be reachable ----------------------------------------------------------

  /** Whole 32-byte blocks from the one that holds the first byte to the one that holds the last. */
  function Blocks(base: Word, size: Word, perm: Permissions): RegionRequest
    requires size > 0 && base + size + 31 <= 0xFFFF_FFFF
  {
    RegionRequest(base - base % 32, base + size + 31 - (base + size + 31) % 32 - (base - base % 32), perm)
  }

  /** The connection's vectors that are mapped and not released, if they are not empty. */
  predicate InUse(c: Connection, isOut: bool, i: nat)
    requires i < 4
  {
    if isOut then c.outvecMapped[i] && !c.outvecUnmapped[i] && 0 < c.msg.outSize[i].raw < 0xFFFF_FFFF
    else c.invecMapped[i] && !c.invecUnmapped[i] && 0 < c.msg.inSize[i].raw < 0xFFFF_FFFF
  }

  predicate InSpace(c: Connection) {
    forall i :: 0 <= i < 4 ==>
      && (0 < c.msg.inSize[i].raw < 0xFFFF_FFFF ==> c.invecBase[i] + c.msg.inSize[i].raw + 31 <= 0xFFFF_FFFF)
      && (0 < c.msg.outSize[i].raw < 0xFFFF_FFFF ==> c.outvecBase[i] + c.msg.outSize[i].raw + 31 <= 0xFFFF_FFFF)
  }

  function Vector(c: Connection, isOut: bool, i: nat): seq<RegionRequest>
    requires i < 4 && InSpace(c)
  {
    if !InUse(c, isOut, i) then []
    else if isOut then [Blocks(c.outvecBase[i], c.msg.outSize[i].raw, ReadWriteXN)]
    else [Blocks(c.invecBase[i], c.msg.inSize[i].raw, ReadXN)]
  }

  function Vectors(c: Connection, isOut: bool, n: nat): seq<RegionRequest>
    requires n <= 4 && InSpace(c)
  {
    (if n > 0 then Vector(c, isOut, 0) else []) + (if n > 1 then Vector(c, isOut, 1) else [])
    + (if n > 2 then Vector(c, isOut, 2) else []) + (if n > 3 then Vector(c, isOut, 3) else [])
  }

  function Code(v: ServiceVectors): RegionRequest {
    RegionRequest(v.romStart, if v.romLimit < v.romStart then 0 else v.romLimit - v.romStart, ReadExecute)
  }

  function Data(v: ServiceVectors): RegionRequest {
    RegionRequest(v.ramStart, if v.ramLimit < v.ramStart then 0 else v.ramLimit - v.ramStart, ReadWriteXN)
  }

  /** Code, memory and custom regions of process p. */
  function Own(pf: Platform, p: nat): seq<RegionRequest>
    requires p < |pf.processes|
  {
    [Code(pf.processes[p].vectors), Data(pf.processes[p].vectors)] + pf.custom(pf.processes[p].handle)
  }

  // ----- What is programmed ----------------------------------------------------------------

  lemma VectorIs(c: Connection, i: nat)
    requires i < 4 && InSpace(c)
    ensures Vector(c, false, i) == if LiveIn(c, i) then [VecRequest(c.invecBase[i], InLen(c, i), ReadXN)] else []
    ensures Vector(c, true, i) == if LiveOut(c, i) then [VecRequest(c.outvecBase[i], OutLen(c, i), ReadWriteXN)] else []
  {
    if InUse(c, false, i) {
      BlocksAre(c.invecBase[i], InLen(c, i), ReadXN);
    }
    if InUse(c, true, i) {
      BlocksAre(c.outvecBase[i], OutLen(c, i), ReadWriteXN);
    }
    hide VecRequest, Blocks;
  }

  lemma BlocksAre(base: Word, size: Word, perm: Permissions)
    requires size > 0 && base + size + 31 <= 0xFFFF_FFFF
    ensures Blocks(base, size, perm) == VecRequest(base, size, perm) && WellFormed(Blocks(base, size, perm))
  {
    hide WellFormed, Wrap;
    WideningIsExact(base, size, perm, 0);
    WrapSmall(base + size + 31);
    assert 0 <= Floor32(base + size + 31) - Floor32(base) < TWO_32 by { BlocksAround(base, size); }
    WrapSmall(Floor32(base + size + 31) - Floor32(base));
    assert VecRequest(base, size, perm) == RegionRequest(Floor32(base), Floor32(base + size + 31) - Floor32(base), perm);
  }

  lemma {:induction false} VectorsAre(c: Connection, n: nat)
    requires n <= 4 && InSpace(c)
    ensures InRequests(c, n) == Vectors(c, false, n) && OutRequests(c, n) == Vectors(c, true, n)
  {
    hide VecRequest, Vector, LiveIn, LiveOut, InSpace;
    if n > 0 {
      VectorsAre(c, n - 1);
      VectorIs(c, n - 1);
      OneMoreVector(c, false, n - 1);
      OneMoreVector(c, true, n - 1);
      hide Vectors;
    }
  }

  lemma OneMoreVector(c: Connection, isOut: bool, n: nat)
    requires n < 4 && InSpace(c)
    ensures Vectors(c, isOut, n + 1) == Vectors(c, isOut, n) + Vector(c, isOut, n)
  {
    hide Vector, InSpace;
  }

  lemma RequestsAre(pf: Platform, p: nat, stack: Stack, c: Connection)
    requires p < |pf.processes| && Peek(stack) == Ok(c) && FindProcess(pf.processes, c.msg.handle) == Some(p)
    requires InSpace(c)
    ensures Requests(pf, p, stack) == Own(pf, p) + Vectors(c, false, 4) + Vectors(c, true, 4)
  {
    hide InRequests, OutRequests, Vectors;
    VectorsAre(c, 4);
    var ins, outs := Vectors(c, false, 4), Vectors(c, true, 4);
    assert Own(pf, p) + (ins + outs) == Own(pf, p) + ins + outs;
  }

  /** Some region has exactly these bounds, these access and execute bits, and is enabled but not for
      privileged execution. */
  ghost predicate HasRegion(regions: seq<RegionConfig>, r: RegionRequest, bits: Word) {
    exists i :: 0 <= i < |regions| && IsRegion(regions[i], r, bits)
  }

  predicate IsRegion(rc: RegionConfig, r: RegionRequest, bits: Word) {
    rc.rbar == r.base + bits && rc.rlar == r.base + r.size - 32 + 0x11
  }

  lemma GrantIsProgrammed(rs: seq<RegionRequest>, n: nat, r: RegionRequest)
    requires (forall q :: q in rs ==> InRange(q)) && r in Granted(rs, n)
    ensures HasRegion(Programmed(AllocateAll(rs, EmptyConfig(n))), r, AccessBits(r.perm))
  {
    AllocationIsGreedy(rs, n);
    GrantedIsWellFormed(rs, n);
    var granted := Granted(rs, n);
    var i :| 0 <= i < |granted| && granted[i] == r;
    hide AllocateAll, Granted, WellFormed;
    SlotOfGrants(granted, n, i);
    RegisterPair(r);
    hide Pack, Encode, Programmed;
    assert |Programmed(Encode(granted, n))| == n by { EncodedLength(granted, n); }
    assert IsRegion(Programmed(Encode(granted, n))[i], r, AccessBits(r.perm));
  }

  lemma EncodedLength(granted: seq<RegionRequest>, n: nat)
    ensures |Programmed(Encode(granted, n))| == n
  {
  }

  lemma RegisterPair(r: RegionRequest)
    requires WellFormed(r)
    ensures IsRegion(Pack(r), r, AccessBits(r.perm))
  {
    PackIs(r);
  }

  /** A request that would be granted after the ones before it is programmed. */
  lemma AdmissibleIsProgrammed(before: seq<RegionRequest>, r: RegionRequest, after: seq<RegionRequest>, n: nat)
    requires forall q :: q in before + [r] + after ==> InRange(q)
    requires Admissible(r, Granted(before, n), n)
    ensures HasRegion(Programmed(AllocateAll(before + [r] + after, EmptyConfig(n))), r, AccessBits(r.perm))
  {
    hide Admissible, HasRegion, AllocateAll, Programmed;
    W.LastIsGranted(before, r, n);
    W.GrantsGrow(before + [r], after, n);
    GrantIsProgrammed(before + [r] + after, n, r);
  }

  /** None of the requests leaves the address space. */
  ghost predicate AllInSpace(pf: Platform, p: nat, c: Connection)
    requires p < |pf.processes|
  {
    InSpace(c) && forall q :: q in pf.custom(pf.processes[p].handle) ==> q.base + q.size <= 0xFFFF_FFFF
  }

  lemma WantedInRange(pf: Platform, p: nat, c: Connection)
    requires p < |pf.processes| && AllInSpace(pf, p, c)
    ensures forall q :: q in Own(pf, p) + Vectors(c, false, 4) + Vectors(c, true, 4) ==> InRange(q)
  {
    hide Blocks;
    forall i, isOut, q | 0 <= i < 4 && q in Vector(c, isOut, i) ensures InRange(q) {
      if isOut {
        BlocksAre(c.outvecBase[i], c.msg.outSize[i].raw, ReadWriteXN);
      } else {
        BlocksAre(c.invecBase[i], c.msg.inSize[i].raw, ReadXN);
      }
    }
    hide Vector, InSpace, InUse;
  }

  lemma ReachedInOrder(pf: Platform, p: nat, stack: Stack, c: Connection,
                       before: seq<RegionRequest>, r: RegionRequest, after: seq<RegionRequest>)
    requires p < |pf.processes| && Peek(stack) == Ok(c) && FindProcess(pf.processes, c.msg.handle) == Some(p)
    requires AllInSpace(pf, p, c) && before + [r] + after == Own(pf, p) + Vectors(c, false, 4) + Vectors(c, true, 4)
    ensures Admissible(r, Granted(before, 8), 8) ==> HasRegion(Applied(pf, p, stack), r, AccessBits(r.perm))
  {
    hide Admissible, HasRegion, AllocateAll, Programmed, Vectors, Own;
    RequestsAre(pf, p, stack, c);
    WantedInRange(pf, p, c);
    if Admissible(r, Granted(before, 8), 8) {
      AdmissibleIsProgrammed(before, r, after, 8);
    }
  }

  /** The process can read and execute its code, and read and write its memory, unless these are no regions
      or the memory overlaps the code. */
  lemma OwnMemoryIsReached(pf: Platform, p: nat, stack: Stack, c: Connection)
    requires p < |pf.processes| && Peek(stack) == Ok(c) && FindProcess(pf.processes, c.msg.handle) == Some(p)
    requires AllInSpace(pf, p, c)
    ensures var v, regions := pf.processes[p].vectors, Applied(pf, p, stack);
            && (WellFormed(Code(v)) ==> HasRegion(regions, Code(v), 6))
            && (WellFormed(Data(v)) && (WellFormed(Code(v)) ==> Mpus.Apart(Data(v), Code(v))) ==>
                  HasRegion(regions, Data(v), 2))
  {
    hide HasRegion, Applied, Vectors, Admissible, Granted, WellFormed, Code, Data;
    var v, custom := pf.processes[p].vectors, pf.custom(pf.processes[p].handle);
    var ins, outs := Vectors(c, false, 4), Vectors(c, true, 4);
    var rest := custom + ins + outs;
    OwnFirst(Code(v), Data(v), custom, ins, outs);
    hide AllInSpace;
    ReachedInOrder(pf, p, stack, c, [], Code(v), [Data(v)] + rest);
    ReachedInOrder(pf, p, stack, c, [Code(v)], Data(v), rest);
    OwnAdmissible(v);
  }

  lemma OwnFirst(code: RegionRequest, data: RegionRequest, custom: seq<RegionRequest>,
                 ins: seq<RegionRequest>, outs: seq<RegionRequest>)
    ensures [] + [code] + ([data] + (custom + ins + outs)) == [code, data] + custom + ins + outs
    ensures [code] + [data] + (custom + ins + outs) == [code, data] + custom + ins + outs
  {
  }

  lemma OwnAdmissible(v: ServiceVectors)
    ensures WellFormed(Code(v)) ==> Admissible(Code(v), Granted([], 8), 8)
    ensures WellFormed(Data(v)) && (WellFormed(Code(v)) ==> Mpus.Apart(Data(v), Code(v))) ==>
              Admissible(Data(v), Granted([Code(v)], 8), 8)
    ensures Code(v).perm == ReadExecute && Data(v).perm == ReadWriteXN
  {
    assert [Code(v)][..0] == [];
  }

  /** The vectors before one, itself, and the ones behind it. */
  lemma VectorsSplit(c: Connection, isOut: bool, i: nat) returns (after: seq<RegionRequest>)
    requires i < 4 && InSpace(c)
    ensures Vectors(c, isOut, i) + Vector(c, isOut, i) + after == Vectors(c, isOut, 4)
    decreases 4 - i
  {
    hide Vector, Vectors, InSpace;
    OneMoreVector(c, isOut, i);
    after := [];
    if i < 3 {
      var rest := VectorsSplit(c, isOut, i + 1);
      after := Vector(c, isOut, i + 1) + rest;
      assert Vectors(c, isOut, i + 1) + Vector(c, isOut, i + 1) + rest == Vectors(c, isOut, i + 1) + after;
    }
  }

  /** An input that is mapped and not released has a read-only region of its blocks, unless that is refused
      after the process's own regions and the inputs before it. */
  lemma InputIsReached(pf: Platform, p: nat, stack: Stack, c: Connection, i: nat)
    requires p < |pf.processes| && Peek(stack) == Ok(c) && FindProcess(pf.processes, c.msg.handle) == Some(p)
    requires AllInSpace(pf, p, c) && i < 4 && InUse(c, false, i)
    ensures var r := Blocks(c.invecBase[i], c.msg.inSize[i].raw, ReadXN);
            Admissible(r, Granted(Own(pf, p) + Vectors(c, false, i), 8), 8) ==> HasRegion(Applied(pf, p, stack), r, 7)
  {
    hide HasRegion, Applied, Admissible, Own, Blocks, Vectors;
    BlocksPerm(c.invecBase[i], c.msg.inSize[i].raw, ReadXN);
    var r := Blocks(c.invecBase[i], c.msg.inSize[i].raw, ReadXN);
    assert Vector(c, false, i) == [r];
    hide InSpace, InUse, Vector;
    var after := VectorsSplit(c, false, i);
    var ins, outs := Vectors(c, false, i), Vectors(c, true, 4);
    Regrouped(Own(pf, p), ins, [r], after, outs);
    ReachedInOrder(pf, p, stack, c, Own(pf, p) + ins, r, after + outs);
  }

  lemma Regrouped<T>(a: seq<T>, b: seq<T>, c: seq<T>, d: seq<T>, e: seq<T>)
    ensures a + b + c + (d + e) == a + (b + c + d) + e
    ensures a + b + c + d == a + (b + c + d)
  {
  }

  lemma BlocksPerm(base: Word, size: Word, perm: Permissions)
    requires size > 0 && base + size + 31 <= 0xFFFF_FFFF
    ensures Blocks(base, size, perm).perm == perm
  {
  }

  /** An output likewise has a read-write region, after all inputs and the outputs before it. */
  lemma OutputIsReached(pf: Platform, p: nat, stack: Stack, c: Connection, o: nat)
    requires p < |pf.processes| && Peek(stack) == Ok(c) && FindProcess(pf.processes, c.msg.handle) == Some(p)
    requires AllInSpace(pf, p, c) && o < 4 && InUse(c, true, o)
    ensures var r := Blocks(c.outvecBase[o], c.msg.outSize[o].raw, ReadWriteXN);
            Admissible(r, Granted(Own(pf, p) + Vectors(c, false, 4) + Vectors(c, true, o), 8), 8) ==>
              HasRegion(Applied(pf, p, stack), r, 2)
  {
    hide HasRegion, Applied, Admissible, Own, Blocks, Vectors;
    BlocksPerm(c.outvecBase[o], c.msg.outSize[o].raw, ReadWriteXN);
    var r := Blocks(c.outvecBase[o], c.msg.outSize[o].raw, ReadWriteXN);
    assert Vector(c, true, o) == [r];
    hide InSpace, InUse, Vector;
    var after := VectorsSplit(c, true, o);
    var outs, before := Vectors(c, true, o), Own(pf, p) + Vectors(c, false, 4);
    Regrouped(before, outs, [r], after, []);
    ReachedInOrder(pf, p, stack, c, before + outs, r, after);
  }

  // ----- After a successful access ---------------------------------------------------------

  /** The vector that ACCESS_VEC hands out is reachable when the service resumes: the MPU has a region with
      the right access for every block of it, unless that region is refused after the earlier ones. */
  lemma LentVectorIsReached(pf: Platform, s: State, f: Frame, c: Connection, p: nat)
    requires Peek(s.stack) == Ok(c) && FindProcess(pf.processes, c.msg.handle) == Some(p)
    requires AllInSpace(pf, p, c) && AccessStep(pf, s, f).1.r0 == 0 && AccessStep(pf, s, f).1.r2 > 0
    ensures var (after, answer) := AccessStep(pf, s, f);
            && answer.r1 + answer.r2 + 31 <= 0xFFFF_FFFF && f.r1 < 4 && Peek(after.stack).Ok?
            && var d := Peek(after.stack).value;
               && InSpace(d)
               && var earlier := if f.r2 != 0 then Own(pf, p) + Vectors(d, false, 4) + Vectors(d, true, f.r1)
                                 else Own(pf, p) + Vectors(d, false, f.r1);
                  var r := Blocks(answer.r1, answer.r2, if f.r2 != 0 then ReadWriteXN else ReadXN);
                  Admissible(r, Granted(earlier, 8), 8) ==> HasRegion(after.regions, r, if f.r2 != 0 then 2 else 7)
  {
    hide Applied, HasRegion, Admissible, Granted, Own, Vectors, Blocks;
    AccessIs(pf, s, f, c, p);
    var after := AccessStep(pf, s, f).0;
    var d := Peek(after.stack).value;
    hide AccessStep;
    if f.r2 != 0 {
      OutputIsReached(pf, p, after.stack, d, f.r1);
    } else {
      InputIsReached(pf, p, after.stack, d, f.r1);
    }
  }

  lemma AccessIs(pf: Platform, s: State, f: Frame, c: Connection, p: nat)
    requires Peek(s.stack) == Ok(c) && FindProcess(pf.processes, c.msg.handle) == Some(p)
    requires AllInSpace(pf, p, c) && AccessStep(pf, s, f).1.r0 == 0 && AccessStep(pf, s, f).1.r2 > 0
    ensures var (after, answer) := AccessStep(pf, s, f);
            && f.r1 < 4 && Peek(after.stack).Ok?
            && var d := Peek(after.stack).value;
               && after.regions == Applied(pf, p, after.stack) && d.msg == c.msg && AllInSpace(pf, p, d)
               && InUse(d, f.r2 != 0, f.r1)
               && (if f.r2 != 0 then answer.r1 == d.outvecBase[f.r1] && answer.r2 == d.msg.outSize[f.r1].raw
                   else answer.r1 == d.invecBase[f.r1] && answer.r2 == d.msg.inSize[f.r1].raw)
  {
    hide Applied;
    StatusIsReadBack(InvalidHandle);
    StatusIsReadBack(ProgrammerError);
    StatusIsReadBack(CommunicationFailure);
    StatusIsReadBack(Success);
    var h := HandleFromWord(f.r0);
    assert h.Some?;
    var (prepared, raw) := PrepareRaw(c, h.value, f.r2 != 0, f.r1);
    assert raw.Ok?;
    ActiveIsReplaced(s.stack, prepared);
    ActiveIsReplaced(WithActive(s.stack, prepared), Remapped(prepared, f.r2 != 0, f.r1, true));
  }
}
