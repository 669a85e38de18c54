/** The control word of a call as clients pack it (types.rs), and what a call made with one leads to
    (connection.rs, api.rs). */
module ControlWords {
  import opened Basics
  import opened Connections
  import D = IpcDispatcher

  function Flag(b: bool, bit: Word): Word {
    if b then bit else 0
  }

  /** `CtrlParam::new`: type in the low half, three bits of output count from bit 16, three bits of input
      count from bit 24, and the two marks of the non-secure side. */
  function Packed(kind: nat, ivecs: Byte, inNs: bool, ovecs: Byte, outNs: bool): Word
    requires kind < 0x1_0000
  {
    kind + 0x1_0000 * (ovecs % 8) + Flag(outNs, 0x8_0000) + 0x100_0000 * (ivecs % 8) + Flag(inNs, 0x800_0000)
  }

  /** A packed word unpacks to what was packed: the type as a signed half word, the low three bits of the
      counts. Counts are looked at if any bit above the type is set. */
  lemma PackedUnpacks(kind: nat, ivecs: Byte, inNs: bool, ovecs: Byte, outNs: bool)
    requires kind < 0x1_0000
    ensures var p := CtrlParam(Packed(kind, ivecs, inNs, ovecs, outNs));
            && p.UnpackType() == (if kind < 0x8000 then kind else kind - 0x1_0000)
            && p.InLen() == ivecs % 8 && p.OutLen() == ovecs % 8
            && (p.HasIovec() <==> ivecs % 8 != 0 || ovecs % 8 != 0 || inNs || outNs)
  {
    var i, o := ivecs % 8 + Flag(inNs, 8), ovecs % 8 + Flag(outNs, 8);
    SplitAt16(kind, o + 0x100 * i);
    SplitAt24(kind + 0x1_0000 * o, i);
    LowThree(ivecs % 8, if inNs then 1 else 0);
    LowThree(ovecs % 8, (if outNs then 1 else 0) + 0x20 * i);
  }

  lemma SplitAt16(low: nat, high: nat)
    requires low < 0x1_0000
    ensures (low + 0x1_0000 * high) / 0x1_0000 == high && (low + 0x1_0000 * high) % 0x1_0000 == low
  {
  }

  lemma SplitAt24(low: nat, high: nat)
    requires low < 0x100_0000
    ensures (low + 0x100_0000 * high) / 0x100_0000 == high
  {
  }

  lemma LowThree(low: nat, high: nat)
    requires low < 8
    ensures (low + 8 * high) % 8 == low
  {
  }

  /** Parameters are accepted exactly for a type that is not negative and at most four vectors, and are then
      what the client packed. */
  lemma PackedParams(kind: nat, i: Byte, inNs: bool, o: Byte, outNs: bool)
    requires kind < 0x1_0000 && i < 8 && o < 8
    ensures ValidateCallParams(CtrlParam(Packed(kind, i, inNs, o, outNs))) ==
            if kind < 0x8000 && i + o <= 4 then Ok(CallParams(kind, i, o)) else Err(ProgrammerError)
  {
    PackedUnpacks(kind, i, inNs, o, outNs);
  }

  /** A vector that is empty, or a range that is not null, ends in the address space and may be used. */
  predicate Proper(perm: Permission, v: FFVec, isWrite: bool, caller: CallerAttributes) {
    v.len == 0 || (v.base != 0 && v.base + v.len <= 0xFFFF_FFFF && perm(v.base, v.len, isWrite, caller))
  }

  /** Inputs one after the other in memory, in any order. */
  ghost predicate Apart(vs: seq<FFVec>) {
    forall j, k :: 0 <= j < k < |vs| ==> vs[j].base + vs[j].len <= vs[k].base || vs[k].base + vs[k].len <= vs[j].base
  }

  /** A request for i proper inputs that lie apart and o proper outputs, with a word that says so, is
      accepted if and only if there are at most four vectors. */
  lemma ProperRequestIsAccepted(perm: Permission, kind: nat, i: Byte, inNs: bool, o: Byte, outNs: bool,
                                inVecs: seq<FFVec>, outVecs: seq<FFVec>, caller: CallerAttributes)
    requires kind < 0x8000 && i < 8 && o < 8 && |inVecs| == i && |outVecs| == o
    requires forall v :: v in inVecs ==> Proper(perm, v, false, caller)
    requires forall v :: v in outVecs ==> Proper(perm, v, true, caller)
    requires Apart(inVecs)
    ensures Acceptable(perm, CtrlParam(Packed(kind, i, inNs, o, outNs)), inVecs, outVecs, caller) <==> i + o <= 4
  {
    hide Packed;
    PackedParams(kind, i, inNs, o, outNs);
    forall k | 0 <= k < |inVecs| ensures UsableVec(perm, inVecs[k], false, caller) && !Wraps(inVecs[k]) {
      assert Proper(perm, inVecs[k], false, caller);
    }
    forall k | 0 <= k < |outVecs| ensures UsableVec(perm, outVecs[k], true, caller) {
      assert Proper(perm, outVecs[k], true, caller);
    }
    forall j, k | 0 <= j < k < |inVecs| ensures !RangesOverlap(inVecs[j], inVecs[k]) {
    }
  }

  /** The other way round: a request with other counts than its word says, or with an improper vector, is
      refused whatever else it holds. */
  lemma ImproperRequestIsRefused(perm: Permission, kind: nat, i: Byte, inNs: bool, o: Byte, outNs: bool,
                                 inVecs: seq<FFVec>, outVecs: seq<FFVec>, caller: CallerAttributes)
    requires kind < 0x1_0000 && i < 8 && o < 8
    requires || kind >= 0x8000 || |inVecs| != i || |outVecs| != o
             || (exists v :: v in inVecs && !Proper(perm, v, false, caller))
             || (exists v :: v in outVecs && !Proper(perm, v, true, caller))
    ensures !Acceptable(perm, CtrlParam(Packed(kind, i, inNs, o, outNs)), inVecs, outVecs, caller)
  {
    hide Packed;
    PackedParams(kind, i, inNs, o, outNs);
    if v :| v in inVecs && !Proper(perm, v, false, caller) {
      var k :| 0 <= k < |inVecs| && inVecs[k] == v;
      assert !UsableVec(perm, inVecs[k], false, caller);
    } else if v :| v in outVecs && !Proper(perm, v, true, caller) {
      var k :| 0 <= k < |outVecs| && outVecs[k] == v;
      assert !UsableVec(perm, outVecs[k], true, caller);
    }
  }

  /** The connection of an accepted request says who calls whom with what: handle, caller, type, and each
      vector's base and length at its index; unused entries say none, and nothing has been touched. */
  lemma ConnectionSaysRequest(c: Connection, h: ServiceHandle, kind: nat, i: Byte, inNs: bool, o: Byte, outNs: bool,
                              inVecs: seq<FFVec>, outVecs: seq<FFVec>, caller: CallerAttributes, k: nat)
    requires kind < 0x8000 && i + o <= 4 && |inVecs| == i && |outVecs| == o && k < 4
    requires BuiltFrom(c, h, CtrlParam(Packed(kind, i, inNs, o, outNs)), inVecs, outVecs, caller)
    ensures c.msg.handle == h && c.msg.msgType == kind && c.msg.caller == caller
    ensures if k < i then c.msg.inSize[k] == MaybeUsize(inVecs[k].len) && c.invecBase[k] == inVecs[k].base
            else c.msg.inSize[k] == MaybeUsize(0xFFFF_FFFF) && c.invecBase[k] == 0
    ensures if k < o then c.msg.outSize[k] == MaybeUsize(outVecs[k].len) && c.outvecBase[k] == outVecs[k].base
            else c.msg.outSize[k] == MaybeUsize(0xFFFF_FFFF) && c.outvecBase[k] == 0
    ensures !c.invecMapped[k] && !c.invecUnmapped[k] && !c.outvecMapped[k] && !c.outvecUnmapped[k]
    ensures c.invecAccessed[k] == 0 && c.outvecWritten[k] == 0
  {
    hide Packed;
    PackedParams(kind, i, inNs, o, outNs);
  }

  // ----- Which error -----------------------------------------------------------------------

  /** The vector is a proper range, but the caller may not use it that way. */
  predicate Forbidden(perm: Permission, v: FFVec, isWrite: bool, caller: CallerAttributes) {
    v.len > 0 && v.base != 0 && v.base + v.len <= 0xFFFF_FFFF && !perm(v.base, v.len, isWrite, caller)
  }

  lemma {:induction false} FirstErrorIs(perm: Permission, vs: seq<FFVec>, isWrite: bool, caller: CallerAttributes)
    ensures FirstVecError(perm, vs, isWrite, caller).None? <==> forall v :: v in vs ==> Proper(perm, v, isWrite, caller)
    ensures FirstVecError(perm, vs, isWrite, caller) == Some(InvalidArgument) <==>
            exists k :: 0 <= k < |vs| && Forbidden(perm, vs[k], isWrite, caller)
                        && forall j :: 0 <= j < k ==> Proper(perm, vs[j], isWrite, caller)
    ensures FirstVecError(perm, vs, isWrite, caller) in {None, Some(InvalidArgument), Some(ProgrammerError)}
    decreases |vs|
  {
    if vs != [] {
      var rest := vs[1..];
      FirstErrorIs(perm, rest, isWrite, caller);
      if Proper(perm, vs[0], isWrite, caller) {
        assert forall v :: v in vs <==> v == vs[0] || v in rest;
        if k :| 0 <= k < |rest| && Forbidden(perm, rest[k], isWrite, caller)
                && forall j :: 0 <= j < k ==> Proper(perm, rest[j], isWrite, caller) {
          assert vs[k + 1] == rest[k];
          assert forall j :: 0 < j < k + 1 ==> vs[j] == rest[j - 1];
        }
        if k :| 0 <= k < |vs| && Forbidden(perm, vs[k], isWrite, caller)
                && forall j :: 0 <= j < k ==> Proper(perm, vs[j], isWrite, caller) {
          assert rest[k - 1] == vs[k];
          assert forall j :: 0 <= j < k - 1 ==> rest[j] == vs[j + 1];
        }
      } else {
        assert vs[0] in vs;
        assert Forbidden(perm, vs[0], isWrite, caller) <==>
               FirstVecError(perm, vs, isWrite, caller) == Some(InvalidArgument);
      }
    }
  }

  /** A refused request is the programmer's error, unless the word, the counts and the inputs' places are in
      order and the first improper vector, inputs before outputs, is one its caller may not use. */
  lemma RefusalSaysWhy(perm: Permission, kind: nat, i: Byte, inNs: bool, o: Byte, outNs: bool,
                       inVecs: seq<FFVec>, outVecs: seq<FFVec>, caller: CallerAttributes)
    requires kind < 0x1_0000 && i < 8 && o < 8
    requires !Acceptable(perm, CtrlParam(Packed(kind, i, inNs, o, outNs)), inVecs, outVecs, caller)
    ensures var e := CallError(perm, CtrlParam(Packed(kind, i, inNs, o, outNs)), inVecs, outVecs, caller);
            && e in {ProgrammerError, InvalidArgument}
            && (e == InvalidArgument <==>
                && kind < 0x8000 && i + o <= 4 && |inVecs| == i && |outVecs| == o && NonOverlapAccepted(inVecs)
                && ((exists k :: 0 <= k < i && Forbidden(perm, inVecs[k], false, caller)
                                 && forall j :: 0 <= j < k ==> Proper(perm, inVecs[j], false, caller))
                    || ((forall v :: v in inVecs ==> Proper(perm, v, false, caller))
                        && exists k :: 0 <= k < o && Forbidden(perm, outVecs[k], true, caller)
                                       && forall j :: 0 <= j < k ==> Proper(perm, outVecs[j], true, caller))))
  {
    hide Packed, FirstVecError, NonOverlapAccepted, Forbidden, Proper;
    PackedParams(kind, i, inNs, o, outNs);
    FirstErrorIs(perm, inVecs, false, caller);
    FirstErrorIs(perm, outVecs, true, caller);
  }

  // ----- At the pointers -------------------------------------------------------------------

  /** A call reads as many vectors at each pointer as its word says; the pointer of a direction with vectors
      must not be null. */
  lemma VectorsAtPointers(client: D.Client, kind: nat, i: Byte, inNs: bool, o: Byte, outNs: bool, inPtr: Word, outPtr: Word)
    requires kind < 0x1_0000 && i < 8 && o < 8
    ensures var r := D.RequestVecs(client, CtrlParam(Packed(kind, i, inNs, o, outNs)), inPtr, outPtr);
            if kind >= 0x8000 || i + o > 4 || (i > 0 && inPtr == 0) || (o > 0 && outPtr == 0) then r == Err(ProgrammerError)
            else
              && r.Ok? && |r.value.0| == i && |r.value.1| == o
              && (forall k :: 0 <= k < i ==> r.value.0[k] == client.inAt(inPtr, k))
              && (forall k :: 0 <= k < o ==> r.value.1[k] == client.outAt(outPtr, k))
  {
    PackedUnpacks(kind, i, inNs, o, outNs);
    hide Packed;
    PackedParams(kind, i, inNs, o, outNs);
  }
}
