/** Connections, the life cycle of their vectors, and the checks that build them
    (spm.rs, connection.rs and the message types of api.rs). */
module Connections {
  import opened Basics

  const PSA_MAX_IOVEC: nat := 4

  datatype ServiceHandle = InternalTrustedStorageService | Crypto | AttestationService

  function HandleWord(h: ServiceHandle): Word {
    match h
    case InternalTrustedStorageService => 0x4000_0102
    case Crypto => 0x4000_0100
    case AttestationService => 0x4000_0103
  }

  function HandleFromWord(raw: Word): Option<ServiceHandle> {
    if raw == 0x4000_0102 then Some(InternalTrustedStorageService)
    else if raw == 0x4000_0100 then Some(Crypto)
    else if raw == 0x4000_0103 then Some(AttestationService)
    else None
  }

  datatype CallerAttributes = CallerAttributes(ns: bool, privileged: bool)

  /** An optional length in one word: the largest word stands for "none". */
  datatype MaybeUsize = MaybeUsize(raw: Word) {
    predicate IsSome() {
      raw != USIZE_MAX
    }

    function AsOption(): Option<Word> {
      if IsSome() then Some(raw) else None
    }

    function UnwrapOr(default: Word): Word {
      if IsSome() then raw else default
    }
  }

  const NONE := MaybeUsize(USIZE_MAX)

  datatype PsaMsg = PsaMsg(
    handle: ServiceHandle,
    msgType: int,
    caller: CallerAttributes,
    inSize: seq<MaybeUsize>,
    outSize: seq<MaybeUsize>)

  datatype RawConnection = RawConnection(
    msg: PsaMsg,
    invecBase: seq<Word>,
    invecAccessed: seq<Word>,
    invecMapped: seq<bool>,
    invecUnmapped: seq<bool>,
    outvecBase: seq<Word>,
    outvecWritten: seq<Word>,
    outvecMapped: seq<bool>,
    outvecUnmapped: seq<bool>)
  {
    predicate Shaped() {
      && |msg.inSize| == PSA_MAX_IOVEC && |msg.outSize| == PSA_MAX_IOVEC
      && |invecBase| == PSA_MAX_IOVEC && |invecAccessed| == PSA_MAX_IOVEC
      && |invecMapped| == PSA_MAX_IOVEC && |invecUnmapped| == PSA_MAX_IOVEC
      && |outvecBase| == PSA_MAX_IOVEC && |outvecWritten| == PSA_MAX_IOVEC
      && |outvecMapped| == PSA_MAX_IOVEC && |outvecUnmapped| == PSA_MAX_IOVEC
    }
  }

  const NO_SIZES: seq<MaybeUsize> := [NONE, NONE, NONE, NONE]
  const ZEROS: seq<Word> := [0, 0, 0, 0]
  const UNSET: seq<bool> := [false, false, false, false]

  /** A connection is a plain record that the stack copies in and out. */
  type Connection = c: RawConnection | c.Shaped() witness EMPTY

  const EMPTY := RawConnection(
    PsaMsg(Crypto, 0, CallerAttributes(false, false), NO_SIZES, NO_SIZES),
    ZEROS, ZEROS, UNSET, UNSET, ZEROS, ZEROS, UNSET, UNSET)

  datatype RawVec = RawVec(base: Word, len: Word)

  // ----- The vector life cycle -------------------------------------------------------------

  /** The effective length of a vector: what an access would hand out. */
  function InLen(c: Connection, i: nat): Word
    requires i < PSA_MAX_IOVEC
  {
    c.msg.inSize[i].UnwrapOr(0)
  }

  function OutLen(c: Connection, i: nat): Word
    requires i < PSA_MAX_IOVEC
  {
    c.msg.outSize[i].UnwrapOr(0)
  }

  predicate MayReadIn(c: Connection, i: nat) {
    i < PSA_MAX_IOVEC && !c.invecMapped[i] && c.invecAccessed[i] == 0
  }

  predicate MayWriteOut(c: Connection, i: nat) {
    i < PSA_MAX_IOVEC && !c.outvecMapped[i] && c.outvecWritten[i] == 0
  }

  predicate MayUnmapIn(c: Connection, i: nat) {
    i < PSA_MAX_IOVEC && !c.invecUnmapped[i]
  }

  predicate MayCommit(c: Connection, i: nat, outLen: Word, written: Word) {
    i < PSA_MAX_IOVEC && !c.outvecUnmapped[i] && written <= outLen
  }

  function InMapped(c: Connection, i: nat, mapped: bool): Connection
    requires i < PSA_MAX_IOVEC
  {
    c.(invecMapped := c.invecMapped[i := mapped])
  }

  function OutMapped(c: Connection, i: nat, mapped: bool): Connection
    requires i < PSA_MAX_IOVEC
  {
    c.(outvecMapped := c.outvecMapped[i := mapped])
  }

  function InUnmapped(c: Connection, i: nat, unmapped: bool): Connection
    requires i < PSA_MAX_IOVEC
  {
    c.(invecUnmapped := c.invecUnmapped[i := unmapped])
  }

  function Committed(c: Connection, i: nat, written: Word): Connection
    requires i < PSA_MAX_IOVEC
  {
    c.(outvecWritten := c.outvecWritten[i := written],
       outvecUnmapped := c.outvecUnmapped[i := true],
       msg := c.msg.(outSize := c.msg.outSize[i := MaybeUsize(written)]))
  }

  /** What `map_vec` and `unmap_vec` leave: both flags of one vector, or nothing for an index
      outside the arrays. */
  function Remapped(c: Connection, isOut: bool, i: nat, mapped: bool): Connection {
    if i >= PSA_MAX_IOVEC then c
    else if isOut then
      OutMapped(c, i, mapped).(outvecUnmapped := c.outvecUnmapped[i := !mapped])
    else
      InUnmapped(InMapped(c, i, mapped), i, !mapped)
  }

  /** The leased copy of a connection that the vector operations update field by field. */
  class ActiveConnection {
    var it: Connection

    constructor (c: Connection)
      ensures it == c
    {
      it := c;
    }

    method PrepareInvec(i: Word) returns (r: Result<RawVec, StatusCode>)
      modifies this
      ensures r == if MayReadIn(old(it), i)
                   then Ok(RawVec(old(it).invecBase[i], InLen(old(it), i))) else Err(ProgrammerError)
      ensures it == if MayReadIn(old(it), i) then InMapped(old(it), i, true) else old(it)
    {
      if i >= PSA_MAX_IOVEC {
        return Err(ProgrammerError);
      }
      var inLen := it.msg.inSize[i].UnwrapOr(0);
      if it.invecMapped[i] || it.invecAccessed[i] != 0 {
        return Err(ProgrammerError);
      }
      var base := it.invecBase[i];
      it := it.(invecMapped := it.invecMapped[i := true]);
      return Ok(RawVec(base, inLen));
    }

    method MarkInvecUnmapped(i: Word) returns (r: Result<(), StatusCode>)
      modifies this
      ensures r == if MayUnmapIn(old(it), i) then Ok(()) else Err(ProgrammerError)
      ensures it == if MayUnmapIn(old(it), i) then InUnmapped(old(it), i, true) else old(it)
    {
      if i >= PSA_MAX_IOVEC {
        return Err(ProgrammerError);
      }
      if it.invecUnmapped[i] {
        return Err(ProgrammerError);
      }
      it := it.(invecUnmapped := it.invecUnmapped[i := true]);
      return Ok(());
    }

    method PrepareOutvec(i: Word) returns (r: Result<RawVec, StatusCode>)
      modifies this
      ensures r == if MayWriteOut(old(it), i)
                   then Ok(RawVec(old(it).outvecBase[i], OutLen(old(it), i))) else Err(ProgrammerError)
      ensures it == if MayWriteOut(old(it), i) then OutMapped(old(it), i, true) else old(it)
    {
      if i >= PSA_MAX_IOVEC {
        return Err(ProgrammerError);
      }
      var outLen := it.msg.outSize[i].UnwrapOr(0);
      if it.outvecMapped[i] || it.outvecWritten[i] != 0 {
        return Err(ProgrammerError);
      }
      var base := it.outvecBase[i];
      it := it.(outvecMapped := it.outvecMapped[i := true]);
      return Ok(RawVec(base, outLen));
    }

    method CommitOutvecWrite(i: Word, outLen: Word, written: Word) returns (r: Result<(), StatusCode>)
      modifies this
      ensures r == if MayCommit(old(it), i, outLen, written) then Ok(()) else Err(ProgrammerError)
      ensures it == if MayCommit(old(it), i, outLen, written) then Committed(old(it), i, written) else old(it)
    {
      if i >= PSA_MAX_IOVEC {
        return Err(ProgrammerError);
      }
      if it.outvecUnmapped[i] || written > outLen {
        return Err(ProgrammerError);
      }
      it := it.(outvecWritten := it.outvecWritten[i := written]);
      it := it.(msg := it.msg.(outSize := it.msg.outSize[i := MaybeUsize(written)]));
      it := it.(outvecUnmapped := it.outvecUnmapped[i := true]);
      return Ok(());
    }

    method UpdateMapping(isOut: bool, i: Word, mapped: bool)
      modifies this
      ensures it == Remapped(old(it), isOut, i, mapped)
    {
      if isOut {
        if i < PSA_MAX_IOVEC {
          it := it.(outvecMapped := it.outvecMapped[i := mapped]);
          it := it.(outvecUnmapped := it.outvecUnmapped[i := !mapped]);
        }
      } else {
        if i < PSA_MAX_IOVEC {
          it := it.(invecMapped := it.invecMapped[i := mapped]);
          it := it.(invecUnmapped := it.invecUnmapped[i := !mapped]);
        }
      }
    }
  }

  // ----- Building a connection from client vectors -----------------------------------------

  /** One client vector: where it starts and how long it is. */
  datatype FFVec = FFVec(base: Word, len: Word)

  type Permission = (Word, Word, bool, CallerAttributes) -> bool

  predicate Wraps(v: FFVec) {
    v.base + v.len > USIZE_MAX
  }

  /** The interval test of the source. */
  predicate RangesOverlap(a: FFVec, b: FFVec) {
    b.base < a.base + a.len && a.base < b.base + b.len
  }

  ghost predicate Holds(v: FFVec, address: int) {
    v.base <= address < v.base + v.len
  }

  ghost predicate ShareByte(a: FFVec, b: FFVec) {
    exists address :: Holds(a, address) && Holds(b, address)
  }

  ghost predicate PairwiseApart(vs: seq<FFVec>) {
    forall i, j :: 0 <= i < j < |vs| ==> !RangesOverlap(vs[i], vs[j])
  }

  ghost predicate NonOverlapAccepted(vs: seq<FFVec>) {
    |vs| < 2 || ((forall i :: 0 <= i < |vs| ==> !Wraps(vs[i])) && PairwiseApart(vs))
  }

  method ValidateInvecPayloadNonoverlap(inVecs: seq<FFVec>) returns (r: Result<(), StatusCode>)
    ensures r == if NonOverlapAccepted(inVecs) then Ok(()) else Err(ProgrammerError)
  {
    if |inVecs| < 2 {
      return Ok(());
    }
    for i := 0 to |inVecs| - 1
      invariant forall k :: 0 <= k < i ==> !Wraps(inVecs[k])
      invariant i > 0 ==> forall k :: 0 <= k < |inVecs| ==> !Wraps(inVecs[k])
      invariant forall k, m :: 0 <= k < i && k < m < |inVecs| ==> !RangesOverlap(inVecs[k], inVecs[m])
    {
      if Wraps(inVecs[i]) {
        return Err(ProgrammerError);
      }
      for j := i + 1 to |inVecs|
        invariant forall m :: i <= m < j ==> !Wraps(inVecs[m])
        invariant forall m :: i < m < j ==> !RangesOverlap(inVecs[i], inVecs[m])
      {
        if Wraps(inVecs[j]) {
          return Err(ProgrammerError);
        }
        if RangesOverlap(inVecs[i], inVecs[j]) {
          return Err(ProgrammerError);
        }
      }
    }
    return Ok(());
  }

  /** The packed control word: request type in the low half, vector counts above it. */
  datatype CtrlParam = CtrlParam(raw: Word) {
    function UnpackType(): int {
      var low := raw % 0x1_0000;
      if low < 0x8000 then low else low - 0x1_0000
    }

    predicate HasIovec() {
      raw / 0x1_0000 != 0
    }

    function InLen(): nat {
      raw / 0x100_0000 % 8
    }

    function OutLen(): nat {
      raw / 0x1_0000 % 8
    }
  }

  datatype CallParams = CallParams(msgType: int, ivecNum: nat, ovecNum: nat)

  function ValidateCallParams(p: CtrlParam): Result<CallParams, StatusCode> {
    if p.UnpackType() < 0 then Err(ProgrammerError)
    else if !p.HasIovec() then Ok(CallParams(p.UnpackType(), 0, 0))
    else if p.InLen() + p.OutLen() <= PSA_MAX_IOVEC then Ok(CallParams(p.UnpackType(), p.InLen(), p.OutLen()))
    else Err(ProgrammerError)
  }

  /** Arrays of vectors that are read must not be null. */
  function ValidateVecPointerShape(p: CtrlParam, counts: CallParams, inPtr: Word, outPtr: Word): Result<(), StatusCode> {
    if !p.HasIovec() then Ok(())
    else if counts.ivecNum > 0 && inPtr == 0 then Err(ProgrammerError)
    else if counts.ovecNum > 0 && outPtr == 0 then Err(ProgrammerError)
    else Ok(())
  }

  function ValidatePointerRange(v: FFVec): Result<(), StatusCode> {
    if v.len == 0 then Ok(())
    else if v.base == 0 then Err(ProgrammerError)
    else if Wraps(v) then Err(ProgrammerError)
    else Ok(())
  }

  function ValidateMemoryPermission(
      perm: Permission, v: FFVec, isWrite: bool, caller: CallerAttributes): Result<(), StatusCode> {
    if v.len == 0 then Ok(())
    else if perm(v.base, v.len, isWrite, caller) then Ok(())
    else Err(InvalidArgument)
  }

  /** A vector the client may pass: empty, or a proper range the caller may use that way. */
  ghost predicate UsableVec(perm: Permission, v: FFVec, isWrite: bool, caller: CallerAttributes) {
    v.len == 0 || (v.base != 0 && !Wraps(v) && perm(v.base, v.len, isWrite, caller))
  }

  /** What validating one vector answers: its range first, then the permission. */
  function VecError(perm: Permission, v: FFVec, isWrite: bool, caller: CallerAttributes): Option<StatusCode> {
    if v.len == 0 then None
    else if v.base == 0 || Wraps(v) then Some(ProgrammerError)
    else if !perm(v.base, v.len, isWrite, caller) then Some(InvalidArgument)
    else None
  }

  /** The error of the first vector that has one. */
  function FirstVecError(perm: Permission, vs: seq<FFVec>, isWrite: bool, caller: CallerAttributes): Option<StatusCode> {
    if vs == [] then None
    else if VecError(perm, vs[0], isWrite, caller).Some? then VecError(perm, vs[0], isWrite, caller)
    else FirstVecError(perm, vs[1..], isWrite, caller)
  }

  lemma {:induction false} FirstVecErrorIs(
      perm: Permission, vs: seq<FFVec>, isWrite: bool, caller: CallerAttributes, i: nat)
    requires i <= |vs| && forall k :: 0 <= k < i ==> UsableVec(perm, vs[k], isWrite, caller)
    ensures FirstVecError(perm, vs, isWrite, caller) ==
            if i == |vs| then None
            else if UsableVec(perm, vs[i], isWrite, caller) then FirstVecError(perm, vs[i + 1..], isWrite, caller)
            else VecError(perm, vs[i], isWrite, caller)
  {
    if i > 0 {
      assert vs[1..][i - 1..] == vs[i..];
      FirstVecErrorIs(perm, vs[1..], isWrite, caller, i - 1);
      assert i < |vs| ==> vs[1..][i..] == vs[i + 1..];
    }
  }

  /** Which error a request that is not acceptable gets: parameters, counts and overlap are the
      programmer's; then the first faulty vector decides, inputs before outputs. */
  ghost function CallError(
      perm: Permission, p: CtrlParam, inVecs: seq<FFVec>, outVecs: seq<FFVec>, caller: CallerAttributes): StatusCode
    requires !Acceptable(perm, p, inVecs, outVecs, caller)
  {
    var params := ValidateCallParams(p);
    if params.Err? || |inVecs| != params.value.ivecNum || |outVecs| != params.value.ovecNum
       || !NonOverlapAccepted(inVecs)
    then ProgrammerError
    else match FirstVecError(perm, inVecs, false, caller)
      case Some(e) => e
      case None =>
        match FirstVecError(perm, outVecs, true, caller)
        case Some(e) => e
        case None => ProgrammerError
  }

  ghost predicate Acceptable(
      perm: Permission, p: CtrlParam, inVecs: seq<FFVec>, outVecs: seq<FFVec>, caller: CallerAttributes) {
    && ValidateCallParams(p).Ok?
    && |inVecs| == ValidateCallParams(p).value.ivecNum
    && |outVecs| == ValidateCallParams(p).value.ovecNum
    && NonOverlapAccepted(inVecs)
    && (forall i :: 0 <= i < |inVecs| ==> UsableVec(perm, inVecs[i], false, caller))
    && (forall i :: 0 <= i < |outVecs| ==> UsableVec(perm, outVecs[i], true, caller))
  }

  ghost predicate Recorded(sizes: seq<MaybeUsize>, bases: seq<Word>, vs: seq<FFVec>)
    requires |sizes| == PSA_MAX_IOVEC && |bases| == PSA_MAX_IOVEC
  {
    && (forall i :: 0 <= i < |vs| && i < PSA_MAX_IOVEC ==>
          sizes[i] == MaybeUsize(vs[i].len) && bases[i] == vs[i].base)
    && (forall i :: |vs| <= i < PSA_MAX_IOVEC ==> sizes[i] == NONE && bases[i] == 0)
  }

  /** No vector of the connection has been touched yet. */
  predicate Untouched(c: Connection) {
    && c.invecAccessed == ZEROS && c.outvecWritten == ZEROS
    && c.invecMapped == UNSET && c.invecUnmapped == UNSET
    && c.outvecMapped == UNSET && c.outvecUnmapped == UNSET
  }

  /** The connection a request leads to: untouched, with the client's vectors on record. */
  ghost predicate BuiltFrom(c: Connection, handle: ServiceHandle, p: CtrlParam, inVecs: seq<FFVec>,
                            outVecs: seq<FFVec>, caller: CallerAttributes) {
    && Untouched(c)
    && c.msg.handle == handle && c.msg.caller == caller
    && ValidateCallParams(p).Ok? && c.msg.msgType == ValidateCallParams(p).value.msgType >= 0
    && Recorded(c.msg.inSize, c.invecBase, inVecs)
    && Recorded(c.msg.outSize, c.outvecBase, outVecs)
  }

  method CallFromSlices(
    perm: Permission, handle: ServiceHandle, p: CtrlParam,
    inVecs: seq<FFVec>, outVecs: seq<FFVec>, caller: CallerAttributes)
    returns (r: Result<Connection, StatusCode>)
    ensures r.Ok? <==> Acceptable(perm, p, inVecs, outVecs, caller)
    ensures r.Ok? ==> BuiltFrom(r.value, handle, p, inVecs, outVecs, caller)
    ensures r.Err? ==> r.error == CallError(perm, p, inVecs, outVecs, caller)
  {
    var params := ValidateCallParams(p);
    if params.Err? {
      return Err(params.error);
    }
    if |inVecs| != params.value.ivecNum || |outVecs| != params.value.ovecNum {
      return Err(ProgrammerError);
    }
    var apart := ValidateInvecPayloadNonoverlap(inVecs);
    if apart.Err? {
      return Err(apart.error);
    }

    var inSize, outSize := NO_SIZES, NO_SIZES;
    var invecBase: seq<Word>, invecAccessed: seq<Word> := ZEROS, ZEROS;
    var outvecBase: seq<Word>, outvecWritten: seq<Word> := ZEROS, ZEROS;

    for i := 0 to |inVecs|
      invariant |inSize| == PSA_MAX_IOVEC && |invecBase| == PSA_MAX_IOVEC && invecAccessed == ZEROS
      invariant Recorded(inSize, invecBase, inVecs[..i])
      invariant forall k :: 0 <= k < i ==> UsableVec(perm, inVecs[k], false, caller)
    {
      invecBase := invecBase[i := inVecs[i].base];
      invecAccessed := invecAccessed[i := 0];
      inSize := inSize[i := MaybeUsize(inVecs[i].len)];
      FirstVecErrorIs(perm, inVecs, false, caller, i);
      var range := ValidatePointerRange(inVecs[i]);
      if range.Err? {
        return Err(range.error);
      }
      var allowed := ValidateMemoryPermission(perm, inVecs[i], false, caller);
      if allowed.Err? {
        return Err(allowed.error);
      }
    }

    FirstVecErrorIs(perm, inVecs, false, caller, |inVecs|);
    for i := 0 to |outVecs|
      invariant |outSize| == PSA_MAX_IOVEC && |outvecBase| == PSA_MAX_IOVEC && outvecWritten == ZEROS
      invariant Recorded(outSize, outvecBase, outVecs[..i])
      invariant forall k :: 0 <= k < i ==> UsableVec(perm, outVecs[k], true, caller)
    {
      outvecBase := outvecBase[i := outVecs[i].base];
      outvecWritten := outvecWritten[i := 0];
      outSize := outSize[i := MaybeUsize(outVecs[i].len)];
      FirstVecErrorIs(perm, outVecs, true, caller, i);
      var range := ValidatePointerRange(outVecs[i]);
      if range.Err? {
        return Err(range.error);
      }
      var allowed := ValidateMemoryPermission(perm, outVecs[i], true, caller);
      if allowed.Err? {
        return Err(allowed.error);
      }
    }

    assert inVecs[..|inVecs|] == inVecs && outVecs[..|outVecs|] == outVecs;
    return Ok(RawConnection(
                PsaMsg(handle, params.value.msgType, caller, inSize, outSize),
                invecBase, invecAccessed, UNSET, UNSET,
                outvecBase, outvecWritten, UNSET, UNSET));
  }

  /** For vectors that are not empty, the interval test is exactly "they share a byte". */
  lemma OverlapIsSharing(a: FFVec, b: FFVec)
    requires a.len > 0 && b.len > 0
    ensures RangesOverlap(a, b) <==> ShareByte(a, b)
  {
    if RangesOverlap(a, b) {
      var address := if a.base < b.base then b.base else a.base;
      assert Holds(a, address) && Holds(b, address);
    }
  }

  /** Vectors that share a byte are always caught, whatever their lengths. */
  lemma SharingIsCaught(a: FFVec, b: FFVec)
    requires ShareByte(a, b)
    ensures RangesOverlap(a, b)
  {
  }

  /** What building a connection has established about the client's memory: no range wraps, every
      accepted length is told apart from the sentinel, and input payloads share no byte. */
  lemma AcceptedVectorsAreSound(
      perm: Permission, p: CtrlParam, inVecs: seq<FFVec>, outVecs: seq<FFVec>, caller: CallerAttributes)
    requires Acceptable(perm, p, inVecs, outVecs, caller)
    ensures forall v :: v in inVecs + outVecs && v.len > 0 ==> !Wraps(v) && v.base != 0
    ensures forall v :: v in inVecs + outVecs ==> MaybeUsize(v.len).AsOption() == Some(v.len)
    ensures forall v :: v in inVecs && v.len > 0 ==> perm(v.base, v.len, false, caller)
    ensures forall v :: v in outVecs && v.len > 0 ==> perm(v.base, v.len, true, caller)
    ensures forall i, j :: 0 <= i < j < |inVecs| ==> !ShareByte(inVecs[i], inVecs[j])
    ensures |inVecs| + |outVecs| <= PSA_MAX_IOVEC
  {
    forall v | v in inVecs + outVecs
      ensures v.len > 0 ==> !Wraps(v) && v.base != 0
    {
      if v in inVecs {
        var i :| 0 <= i < |inVecs| && inVecs[i] == v;
        assert UsableVec(perm, inVecs[i], false, caller);
      } else {
        var i :| 0 <= i < |outVecs| && outVecs[i] == v;
        assert UsableVec(perm, outVecs[i], true, caller);
      }
    }
    forall i, j | 0 <= i < j < |inVecs| ensures !ShareByte(inVecs[i], inVecs[j]) {
      if ShareByte(inVecs[i], inVecs[j]) {
        SharingIsCaught(inVecs[i], inVecs[j]);
        assert false;
      }
    }
  }

  ghost predicate SomePairShares(vs: seq<FFVec>) {
    exists i, j :: 0 <= i < j < |vs| && ShareByte(vs[i], vs[j])
  }

  /** An empty vector whose base lies strictly inside another vector. */
  ghost predicate SomeEmptyInside(vs: seq<FFVec>) {
    exists i, j :: 0 <= i < |vs| && 0 <= j < |vs| && i != j && EmptyInside(vs[i], vs[j])
  }

  predicate EmptyInside(a: FFVec, b: FFVec) {
    a.len == 0 && b.base < a.base < b.base + b.len
  }

  lemma OverlapCases(a: FFVec, b: FFVec)
    ensures RangesOverlap(a, b) <==> ShareByte(a, b) || EmptyInside(a, b) || EmptyInside(b, a)
  {
    if a.len > 0 && b.len > 0 {
      OverlapIsSharing(a, b);
    }
  }

  /** The check refuses exactly lists of two or more vectors in which one wraps, two share a byte, or
      an empty one lies strictly inside another. */
  lemma OverlapRefusalIsExact(vs: seq<FFVec>)
    ensures !NonOverlapAccepted(vs) <==>
            |vs| >= 2 && ((exists v :: v in vs && Wraps(v)) || SomePairShares(vs) || SomeEmptyInside(vs))
  {
    forall i, j | 0 <= i < j < |vs|
      ensures RangesOverlap(vs[i], vs[j]) <==>
              ShareByte(vs[i], vs[j]) || EmptyInside(vs[i], vs[j]) || EmptyInside(vs[j], vs[i])
    {
      OverlapCases(vs[i], vs[j]);
    }
    if !PairwiseApart(vs) {
      var i, j :| 0 <= i < j < |vs| && RangesOverlap(vs[i], vs[j]);
      assert ShareByte(vs[i], vs[j]) || EmptyInside(vs[i], vs[j]) || EmptyInside(vs[j], vs[i]);
    }
    if SomeEmptyInside(vs) {
      var i, j :| 0 <= i < |vs| && 0 <= j < |vs| && i != j && EmptyInside(vs[i], vs[j]);
      assert if i < j then RangesOverlap(vs[i], vs[j]) else RangesOverlap(vs[j], vs[i]);
    }
  }

  /** An empty vector strictly inside another one is refused although no byte is shared; at its end it
      is accepted. */
  lemma EmptyInsideIsRefused()
    ensures var vs := [FFVec(100, 10), FFVec(105, 0)]; !NonOverlapAccepted(vs) && !SomePairShares(vs)
    ensures NonOverlapAccepted([FFVec(100, 10), FFVec(110, 0)])
  {
    var vs := [FFVec(100, 10), FFVec(105, 0)];
    assert RangesOverlap(vs[0], vs[1]);
  }
}
