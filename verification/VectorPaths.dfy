/** The two ways a service reaches its vectors: direct closures on the leased connection (`SfnApi`
    of api.rs) and supervisor calls with a register frame (svc.rs). */
module VectorPaths {
  import opened Basics
  import opened Connections

  /** The four registers of the exception frame that carry arguments and results. */
  datatype Frame = Frame(r0: Word, r1: Word, r2: Word, r3: Word)

  function ErrorFrame(s: StatusCode): Frame {
    Frame(StatusWord(s), 0, 0, 0)
  }

  function SuccessFrame(f: Frame): Frame {
    f.(r0 := StatusWord(Success))
  }

  function RawVecFrame(v: RawVec): Frame {
    Frame(StatusWord(Success), v.base, v.len, 0)
  }

  /** The frame that answers a request without a payload. */
  function AnswerFrame(f: Frame, r: Result<(), StatusCode>): Frame {
    match r
    case Ok(_) => SuccessFrame(f)
    case Err(e) => ErrorFrame(e)
  }

  /** Why a message handle may not use the active connection, if so. */
  function Refused(c: Connection, handle: ServiceHandle): Option<StatusCode> {
    if c.msg.handle != handle then Some(InvalidHandle)
    else if c.msg.msgType < 0 then Some(ProgrammerError)
    else None
  }

  /** Validate the handle, then mark the vector as mapped and say where it lies. */
  function PrepareRaw(c: Connection, handle: ServiceHandle, isOut: bool, i: Word)
    : (Connection, Result<RawVec, StatusCode>)
  {
    if Refused(c, handle).Some? then (c, Err(Refused(c, handle).value))
    else if isOut then
      if MayWriteOut(c, i) then (OutMapped(c, i, true), Ok(RawVec(c.outvecBase[i], OutLen(c, i))))
      else (c, Err(ProgrammerError))
    else
      if MayReadIn(c, i) then (InMapped(c, i, true), Ok(RawVec(c.invecBase[i], InLen(c, i))))
      else (c, Err(ProgrammerError))
  }

  /** Validate the handle, then finish an access; the committed length is checked against the size
      on record. */
  function FinishRaw(c: Connection, handle: ServiceHandle, isOut: bool, i: Word, written: Word)
    : (Connection, Result<(), StatusCode>)
  {
    if Refused(c, handle).Some? then (c, Err(Refused(c, handle).value))
    else if isOut then
      if i < PSA_MAX_IOVEC && MayCommit(c, i, OutLen(c, i), written) then (Committed(c, i, written), Ok(()))
      else (c, Err(ProgrammerError))
    else
      if MayUnmapIn(c, i) then (InUnmapped(c, i, true), Ok(()))
      else (c, Err(ProgrammerError))
  }

  /** ACCESS_VEC on an active connection whose handle belongs to a process. */
  function AccessVec(c: Connection, handle: ServiceHandle, f: Frame): (Connection, Frame) {
    var (c', result) := PrepareRaw(c, handle, f.r2 != 0, f.r1);
    match result
    case Ok(raw) => (Remapped(c', f.r2 != 0, f.r1, true), RawVecFrame(raw))
    case Err(e) => (c', ErrorFrame(e))
  }

  /** RELEASE_VEC on the same. */
  function ReleaseVec(c: Connection, handle: ServiceHandle, f: Frame): (Connection, Frame) {
    var (c', result) := FinishRaw(c, handle, f.r2 != 0, f.r1, f.r3);
    match result
    case Ok(_) => (Remapped(c', f.r2 != 0, f.r1, false), SuccessFrame(f))
    case Err(e) => (c', ErrorFrame(e))
  }

  // ----- One access, either way ------------------------------------------------------------

  datatype Request = ReadIn(i: Word) | WriteOut(o: Word) | ReadWrite(i: Word, o: Word)

  /** What the service does with the slices it is lent: a result and the length it wrote. */
  type Closure = (RawVec, RawVec) -> (int, Word)

  /** A vector that was handed out, and the slice that was seen. */
  datatype Loan = Loan(isOut: bool, index: Word, slice: RawVec)

  datatype Outcome = Outcome(result: Result<int, StatusCode>, loans: seq<Loan>)

  const EMPTY_SLICE := RawVec(0, 0)

  /** A vector of length zero is handed out as an empty slice, without its base. */
  function Slice(v: RawVec): RawVec {
    if v.len == 0 then EMPTY_SLICE else v
  }

  function InSlice(c: Connection, i: nat): RawVec
    requires i < PSA_MAX_IOVEC
  {
    Slice(RawVec(c.invecBase[i], InLen(c, i)))
  }

  function OutSlice(c: Connection, i: nat): RawVec
    requires i < PSA_MAX_IOVEC
  {
    Slice(RawVec(c.outvecBase[i], OutLen(c, i)))
  }

  function Failure(s: StatusCode, loans: seq<Loan>): Outcome {
    Outcome(Err(s), loans)
  }

  function DirectAccess(c: Connection, handle: ServiceHandle, req: Request, f: Closure): (Connection, Outcome) {
    if Refused(c, handle).Some? then (c, Failure(Refused(c, handle).value, []))
    else match req
      case ReadIn(i) => DirectRead(c, i, f)
      case WriteOut(o) => DirectWrite(c, o, f)
      case ReadWrite(i, o) => DirectReadWrite(c, i, o, f)
  }

  function DirectRead(c: Connection, i: Word, f: Closure): (Connection, Outcome) {
    if !MayReadIn(c, i) then (c, Failure(ProgrammerError, []))
    else
      var slice := InSlice(c, i);
      var mapped := InMapped(c, i, true);
      var loans := [Loan(false, i, slice)];
      if MayUnmapIn(mapped, i) then (InUnmapped(mapped, i, true), Outcome(Ok(f(slice, EMPTY_SLICE).0), loans))
      else (mapped, Failure(ProgrammerError, loans))
  }

  function DirectWrite(c: Connection, o: Word, f: Closure): (Connection, Outcome) {
    if !MayWriteOut(c, o) then (c, Failure(ProgrammerError, []))
    else
      var slice := OutSlice(c, o);
      var mapped := OutMapped(c, o, true);
      var loans := [Loan(true, o, slice)];
      var (result, written) := f(EMPTY_SLICE, slice);
      if MayCommit(mapped, o, OutLen(c, o), written) then
        (Committed(mapped, o, written), Outcome(Ok(result), loans))
      else (mapped, Failure(ProgrammerError, loans))
  }

  function DirectReadWrite(c: Connection, i: Word, o: Word, f: Closure): (Connection, Outcome) {
    if !MayReadIn(c, i) then (c, Failure(ProgrammerError, []))
    else
      var inMapped := InMapped(c, i, true);
      if !MayWriteOut(inMapped, o) then (inMapped, Failure(ProgrammerError, []))
      else
        var mapped := OutMapped(inMapped, o, true);
        var loans := [Loan(false, i, InSlice(c, i)), Loan(true, o, OutSlice(c, o))];
        var (result, written) := f(InSlice(c, i), OutSlice(c, o));
        if !MayCommit(mapped, o, OutLen(c, o), written) then (mapped, Failure(ProgrammerError, loans))
        else
          var committed := Committed(mapped, o, written);
          if MayUnmapIn(committed, i) then (InUnmapped(committed, i, true), Outcome(Ok(result), loans))
          else (committed, Failure(ProgrammerError, loans))
  }

  function SvcAccess(c: Connection, handle: ServiceHandle, req: Request, f: Closure): (Connection, Outcome) {
    match req
    case ReadIn(i) => SvcRead(c, handle, i, f)
    case WriteOut(o) => SvcWrite(c, handle, o, f)
    case ReadWrite(i, o) => SvcReadWrite(c, handle, i, o, f)
  }

  /** One ACCESS_VEC call, seen from the service. */
  function SvcTake(c: Connection, handle: ServiceHandle, isOut: bool, i: Word)
    : (Connection, Result<RawVec, StatusCode>)
  {
    var (c', frame) := AccessVec(c, handle, Frame(HandleWord(handle), i, if isOut then 1 else 0, 0));
    match CheckSvcResult(frame.r0)
    case Err(e) => (c', Err(e))
    case Ok(_) => (c', Ok(Slice(RawVec(frame.r1, frame.r2))))
  }

  /** One RELEASE_VEC call, seen from the service. */
  function SvcGive(c: Connection, handle: ServiceHandle, isOut: bool, i: Word, written: Word)
    : (Connection, Result<(), StatusCode>)
  {
    var (c', frame) := ReleaseVec(c, handle, Frame(HandleWord(handle), i, if isOut then 1 else 0, written));
    (c', CheckSvcResult(frame.r0))
  }

  function SvcRead(c: Connection, handle: ServiceHandle, i: Word, f: Closure): (Connection, Outcome) {
    var (c1, a) := SvcTake(c, handle, false, i);
    if a.Err? then (c1, Failure(a.error, []))
    else
      var loans := [Loan(false, i, a.value)];
      var (c2, b) := SvcGive(c1, handle, false, i, 0);
      if b.Err? then (c2, Failure(b.error, loans))
      else (c2, Outcome(Ok(f(a.value, EMPTY_SLICE).0), loans))
  }

  function SvcWrite(c: Connection, handle: ServiceHandle, o: Word, f: Closure): (Connection, Outcome) {
    var (c1, a) := SvcTake(c, handle, true, o);
    if a.Err? then (c1, Failure(a.error, []))
    else
      var loans := [Loan(true, o, a.value)];
      var (result, written) := f(EMPTY_SLICE, a.value);
      var (c2, b) := SvcGive(c1, handle, true, o, written);
      if b.Err? then (c2, Failure(b.error, loans))
      else (c2, Outcome(Ok(result), loans))
  }

  function SvcReadWrite(c: Connection, handle: ServiceHandle, i: Word, o: Word, f: Closure): (Connection, Outcome) {
    var (c1, a) := SvcTake(c, handle, false, i);
    if a.Err? then (c1, Failure(a.error, []))
    else
      var (c2, b) := SvcTake(c1, handle, true, o);
      if b.Err? then (c2, Failure(b.error, []))
      else
        var loans := [Loan(false, i, a.value), Loan(true, o, b.value)];
        var (result, written) := f(a.value, b.value);
        var (c3, d) := SvcGive(c2, handle, true, o, written);
        if d.Err? then (c3, Failure(d.error, loans))
        else
          var (c4, e) := SvcGive(c3, handle, false, i, 0);
          if e.Err? then (c4, Failure(e.error, loans))
          else (c4, Outcome(Ok(result), loans))
  }

  // ----- Whole services --------------------------------------------------------------------

  /** A service decides each access from the outcomes it has seen so far. */
  type Strategy = seq<Outcome> -> Option<(Request, Closure)>

  function Perform(svc: bool, c: Connection, handle: ServiceHandle, req: Request, f: Closure): (Connection, Outcome) {
    if svc then SvcAccess(c, handle, req, f) else DirectAccess(c, handle, req, f)
  }

  /** The connection and the outcomes after at most n accesses. */
  function Run(svc: bool, c: Connection, handle: ServiceHandle, strategy: Strategy, seen: seq<Outcome>, n: nat)
    : (Connection, seq<Outcome>)
    decreases n
  {
    if n == 0 || strategy(seen).None? then (c, seen)
    else
      var (req, f) := strategy(seen).value;
      var (c', outcome) := Perform(svc, c, handle, req, f);
      Run(svc, c', handle, strategy, seen + [outcome], n - 1)
  }

  /** The vectors a request names: the flag tells outputs from inputs. */
  function Names(req: Request): set<(bool, Word)> {
    match req
    case ReadIn(i) => {(false, i)}
    case WriteOut(o) => {(true, o)}
    case ReadWrite(i, o) => {(false, i), (true, o)}
  }

  /** Along the direct run no request names a vector for the second time. */
  predicate NamesOnce(c: Connection, handle: ServiceHandle, strategy: Strategy, seen: seq<Outcome>,
                      used: set<(bool, Word)>, n: nat)
    decreases n
  {
    n == 0 || strategy(seen).None? ||
    var (req, f) := strategy(seen).value;
    var (c', outcome) := DirectAccess(c, handle, req, f);
    used !! Names(req) && NamesOnce(c', handle, strategy, seen + [outcome], used + Names(req), n - 1)
  }

  /** How the two paths' connections relate while they agree: a vector the direct path has mapped is
      one that the other path has mapped or released; all else but the flags is equal. */
  ghost predicate Related(d: Connection, s: Connection) {
    && d.msg == s.msg
    && d.invecBase == s.invecBase && d.outvecBase == s.outvecBase
    && d.invecAccessed == s.invecAccessed && d.outvecWritten == s.outvecWritten
    && (forall i :: 0 <= i < PSA_MAX_IOVEC ==>
          && (d.invecMapped[i] <==> s.invecMapped[i] || s.invecUnmapped[i])
          && (d.invecUnmapped[i] ==> d.invecMapped[i]))
    && (forall o :: 0 <= o < PSA_MAX_IOVEC ==>
          && (d.outvecMapped[o] <==> s.outvecMapped[o] || s.outvecUnmapped[o])
          && (d.outvecUnmapped[o] ==> d.outvecMapped[o]))
  }

  /** A released vector that supervisor calls would hand out again. */
  predicate Reopens(s: Connection, isOut: bool, i: Word) {
    i < PSA_MAX_IOVEC &&
    if isOut then !s.outvecMapped[i] && s.outvecUnmapped[i] && s.outvecWritten[i] == 0
    else !s.invecMapped[i] && s.invecUnmapped[i] && s.invecAccessed[i] == 0
  }

  /** The request is one the service may make, every vector it names would be handed out by supervisor
      calls, and one of them was released before. */
  predicate Diverges(s: Connection, handle: ServiceHandle, req: Request) {
    Refused(s, handle).None? &&
    match req
    case ReadIn(i) => Reopens(s, false, i)
    case WriteOut(o) => Reopens(s, true, o)
    case ReadWrite(i, o) =>
      MayReadIn(s, i) && MayWriteOut(s, o) && (Reopens(s, false, i) || Reopens(s, true, o))
  }

  /** Along the supervisor-call run no request diverges. */
  predicate NeverDiverges(s: Connection, handle: ServiceHandle, strategy: Strategy, seen: seq<Outcome>, n: nat)
    decreases n
  {
    n == 0 || strategy(seen).None? ||
    var (req, f) := strategy(seen).value;
    var (s', outcome) := SvcAccess(s, handle, req, f);
    !Diverges(s, handle, req) && NeverDiverges(s', handle, strategy, seen + [outcome], n - 1)
  }

  /** Vectors not used so far have not been released. */
  ghost predicate UnusedAreFresh(s: Connection, used: set<(bool, Word)>) {
    && (forall i: Word :: i < PSA_MAX_IOVEC && (false, i) !in used ==> !s.invecUnmapped[i])
    && (forall o: Word :: o < PSA_MAX_IOVEC && (true, o) !in used ==> !s.outvecUnmapped[o])
  }

  /** What a frame's status word says is what was put there. */
  lemma StatusIsReadBack(s: StatusCode)
    ensures CheckSvcResult(StatusWord(s)) == if s == Success then Ok(()) else Err(s)
  {
    StatusRoundTrip(s);
  }

  /** The register frame is transparent: a take is the vector's slice or the refusal. */
  lemma TakeIsTransparent(c: Connection, handle: ServiceHandle, isOut: bool, i: Word)
    ensures SvcTake(c, handle, isOut, i) ==
            if Refused(c, handle).Some? then (c, Err(Refused(c, handle).value))
            else if isOut && MayWriteOut(c, i) then (Remapped(c, true, i, true), Ok(OutSlice(c, i)))
            else if !isOut && MayReadIn(c, i) then (Remapped(c, false, i, true), Ok(InSlice(c, i)))
            else (c, Err(ProgrammerError))
  {
    StatusIsReadBack(Success);
    StatusIsReadBack(ProgrammerError);
    StatusIsReadBack(InvalidHandle);
    if isOut && MayWriteOut(c, i) {
      assert Remapped(OutMapped(c, i, true), true, i, true) == Remapped(c, true, i, true);
    }
    if !isOut && MayReadIn(c, i) {
      assert Remapped(InMapped(c, i, true), false, i, true) == Remapped(c, false, i, true);
    }
  }

  lemma GiveIsTransparent(c: Connection, handle: ServiceHandle, isOut: bool, i: Word, written: Word)
    ensures SvcGive(c, handle, isOut, i, written) ==
            if Refused(c, handle).Some? then (c, Err(Refused(c, handle).value))
            else if isOut && i < PSA_MAX_IOVEC && MayCommit(c, i, OutLen(c, i), written) then
              (OutMapped(Committed(c, i, written), i, false), Ok(()))
            else if !isOut && MayUnmapIn(c, i) then (InMapped(InUnmapped(c, i, true), i, false), Ok(()))
            else (c, Err(ProgrammerError))
  {
    StatusIsReadBack(Success);
    StatusIsReadBack(ProgrammerError);
    StatusIsReadBack(InvalidHandle);
    if isOut && i < PSA_MAX_IOVEC && MayCommit(c, i, OutLen(c, i), written) {
      assert Remapped(Committed(c, i, written), true, i, false) == OutMapped(Committed(c, i, written), i, false);
    }
    if !isOut && MayUnmapIn(c, i) {
      assert Remapped(InUnmapped(c, i, true), false, i, false) == InMapped(InUnmapped(c, i, true), i, false);
    }
  }

  lemma ReadAgreesExactly(d: Connection, s: Connection, handle: ServiceHandle, i: Word, f: Closure)
    requires Related(d, s)
    ensures var (d', direct) := DirectAccess(d, handle, ReadIn(i), f);
            var (s', svc) := SvcRead(s, handle, i, f);
            && (direct == svc <==> !Diverges(s, handle, ReadIn(i)))
            && (direct == svc ==> Related(d', s'))
  {
    hide SvcTake, SvcGive;
    TakeIsTransparent(s, handle, false, i);
    GiveIsTransparent(SvcTake(s, handle, false, i).0, handle, false, i, 0);
  }

  lemma WriteAgreesExactly(d: Connection, s: Connection, handle: ServiceHandle, o: Word, f: Closure)
    requires Related(d, s)
    ensures var (d', direct) := DirectAccess(d, handle, WriteOut(o), f);
            var (s', svc) := SvcWrite(s, handle, o, f);
            && (direct == svc <==> !Diverges(s, handle, WriteOut(o)))
            && (direct == svc ==> Related(d', s'))
  {
    hide SvcTake, SvcGive;
    TakeIsTransparent(s, handle, true, o);
    if MayWriteOut(s, o) {
      GiveIsTransparent(SvcTake(s, handle, true, o).0, handle, true, o, f(EMPTY_SLICE, OutSlice(s, o)).1);
    }
  }

  lemma ReadWriteAgreesExactly(d: Connection, s: Connection, handle: ServiceHandle, i: Word, o: Word, f: Closure)
    requires Related(d, s)
    ensures var (d', direct) := DirectAccess(d, handle, ReadWrite(i, o), f);
            var (s', svc) := SvcReadWrite(s, handle, i, o, f);
            && (direct == svc <==> !Diverges(s, handle, ReadWrite(i, o)))
            && (direct == svc ==> Related(d', s'))
  {
    hide SvcTake, SvcGive;
    TakeIsTransparent(s, handle, false, i);
    var s1 := SvcTake(s, handle, false, i).0;
    TakeIsTransparent(s1, handle, true, o);
    var s2 := SvcTake(s1, handle, true, o).0;
    if Refused(s, handle).None? && MayReadIn(s, i) && MayWriteOut(s1, o) {
      var written := f(InSlice(s, i), OutSlice(s, o)).1;
      GiveIsTransparent(s2, handle, true, o, written);
      GiveIsTransparent(SvcGive(s2, handle, true, o, written).0, handle, false, i, 0);
    }
  }

  /** Any one access has the same outcome on both paths exactly when it does not diverge, and then the
      connections stay related. */
  lemma OneAccessAgreesExactly(d: Connection, s: Connection, handle: ServiceHandle, req: Request, f: Closure)
    requires Related(d, s)
    ensures var (d', direct) := DirectAccess(d, handle, req, f);
            var (s', svc) := SvcAccess(s, handle, req, f);
            && (direct == svc <==> !Diverges(s, handle, req))
            && (direct == svc ==> Related(d', s'))
  {
    match req
    case ReadIn(i) => ReadAgreesExactly(d, s, handle, i, f);
    case WriteOut(o) => WriteAgreesExactly(d, s, handle, o, f);
    case ReadWrite(i, o) => ReadWriteAgreesExactly(d, s, handle, i, o, f);
  }

  lemma {:induction false} RunExtends(
      svc: bool, c: Connection, handle: ServiceHandle, strategy: Strategy, seen: seq<Outcome>, n: nat)
    ensures seen <= Run(svc, c, handle, strategy, seen, n).1
    decreases n
  {
    hide DirectAccess, SvcAccess;
    if n > 0 && strategy(seen).Some? {
      var (req, f) := strategy(seen).value;
      var (c', outcome) := Perform(svc, c, handle, req, f);
      RunExtends(svc, c', handle, strategy, seen + [outcome], n - 1);
    }
  }

  /** A service, however it chooses its accesses, sees the same outcomes on both paths if and only if
      no access of its supervisor-call run diverges; then sizes and committed lengths agree as well. */
  lemma {:induction false} RunsAgreeExactly(
      d: Connection, s: Connection, handle: ServiceHandle, strategy: Strategy, seen: seq<Outcome>, n: nat)
    requires Related(d, s)
    ensures var (d', direct) := Run(false, d, handle, strategy, seen, n);
            var (s', svc) := Run(true, s, handle, strategy, seen, n);
            && (direct == svc <==> NeverDiverges(s, handle, strategy, seen, n))
            && (direct == svc ==> Related(d', s'))
    decreases n
  {
    hide DirectAccess, SvcAccess, Diverges, Related;
    if n > 0 && strategy(seen).Some? {
      var (req, f) := strategy(seen).value;
      OneAccessAgreesExactly(d, s, handle, req, f);
      var (d', direct) := DirectAccess(d, handle, req, f);
      var (s', svc) := SvcAccess(s, handle, req, f);
      if direct == svc {
        RunsAgreeExactly(d', s', handle, strategy, seen + [direct], n - 1);
      } else {
        RunExtends(false, d', handle, strategy, seen + [direct], n - 1);
        RunExtends(true, s', handle, strategy, seen + [svc], n - 1);
        assert (seen + [direct])[|seen|] != (seen + [svc])[|seen|];
      }
    }
  }

  lemma AccessReleasesNamed(s: Connection, handle: ServiceHandle, req: Request, f: Closure, used: set<(bool, Word)>)
    requires UnusedAreFresh(s, used)
    ensures UnusedAreFresh(SvcAccess(s, handle, req, f).0, used + Names(req))
  {
    hide SvcTake, SvcGive;
    match req
    case ReadIn(i) =>
      TakeIsTransparent(s, handle, false, i);
      GiveIsTransparent(SvcTake(s, handle, false, i).0, handle, false, i, 0);
    case WriteOut(o) =>
      TakeIsTransparent(s, handle, true, o);
      if MayWriteOut(s, o) {
        GiveIsTransparent(SvcTake(s, handle, true, o).0, handle, true, o, f(EMPTY_SLICE, OutSlice(s, o)).1);
      }
    case ReadWrite(i, o) => BothReleaseNamed(s, handle, i, o, f, used);
  }

  lemma BothReleaseNamed(s: Connection, handle: ServiceHandle, i: Word, o: Word, f: Closure, used: set<(bool, Word)>)
    requires UnusedAreFresh(s, used)
    ensures UnusedAreFresh(SvcReadWrite(s, handle, i, o, f).0, used + {(false, i), (true, o)})
  {
    hide SvcTake, SvcGive;
    TakeIsTransparent(s, handle, false, i);
    var s1 := SvcTake(s, handle, false, i).0;
    TakeIsTransparent(s1, handle, true, o);
    var s2 := SvcTake(s1, handle, true, o).0;
    if Refused(s, handle).None? && MayReadIn(s, i) && MayWriteOut(s1, o) {
      var written := f(InSlice(s, i), OutSlice(s, o)).1;
      GiveIsTransparent(s2, handle, true, o, written);
      GiveIsTransparent(SvcGive(s2, handle, true, o, written).0, handle, false, i, 0);
    }
  }

  /** In particular a service that names each vector at most once, and opens no access inside another,
      cannot tell the two paths apart: same slices, same statuses, same committed lengths. */
  lemma {:induction false} PathsAgree(
      d: Connection, s: Connection, handle: ServiceHandle, strategy: Strategy, seen: seq<Outcome>,
      used: set<(bool, Word)>, n: nat)
    requires Related(d, s) && UnusedAreFresh(s, used) && NamesOnce(d, handle, strategy, seen, used, n)
    ensures NeverDiverges(s, handle, strategy, seen, n)
    ensures var (d', direct) := Run(false, d, handle, strategy, seen, n);
            var (s', svc) := Run(true, s, handle, strategy, seen, n);
            && direct == svc
            && d'.msg.outSize == s'.msg.outSize && d'.outvecWritten == s'.outvecWritten
    decreases n
  {
    hide DirectAccess, SvcAccess;
    if n > 0 && strategy(seen).Some? {
      var (req, f) := strategy(seen).value;
      UnusedDoNotDiverge(s, handle, req, used);
      OneAccessAgreesExactly(d, s, handle, req, f);
      AccessReleasesNamed(s, handle, req, f, used);
      PathsAgree(DirectAccess(d, handle, req, f).0, SvcAccess(s, handle, req, f).0, handle, strategy,
                 seen + [DirectAccess(d, handle, req, f).1], used + Names(req), n - 1);
    }
  }

  lemma UnusedDoNotDiverge(s: Connection, handle: ServiceHandle, req: Request, used: set<(bool, Word)>)
    requires UnusedAreFresh(s, used) && used !! Names(req)
    ensures !Diverges(s, handle, req)
  {
    forall v | v in Names(req) ensures v !in used {
    }
    match req
    case ReadIn(i) => assert (false, i) in Names(req);
    case WriteOut(o) => assert (true, o) in Names(req);
    case ReadWrite(i, o) => assert (false, i) in Names(req) && (true, o) in Names(req);
  }

  lemma FreshConnectionAgrees(c: Connection)
    requires Untouched(c)
    ensures Related(c, c) && UnusedAreFresh(c, {})
  {
  }

  /** The second read of an input is refused directly and served again, with the same slice, through
      supervisor calls. */
  lemma SecondReadDiffers(c: Connection, handle: ServiceHandle, i: Word, f: Closure)
    requires Untouched(c) && Refused(c, handle).None? && i < PSA_MAX_IOVEC
    ensures var d1 := DirectAccess(c, handle, ReadIn(i), f).0;
            DirectAccess(d1, handle, ReadIn(i), f).1 == Failure(ProgrammerError, [])
    ensures var s1 := SvcAccess(c, handle, ReadIn(i), f).0;
            SvcAccess(s1, handle, ReadIn(i), f).1 == SvcAccess(c, handle, ReadIn(i), f).1
    ensures SvcAccess(c, handle, ReadIn(i), f).1.result.Ok?
  {
    hide SvcTake, SvcGive;
    TakeIsTransparent(c, handle, false, i);
    var c1 := SvcTake(c, handle, false, i).0;
    GiveIsTransparent(c1, handle, false, i, 0);
    var c2 := SvcGive(c1, handle, false, i, 0).0;
    TakeIsTransparent(c2, handle, false, i);
    GiveIsTransparent(SvcTake(c2, handle, false, i).0, handle, false, i, 0);
  }

  /** The second write of an output is always refused directly. Supervisor calls refuse it as well if
      the first one committed something; otherwise they lend an empty slice, and only then do the two
      paths differ. */
  lemma SecondWriteDiffersIfNothingWritten(c: Connection, handle: ServiceHandle, o: Word, f: Closure)
    requires Untouched(c) && Refused(c, handle).None? && o < PSA_MAX_IOVEC
    requires f(EMPTY_SLICE, OutSlice(c, o)).1 <= OutLen(c, o)
    ensures SvcAccess(c, handle, WriteOut(o), f).1.result.Ok?
    ensures var d1 := DirectAccess(c, handle, WriteOut(o), f).0;
            var s1 := SvcAccess(c, handle, WriteOut(o), f).0;
            var written := f(EMPTY_SLICE, OutSlice(c, o)).1;
            && DirectAccess(d1, handle, WriteOut(o), f).1 == Failure(ProgrammerError, [])
            && SvcAccess(s1, handle, WriteOut(o), f).1.loans == (if written == 0 then [Loan(true, o, EMPTY_SLICE)] else [])
            && (DirectAccess(d1, handle, WriteOut(o), f).1 == SvcAccess(s1, handle, WriteOut(o), f).1 <==> written != 0)
  {
    hide SvcTake, SvcGive;
    var written := f(EMPTY_SLICE, OutSlice(c, o)).1;
    TakeIsTransparent(c, handle, true, o);
    var c1 := SvcTake(c, handle, true, o).0;
    GiveIsTransparent(c1, handle, true, o, written);
    TakeIsTransparent(SvcGive(c1, handle, true, o, written).0, handle, true, o);
    WriteAgreesExactly(c, c, handle, o, f);
    WriteAgreesExactly(DirectAccess(c, handle, WriteOut(o), f).0, SvcAccess(c, handle, WriteOut(o), f).0, handle, o, f);
  }

  // ----- Every sequence of accesses and releases -------------------------------------------

  datatype VecStep =
    | Access(handle: ServiceHandle, frame: Frame)
    | Release(handle: ServiceHandle, frame: Frame)
    | Closed(handle: ServiceHandle, req: Request, f: Closure)

  function VecStepped(c: Connection, step: VecStep): Connection {
    match step
    case Access(h, frame) => AccessVec(c, h, frame).0
    case Release(h, frame) => ReleaseVec(c, h, frame).0
    case Closed(h, req, f) => DirectAccess(c, h, req, f).0
  }

  function AfterSteps(c: Connection, steps: seq<VecStep>): Connection
    decreases |steps|
  {
    if steps == [] then c else AfterSteps(VecStepped(c, steps[0]), steps[1..])
  }

  /** Committed lengths lie within what an access would still hand out. */
  predicate CommitsFit(c: Connection) {
    forall o :: 0 <= o < PSA_MAX_IOVEC ==> c.outvecWritten[o] <= OutLen(c, o)
  }

  /** Where a connection may go: bases, inputs and message stay, outputs only shrink. */
  ghost predicate Narrows(c: Connection, d: Connection) {
    && d.invecBase == c.invecBase && d.outvecBase == c.outvecBase
    && d.msg.(outSize := c.msg.outSize) == c.msg
    && (forall o :: 0 <= o < PSA_MAX_IOVEC ==> OutLen(d, o) <= OutLen(c, o))
  }

  /** Over every sequence of accesses and releases, in any order and by either path, vector bases
      and input sizes never change, no output outgrows the client's declared length, and what is
      committed stays within it. */
  lemma {:induction false} StepsOnlyNarrow(c: Connection, steps: seq<VecStep>)
    requires CommitsFit(c)
    ensures Narrows(c, AfterSteps(c, steps)) && CommitsFit(AfterSteps(c, steps))
    ensures forall o :: 0 <= o < PSA_MAX_IOVEC ==> AfterSteps(c, steps).outvecWritten[o] <= OutLen(c, o)
    decreases |steps|
  {
    if steps != [] {
      OneStepNarrows(c, steps[0]);
      StepsOnlyNarrow(VecStepped(c, steps[0]), steps[1..]);
    }
  }

  lemma OneStepNarrows(c: Connection, step: VecStep)
    requires CommitsFit(c)
    ensures Narrows(c, VecStepped(c, step)) && CommitsFit(VecStepped(c, step))
  {
    match step
    case Access(h, frame) => assert AccessVec(c, h, frame).0.msg == c.msg;
    case Release(h, frame) =>
    case Closed(h, req, f) =>
      if Refused(c, h).None? {
        match req
        case ReadIn(i) => assert DirectRead(c, i, f).0.msg == c.msg;
        case WriteOut(o) => WriteNarrows(c, o, f);
        case ReadWrite(i, o) => ReadWriteNarrows(c, i, o, f);
      }
  }

  lemma WriteNarrows(c: Connection, o: Word, f: Closure)
    requires CommitsFit(c)
    ensures Narrows(c, DirectWrite(c, o, f).0) && CommitsFit(DirectWrite(c, o, f).0)
  {
  }

  lemma ReadWriteNarrows(c: Connection, i: Word, o: Word, f: Closure)
    requires CommitsFit(c)
    ensures Narrows(c, DirectReadWrite(c, i, o, f).0) && CommitsFit(DirectReadWrite(c, i, o, f).0)
  {
  }

  function AllLoans(outcomes: seq<Outcome>): seq<Loan> {
    if outcomes == [] then [] else AllLoans(outcomes[..|outcomes| - 1]) + Last(outcomes).loans
  }

  ghost predicate LentOnce(loans: seq<Loan>) {
    forall a, b :: 0 <= a < b < |loans| ==> (loans[a].isOut, loans[a].index) != (loans[b].isOut, loans[b].index)
  }

  ghost predicate IsMapped(c: Connection, l: Loan) {
    l.index < PSA_MAX_IOVEC && (if l.isOut then c.outvecMapped[l.index] else c.invecMapped[l.index])
  }

  /** A direct access lends only vectors that were not mapped, marks them, and unmarks none. */
  lemma DirectAccessMarks(c: Connection, handle: ServiceHandle, req: Request, f: Closure)
    ensures var (c', outcome) := DirectAccess(c, handle, req, f);
            && LentOnce(outcome.loans)
            && (forall l :: l in outcome.loans ==> !IsMapped(c, l) && IsMapped(c', l))
            && (forall l :: IsMapped(c, l) ==> IsMapped(c', l))
  {
  }

  /** On the direct path each vector is handed out at most once, whatever the service asks for. */
  lemma {:induction false} DirectLendsOnce(
      c: Connection, handle: ServiceHandle, strategy: Strategy, seen: seq<Outcome>, n: nat)
    requires LentOnce(AllLoans(seen)) && forall l :: l in AllLoans(seen) ==> IsMapped(c, l)
    ensures LentOnce(AllLoans(Run(false, c, handle, strategy, seen, n).1))
    decreases n
  {
    if n > 0 && strategy(seen).Some? {
      var (req, f) := strategy(seen).value;
      DirectAccessMarks(c, handle, req, f);
      var (c', outcome) := DirectAccess(c, handle, req, f);
      var next := seen + [outcome];
      assert next[..|next| - 1] == seen;
      JoinedLoans(c, AllLoans(seen), outcome.loans);
      DirectLendsOnce(c', handle, strategy, next, n - 1);
    }
  }

  lemma JoinedLoans(c: Connection, before: seq<Loan>, added: seq<Loan>)
    requires LentOnce(before) && LentOnce(added)
    requires forall l :: l in before ==> IsMapped(c, l)
    requires forall l :: l in added ==> !IsMapped(c, l)
    ensures LentOnce(before + added)
  {
    var all := before + added;
    forall a, b | 0 <= a < b < |all| ensures (all[a].isOut, all[a].index) != (all[b].isOut, all[b].index) {
      if a < |before| <= b {
        assert all[a] in before && all[b] in added;
      }
    }
  }
}
