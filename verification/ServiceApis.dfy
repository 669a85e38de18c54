/** The two vector interfaces a service is given, as the step-by-step code they are: direct closures on
    the leased connection (`SfnApi` of api.rs) and pairs of supervisor calls (`SvcApi` of svc.rs). Each
    is proved against the corresponding function of `VectorPaths`. */
module ServiceApis {
  import opened Basics
  import opened Connections
  import opened ConnectionStacks
  import opened Processes
  import opened VectorPaths
  import opened SpmIpcs
  import D = IpcDispatcher
  import F = SpmFns
  import M = SvcMachines
  import R = SvcRuns

  // ----- Direct closures -------------------------------------------------------------------

  method WithMappedInvec(a: ActiveConnection, i: Word, f: Closure) returns (r: Outcome)
    modifies a
    ensures (a.it, r) == DirectRead(old(a.it), i, f)
  {
    var raw := a.PrepareInvec(i);
    if raw.Err? {
      return Failure(raw.error, []);
    }
    var invec := if raw.value.len == 0 then EMPTY_SLICE else raw.value;
    var (result, _) := f(invec, EMPTY_SLICE);
    var loans := [Loan(false, i, invec)];
    var marked := a.MarkInvecUnmapped(i);
    if marked.Err? {
      return Failure(marked.error, loans);
    }
    return Outcome(Ok(result), loans);
  }

  method WithMappedOutvec(a: ActiveConnection, o: Word, f: Closure) returns (r: Outcome)
    modifies a
    ensures (a.it, r) == DirectWrite(old(a.it), o, f)
  {
    var raw := a.PrepareOutvec(o);
    if raw.Err? {
      return Failure(raw.error, []);
    }
    var outvec := if raw.value.len == 0 then EMPTY_SLICE else raw.value;
    var (result, written) := f(EMPTY_SLICE, outvec);
    var loans := [Loan(true, o, outvec)];
    var committed := a.CommitOutvecWrite(o, raw.value.len, written);
    if committed.Err? {
      return Failure(committed.error, loans);
    }
    return Outcome(Ok(result), loans);
  }

  method WithMappedBoth(a: ActiveConnection, i: Word, o: Word, f: Closure) returns (r: Outcome)
    modifies a
    ensures (a.it, r) == DirectReadWrite(old(a.it), i, o, f)
  {
    var rawIn := a.PrepareInvec(i);
    if rawIn.Err? {
      return Failure(rawIn.error, []);
    }
    var rawOut := a.PrepareOutvec(o);
    if rawOut.Err? {
      return Failure(rawOut.error, []);
    }
    var invec := if rawIn.value.len == 0 then EMPTY_SLICE else rawIn.value;
    var outvec := if rawOut.value.len == 0 then EMPTY_SLICE else rawOut.value;
    var (result, written) := f(invec, outvec);
    var loans := [Loan(false, i, invec), Loan(true, o, outvec)];
    var committed := a.CommitOutvecWrite(o, rawOut.value.len, written);
    if committed.Err? {
      return Failure(committed.error, loans);
    }
    var marked := a.MarkInvecUnmapped(i);
    if marked.Err? {
      return Failure(marked.error, loans);
    }
    return Outcome(Ok(result), loans);
  }

  /** The handle check of `with_validated_connection`, then the closure on the leased connection. */
  method SfnAccess(a: ActiveConnection, h: ServiceHandle, req: Request, f: Closure) returns (r: Outcome)
    modifies a
    ensures (a.it, r) == DirectAccess(old(a.it), h, req, f)
  {
    hide DirectRead, DirectWrite, DirectReadWrite;
    if a.it.msg.handle != h {
      return Failure(InvalidHandle, []);
    }
    if a.it.msg.msgType < 0 {
      return Failure(ProgrammerError, []);
    }
    match req
    case ReadIn(i) => r := WithMappedInvec(a, i, f);
    case WriteOut(o) => r := WithMappedOutvec(a, o, f);
    case ReadWrite(i, o) => r := WithMappedBoth(a, i, o, f);
  }

  /** An access of `SfnApi` in the function-call SPM. */
  function SfnStep(s: F.State, h: ServiceHandle, req: Request, f: Closure): (F.State, Outcome) {
    match Take(s.stack)
    case Err(_) => (s, Failure(CommunicationFailure, []))
    case Ok(l) =>
      var (c, outcome) := DirectAccess(l.connection, h, req, f);
      (s.(stack := WithActive(s.stack, c)), outcome)
  }

  /** It is an access step of the machine, around a closure that makes no call of its own. */
  lemma SfnStepIsAccess(s: F.State, h: ServiceHandle, req: Request, f: Closure, a: F.Action)
    requires F.Sound(s) && a.Access? && a.inner == []
    requires forall c :: a.after(a.before(c)) == DirectAccess(c, h, req, f).0
    ensures SfnStep(s, h, req, f).0 == Last(F.StepStates(s, a))
  {
    hide DirectAccess;
    if Take(s.stack).Ok? {
      var l := Take(s.stack).value;
      TakeThenRestore(s.stack, a.after(a.before(l.connection)));
      assert s.leased + {l.index} - {l.index} == s.leased;
    }
  }

  /** One access of `SfnApi`: the active connection is taken, used and restored, which always succeeds;
      without one the access is a communication failure and changes nothing. */
  method SfnApiAccess(spm: F.SpmFn, h: ServiceHandle, req: Request, f: Closure) returns (r: Outcome)
    requires spm.Valid()
    modifies spm.connections, spm.connections.connections, spm.connections.present
    ensures spm.Valid()
    ensures (spm.View(), r) == SfnStep(old(spm.View()), h, req, f)
  {
    hide DirectAccess;
    ghost var start := spm.View();
    var taken := spm.connections.TakeActiveConnection();
    if taken.Err? {
      return Failure(CommunicationFailure, []);
    }
    var (index, connection) := taken.value;
    var a := new ActiveConnection(connection);
    r := SfnAccess(a, h, req, f);
    TakeThenRestore(start.stack, a.it);
    var restored := spm.connections.RestoreActiveConnection(index, a.it);
    if restored.Err? {
      return Failure(CommunicationFailure, []);
    }
  }

  // ----- Supervisor calls ------------------------------------------------------------------

  /** On an active connection of a known process a vector call of the machine is the vector call of
      the connection, and stays on an active connection of that process. */
  lemma AccessStepIsAccessVec(pf: Platform, s: State, h: ServiceHandle, f: Frame)
    requires HandleFromWord(f.r0) == Some(h) && Peek(s.stack).Ok?
    requires FindProcess(pf.processes, Peek(s.stack).value.msg.handle).Some?
    ensures var (c, frame) := AccessVec(Peek(s.stack).value, h, f);
            && AccessStep(pf, s, f).1 == frame && Peek(AccessStep(pf, s, f).0.stack) == Ok(c)
            && c.msg.handle == Peek(s.stack).value.msg.handle
  {
    hide Applied;
  }

  lemma ReleaseStepIsReleaseVec(pf: Platform, s: State, h: ServiceHandle, f: Frame)
    requires HandleFromWord(f.r0) == Some(h) && Peek(s.stack).Ok?
    requires FindProcess(pf.processes, Peek(s.stack).value.msg.handle).Some?
    ensures var (c, frame) := ReleaseVec(Peek(s.stack).value, h, f);
            && ReleaseStep(pf, s, f).1 == frame && Peek(ReleaseStep(pf, s, f).0.stack) == Ok(c)
            && c.msg.handle == Peek(s.stack).value.msg.handle
  {
    hide Applied;
  }

  /** The active connection, if the service's own call is in progress. */
  ghost predicate Serving(spm: D.SpmIpc, c: Connection)
    requires spm.Valid()
    reads spm, spm.Repr()
  {
    Peek(spm.View().stack) == Ok(c) && FindProcess(spm.platform.processes, c.msg.handle).Some?
  }

  /** ACCESS_VEC as a service issues it: registers in, status and slice out. */
  method SvcAccessVec(spm: D.SpmIpc, h: ServiceHandle, isOut: bool, i: Word, ghost c: Connection)
    returns (r: Result<RawVec, StatusCode>)
    requires spm.Valid() && Serving(spm, c)
    modifies spm.Repr()
    ensures spm.Valid() && Serving(spm, SvcTake(c, h, isOut, i).0) && r == SvcTake(c, h, isOut, i).1
  {
    hide AccessStep, AccessVec, CheckSvcResult;
    var frame := Frame(HandleWord(h), i, if isOut then 1 else 0, 0);
    AccessStepIsAccessVec(spm.platform, spm.View(), h, frame);
    var _, result := spm.HandleSvc(D.SVC_PSA_ACCESS_VEC, frame, D.NO_CLIENT, D.NO_BEHAVIOUR);
    var status := CheckSvcResult(result.r0);
    if status.Err? {
      return Err(status.error);
    }
    return Ok(if result.r2 == 0 then EMPTY_SLICE else RawVec(result.r1, result.r2));
  }

  method SvcReleaseVec(spm: D.SpmIpc, h: ServiceHandle, isOut: bool, i: Word, written: Word, ghost c: Connection)
    returns (r: Result<(), StatusCode>)
    requires spm.Valid() && Serving(spm, c)
    modifies spm.Repr()
    ensures spm.Valid() && Serving(spm, SvcGive(c, h, isOut, i, written).0)
    ensures r == SvcGive(c, h, isOut, i, written).1
  {
    hide ReleaseStep, ReleaseVec, CheckSvcResult;
    var frame := Frame(HandleWord(h), i, if isOut then 1 else 0, written);
    ReleaseStepIsReleaseVec(spm.platform, spm.View(), h, frame);
    var _, result := spm.HandleSvc(D.SVC_PSA_RELEASE_VEC, frame, D.NO_CLIENT, D.NO_BEHAVIOUR);
    return CheckSvcResult(result.r0);
  }

  /** One access of `SvcApi`: its supervisor calls leave the active connection, and yield the outcome,
      that the path function says. */
  method SvcApiAccess(spm: D.SpmIpc, h: ServiceHandle, req: Request, f: Closure, ghost c: Connection)
    returns (r: Outcome)
    requires spm.Valid() && Serving(spm, c)
    modifies spm.Repr()
    ensures spm.Valid() && Serving(spm, SvcAccess(c, h, req, f).0) && r == SvcAccess(c, h, req, f).1
  {
    hide SvcTake, SvcGive;
    match req
    case ReadIn(i) =>
      var invec := SvcAccessVec(spm, h, false, i, c);
      if invec.Err? {
        return Failure(invec.error, []);
      }
      var loans := [Loan(false, i, invec.value)];
      var (result, _) := f(invec.value, EMPTY_SLICE);
      var released := SvcReleaseVec(spm, h, false, i, 0, SvcTake(c, h, false, i).0);
      return if released.Err? then Failure(released.error, loans) else Outcome(Ok(result), loans);
    case WriteOut(o) =>
      var outvec := SvcAccessVec(spm, h, true, o, c);
      if outvec.Err? {
        return Failure(outvec.error, []);
      }
      var loans := [Loan(true, o, outvec.value)];
      var (result, written) := f(EMPTY_SLICE, outvec.value);
      var released := SvcReleaseVec(spm, h, true, o, written, SvcTake(c, h, true, o).0);
      return if released.Err? then Failure(released.error, loans) else Outcome(Ok(result), loans);
    case ReadWrite(i, o) =>
      var invec := SvcAccessVec(spm, h, false, i, c);
      if invec.Err? {
        return Failure(invec.error, []);
      }
      ghost var c1 := SvcTake(c, h, false, i).0;
      var outvec := SvcAccessVec(spm, h, true, o, c1);
      if outvec.Err? {
        return Failure(outvec.error, []);
      }
      ghost var c2 := SvcTake(c1, h, true, o).0;
      var loans := [Loan(false, i, invec.value), Loan(true, o, outvec.value)];
      var (result, written) := f(invec.value, outvec.value);
      var committed := SvcReleaseVec(spm, h, true, o, written, c2);
      if committed.Err? {
        return Failure(committed.error, loans);
      }
      var released := SvcReleaseVec(spm, h, false, i, 0, SvcGive(c2, h, true, o, written).0);
      return if released.Err? then Failure(released.error, loans) else Outcome(Ok(result), loans);
  }

  // ----- Calls of other services -----------------------------------------------------------

  /** The machine answers a call as the SPM does: it refuses what the SPM refuses, and otherwise calls the
      process found for the handle, which exits with the same word. */
  predicate Answers(pf: Platform, s: State, call: Action, answer: R.Answer)
    requires call.CallService?
  {
    match FindProcess(pf.processes, call.connection.msg.handle)
    case None => answer == R.Refusal(NotSupported)
    case Some(p) =>
      if Add(s.stack, call.connection).Err? then answer == R.Refusal(InsufficientMemory)
      else answer.Service? && answer.call.svc == pf.processes[p].vectors && answer.call.exit == call.exit
  }

  /** Through thunk, stack switches and any tree of nested activations, the word the caller finds in r0
      after its supervisor call decodes to what the call reported in the SPM; r1-r3 are its own arguments
      after a success, zero otherwise. */
  lemma CallerReadsResult(lay: R.Layout, c: M.Cpu, act: R.Act, active: set<ServiceVectors>,
                          pf: Platform, s: State, call: Action)
    requires R.LayoutOk(lay) && R.Caller(lay, c, active)
    requires act.PsaCall? && R.OpenClear(act.open, R.Waiting(c, |act.spill|))
    requires R.FitsCall(lay, c, act, active, R.Waiting(c, |act.spill|))
    requires call.CallService? && Answers(pf, s, call, act.answer)
    ensures var r0 := R.RunAct(c, act).regs.r0;
            0 <= r0 < TWO_32 && CheckSvcResult(r0) == CallResult(pf, s, call)
    ensures var regs := R.RunAct(c, act).regs;
            if CallResult(pf, s, call).Ok? then regs.r1 == c.regs.r1 && regs.r2 == c.regs.r2 && regs.r3 == c.regs.r3
            else regs.r1 == 0 && regs.r2 == 0 && regs.r3 == 0
  {
    hide StageMailbox, R.FitsCall, R.RunAct, R.RunAnswer, R.InThunk, R.Waiting, StatusWord, StatusFromWord;
    assert {} + R.Waiting(c, |act.spill|) == R.Waiting(c, |act.spill|);
    R.PsaCallRestores(lay, c, act, active, {});
    RestoredResults(c, act);
    hide R.Restores, R.LayoutOk, R.Caller;
    var status := R.AnswerStatus(act.answer);
    assert status == CallResult(pf, s, call);
    StatusIsReadBack(Success);
    if status.Err? {
      StatusIsReadBack(status.error);
      StagingError(act.answer);
    }
  }

  lemma RestoredResults(c: M.Cpu, act: R.Act)
    requires act.PsaCall? && R.Restores(c, act)
    ensures var regs, status := R.RunAct(c, act).regs, R.AnswerStatus(act.answer);
            && regs.r0 == StatusWord(if status.Err? then status.error else Success)
            && (if status.Ok? then regs.r1 == c.regs.r1 && regs.r2 == c.regs.r2 && regs.r3 == c.regs.r3
                else regs.r1 == 0 && regs.r2 == 0 && regs.r3 == 0)
  {
    hide R.RunAct, R.RunAnswer, R.InThunk, R.AnswerStatus, R.ThunkOf, StatusWord;
  }

  lemma StagingError(answer: R.Answer)
    ensures answer.Service? && R.AnswerStatus(answer).Err? ==> R.AnswerStatus(answer).error != Success
  {
  }
}
