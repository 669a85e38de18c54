/** The process-isolating SPM as an object (spm_ipc.rs) with its supervisor-call entry (svc.rs) and
    the checked call of api.rs; every method is proved against the step machine. */
module IpcDispatcher {
  import opened Basics
  import opened Connections
  import opened ConnectionStacks
  import opened Mpus
  import opened Processes
  import opened VectorPaths
  import opened SpmIpcs

  const SVC_PSA_ACCESS_VEC: int := 1
  const SVC_PSA_RELEASE_VEC: int := 2
  const SVC_PSA_CALL: int := 4
  const SVC_PSA_VERSION: int := 5

  const SECURE_UNPRIVILEGED := CallerAttributes(false, false)

  /** The client of a call: what it may access, and the vectors that lie at its pointers. */
  datatype Client = Client(perm: Permission, inAt: (Word, nat) -> FFVec, outAt: (Word, nat) -> FFVec)

  /** How the service that is called behaves. */
  datatype Behaviour = Behaviour(init: seq<Action>, body: seq<Action>, exit: Word)

  /** For numbers that make no call. */
  const NO_CLIENT := Client((a, b, c, d) => false, (p, i) => FFVec(0, 0), (p, i) => FFVec(0, 0))
  const NO_BEHAVIOUR := Behaviour([], [], 0)

  function VecsAt(table: (Word, nat) -> FFVec, ptr: Word, n: nat): seq<FFVec> {
    seq(n, i requires 0 <= i < n => table(ptr, i))
  }

  /** The vectors a request names, or why they cannot be read. */
  function RequestVecs(client: Client, p: CtrlParam, inPtr: Word, outPtr: Word): Result<(seq<FFVec>, seq<FFVec>), StatusCode> {
    match ValidateCallParams(p)
    case Err(e) => Err(e)
    case Ok(counts) =>
      match ValidateVecPointerShape(p, counts, inPtr, outPtr)
      case Err(e) => Err(e)
      case Ok(_) => Ok((VecsAt(client.inAt, inPtr, counts.ivecNum), VecsAt(client.outAt, outPtr, counts.ovecNum)))
  }

  /** A checked call from state s: refused with the first error found and nothing changed, or a call of
      the step machine with a fresh connection for the client's vectors. */
  ghost predicate CallEffect(pf: Platform, s: State, client: Client, h: ServiceHandle, p: CtrlParam, inPtr: Word,
                             outPtr: Word, caller: CallerAttributes, b: Behaviour, r: Result<(), StatusCode>, t: State) {
    match RequestVecs(client, p, inPtr, outPtr)
    case Err(e) => r == Err(e) && t == s
    case Ok((inVecs, outVecs)) =>
      if !Acceptable(client.perm, p, inVecs, outVecs, caller) then
        r == Err(CallError(client.perm, p, inVecs, outVecs, caller)) && t == s
      else
        exists c: Connection ::
          && BuiltFrom(c, h, p, inVecs, outVecs, caller)
          && r == CallResult(pf, s, CallService(c, b.init, b.body, b.exit))
          && t == Last(StepStates(pf, s, CallService(c, b.init, b.body, b.exit)))
  }

  lemma AllocateAllSnoc(rs: seq<RegionRequest>, r: RegionRequest, config: MpuConfig)
    ensures AllocateAll(rs + [r], config) == AllocateOrSkip(r, AllocateAll(rs, config))
  {
    assert (rs + [r])[..|rs|] == rs;
  }

  lemma {:induction false} AllocateAllJoins(rs: seq<RegionRequest>, more: seq<RegionRequest>, config: MpuConfig)
    ensures AllocateAll(rs + more, config) == AllocateAll(more, AllocateAll(rs, config))
  {
    if more == [] {
      assert rs + more == rs;
    } else {
      var init := more[..|more| - 1];
      AllocateAllJoins(rs, init, config);
      AllocateAllSnoc(rs + init, Last(more), config);
      assert rs + more == rs + init + [Last(more)];
    }
  }

  // ----- Filling a configuration -----------------------------------------------------------

  method AllocateVec(mpu: Mpu, base: Word, size: Word, perm: Permissions, config: array<Option<RegionConfig>>)
    modifies config
    ensures config[..] == if size > 0 then AllocateOrSkip(VecRequest(base, size, perm), old(config[..]))
                          else old(config[..])
  {
    hide Allocate, VecRequest;
    if size > 0 {
      var r := VecRequest(base, size, perm);
      VecRequestPerm(base, size, perm);
      var _ := mpu.AllocateRegion(r.base, r.size, perm, config);
    }
  }

  lemma VecRequestPerm(base: Word, size: Word, perm: Permissions)
    ensures VecRequest(base, size, perm).perm == perm
  {
  }

  method AllocateFixed(mpu: Mpu, pf: Platform, p: nat, config: array<Option<RegionConfig>>)
    requires p < |pf.processes|
    modifies config
    ensures config[..] == AllocateAll(FixedRequests(pf, p), old(config[..]))
  {
    hide Allocate, SaturatingSub;
    ghost var before := config[..];
    var process := pf.processes[p];
    var rom, ram := RomRequest(process.vectors), RamRequest(process.vectors);
    var _ := mpu.AllocateRegion(rom.base, rom.size, ReadExecute, config);
    assert config[..] == AllocateOrSkip(rom, before);
    var _ := mpu.AllocateRegion(ram.base, ram.size, ReadWriteXN, config);
    assert config[..] == AllocateAll([rom, ram], before) by {
      AllocateAllSnoc([], rom, before);
      AllocateAllSnoc([rom], ram, before);
      assert [] + [rom] == [rom] && [rom] + [ram] == [rom, ram];
    }
    var custom := pf.custom(process.handle);
    assert [rom, ram] + custom[..0] == [rom, ram];
    for i := 0 to |custom|
      invariant config[..] == AllocateAll([rom, ram] + custom[..i], before)
    {
      AllocateAllSnoc([rom, ram] + custom[..i], custom[i], before);
      assert [rom, ram] + custom[..i] + [custom[i]] == [rom, ram] + custom[..i + 1];
      var _ := mpu.AllocateRegion(custom[i].base, custom[i].size, custom[i].perm, config);
      assert custom[i] == RegionRequest(custom[i].base, custom[i].size, custom[i].perm);
    }
    assert custom[..|custom|] == custom;
  }

  method AllocateInvecs(mpu: Mpu, c: Connection, config: array<Option<RegionConfig>>)
    modifies config
    ensures config[..] == AllocateAll(InRequests(c, PSA_MAX_IOVEC), old(config[..]))
  {
    hide Allocate, AllocateOrSkip, VecRequest;
    ghost var before := config[..];
    for i := 0 to PSA_MAX_IOVEC
      invariant config[..] == AllocateAll(InRequests(c, i), before)
    {
      AllocateAllSnoc(InRequests(c, i), VecRequest(c.invecBase[i], InLen(c, i), ReadXN), before);
      if c.invecMapped[i] && !c.invecUnmapped[i] && c.msg.inSize[i].AsOption().Some? {
        AllocateVec(mpu, c.invecBase[i], c.msg.inSize[i].AsOption().value, ReadXN, config);
      }
      assert InRequests(c, i) + [] == InRequests(c, i);
    }
  }

  method AllocateOutvecs(mpu: Mpu, c: Connection, config: array<Option<RegionConfig>>)
    modifies config
    ensures config[..] == AllocateAll(OutRequests(c, PSA_MAX_IOVEC), old(config[..]))
  {
    hide Allocate, AllocateOrSkip, VecRequest;
    ghost var before := config[..];
    for i := 0 to PSA_MAX_IOVEC
      invariant config[..] == AllocateAll(OutRequests(c, i), before)
    {
      AllocateAllSnoc(OutRequests(c, i), VecRequest(c.outvecBase[i], OutLen(c, i), ReadWriteXN), before);
      if c.outvecMapped[i] && !c.outvecUnmapped[i] && c.msg.outSize[i].AsOption().Some? {
        AllocateVec(mpu, c.outvecBase[i], c.msg.outSize[i].AsOption().value, ReadWriteXN, config);
      }
      assert OutRequests(c, i) + [] == OutRequests(c, i);
    }
  }

  method FillConfig(mpu: Mpu, pf: Platform, p: nat, live: Option<Connection>, config: array<Option<RegionConfig>>)
    requires p < |pf.processes|
    modifies config
    ensures config[..] == AllocateAll(FixedRequests(pf, p) + VectorRequests(live), old(config[..]))
  {
    hide AllocateAll, FixedRequests, InRequests, OutRequests;
    ghost var before := config[..];
    AllocateFixed(mpu, pf, p, config);
    ghost var fixed := config[..];
    AllocateAllJoins(FixedRequests(pf, p), VectorRequests(live), before);
    match live {
      case Some(c) =>
        AllocateInvecs(mpu, c, config);
        AllocateOutvecs(mpu, c, config);
        AllocateAllJoins(InRequests(c, PSA_MAX_IOVEC), OutRequests(c, PSA_MAX_IOVEC), fixed);
      case None =>
        AllocateNone(fixed);
    }
  }

  lemma AllocateNone(config: MpuConfig)
    ensures AllocateAll([], config) == config
  {
  }

  // ----- Working on the leased copy --------------------------------------------------------

  /** What the closures of `prepare_invec_raw` and `prepare_outvec_raw` do to the connection. */
  method PrepareOn(c: Connection, h: ServiceHandle, isOut: bool, i: Word)
    returns (after: Connection, r: Result<RawVec, StatusCode>)
    ensures (after, r) == PrepareRaw(c, h, isOut, i)
  {
    var active := new ActiveConnection(c);
    if c.msg.handle != h {
      r := Err(InvalidHandle);
    } else if c.msg.msgType < 0 {
      r := Err(ProgrammerError);
    } else if isOut {
      r := active.PrepareOutvec(i);
    } else {
      r := active.PrepareInvec(i);
    }
    after := active.it;
  }

  /** What the closures of `finish_invec_raw` and `finish_outvec_raw` do to the connection. */
  method FinishOn(c: Connection, h: ServiceHandle, isOut: bool, i: Word, written: Word)
    returns (after: Connection, r: Result<(), StatusCode>)
    ensures (after, r) == FinishRaw(c, h, isOut, i, written)
  {
    var active := new ActiveConnection(c);
    if c.msg.handle != h {
      r := Err(InvalidHandle);
    } else if c.msg.msgType < 0 {
      r := Err(ProgrammerError);
    } else if isOut {
      var outLen := if i < PSA_MAX_IOVEC then c.msg.outSize[i].UnwrapOr(0) else 0;
      r := active.CommitOutvecWrite(i, outLen, written);
    } else {
      r := active.MarkInvecUnmapped(i);
    }
    after := active.it;
  }

  method RemapOn(c: Connection, isOut: bool, i: Word, mapped: bool) returns (after: Connection)
    ensures after == Remapped(c, isOut, i, mapped)
  {
    var active := new ActiveConnection(c);
    active.UpdateMapping(isOut, i, mapped);
    after := active.it;
  }

  /** Taking the active connection succeeds when it can be peeked at, and restoring puts the new
      value where the old one was. */
  lemma LeaseRoundTrip(s: Stack, c: Connection)
    ensures Take(s).Ok? <==> Peek(s).Ok?
    ensures Take(s).Ok? ==>
              && s.top > 0 && Take(s).value.connection == Peek(s).value
              && Restore(Take(s).value.stack, Take(s).value.index, c) == Ok(WithActive(s, c))
    ensures Peek(s).Ok? ==> WithActive(s, Peek(s).value) == s
  {
    if Take(s).Ok? {
      TakeThenRestore(s, c);
      TakeThenRestore(s, Peek(s).value);
    }
  }

  class SpmIpc {
    const platform: Platform
    const connections: ConnectionArray
    const initDone: array<bool>
    const mpu: Mpu
    ghost var leased: set<nat>
    ghost var corrupted: bool
    ghost var events: seq<Event>

    ghost function Repr(): set<object>
      reads this
    {
      {this, connections, connections.connections, connections.present, initDone, mpu, mpu.rbar, mpu.rlar}
    }

    ghost predicate Valid()
      reads Repr()
    {
      && connections.Valid() && mpu.Valid() && mpu.n == MPU_REGIONS
      && initDone.Length == |platform.processes| && initDone != connections.present
    }

    ghost function Marked(): set<nat>
      reads initDone
    {
      set p: nat | p < initDone.Length && initDone[p]
    }

    ghost function View(): State
      requires Valid()
      reads Repr()
    {
      State(connections.View(), leased, corrupted, Marked(),
            mpu.Regions(), events)
    }

    constructor (pf: Platform)
      ensures Valid() && fresh(Repr() - {this}) && platform == pf
      ensures View() == Start(mpu.Regions())
    {
      platform := pf;
      connections := new ConnectionArray();
      initDone := new bool[|pf.processes|](i => false);
      mpu := new Mpu(MPU_REGIONS);
      leased, corrupted, events := {}, false, [];
    }

    /** Whether this process still has to be initialised; from now on it counts as initialised. */
    method MarkInitDone(p: nat) returns (r: Result<bool, SpmError>)
      requires Valid()
      modifies initDone
      ensures Valid()
      ensures p < initDone.Length ==>
                r == Ok(p !in old(View()).initDone)
                && View() == old(View()).(initDone := old(View()).initDone + {p})
      ensures p >= initDone.Length ==> r == Err(CorruptedConnectionStack) && View() == old(View())
    {
      if p >= initDone.Length {
        return Err(CorruptedConnectionStack);
      }
      if initDone[p] {
        assert View().initDone == old(View()).initDone + {p};
        return Ok(false);
      }
      initDone[p] := true;
      assert View().initDone == old(View()).initDone + {p};
      return Ok(true);
    }

    method ApplyMpuConfig(p: nat)
      requires Valid() && p < |platform.processes|
      modifies mpu, mpu.rbar, mpu.rlar
      ensures Valid()
      ensures View() == old(View()).(regions := Applied(platform, p, old(View()).stack))
    {
      hide AllocateAll, FixedRequests, VectorRequests, Programmed;
      ghost var before := View();
      var config := new Option<RegionConfig>[MPU_REGIONS](i => None);
      assert config[..] == EmptyConfig(MPU_REGIONS);
      var top := connections.PeekActiveConnection();
      var live := if top.Ok? && FindProcess(platform.processes, top.value.msg.handle) == Some(p) then Some(top.value) else None;
      FillConfig(mpu, platform, p, live, config);
      assert live == LiveConnection(platform, p, before.stack);
      mpu.ConfigureMpu(config);
      mpu.EnableMpu();
      assert mpu.Regions() == Applied(platform, p, before.stack);
      assert View().stack == before.stack && View().initDone == before.initDone;
    }

    method TakeConnection() returns (r: Result<(nat, Connection), SpmError>)
      requires Valid()
      modifies connections, connections.connections, connections.present
      ensures Valid()
      ensures match Take(old(View()).stack)
              case Ok(l) => r == Ok((l.index, l.connection)) && View() == old(View()).(stack := l.stack)
              case Err(e) => r == Err(e) && View() == old(View())
    {
      r := connections.TakeActiveConnection();
    }

    method RestoreConnection(index: nat, c: Connection) returns (r: Result<(), SpmError>)
      requires Valid()
      modifies connections, connections.connections, connections.present
      ensures Valid()
      ensures match Restore(old(View()).stack, index, c)
              case Ok(stack) => r == Ok(()) && View() == old(View()).(stack := stack)
              case Err(e) => r == Err(e) && View() == old(View())
    {
      r := connections.RestoreActiveConnection(index, c);
    }

    /** Run steps while the active connection is leased out to a closure. */
    method WithActiveConnection(before: Connection -> Connection, inner: seq<Action>, after: Connection -> Connection)
      returns (r: Result<(), SpmError>)
      requires Valid()
      modifies Repr()
      ensures Valid()
      ensures View() == Last(StepStates(platform, old(View()), Closure(before, inner, after)))
      ensures r == ClosureResult(platform, old(View()), Closure(before, inner, after))
      decreases inner, 1
    {
      hide RunStates, Take, Restore;
      ghost var start := View();
      var taken := TakeConnection();
      if taken.Err? {
        return Err(taken.error);
      }
      var (index, connection) := taken.value;
      leased := leased + {index};
      assert View() == Leased(start);
      connection := before(connection);
      RunService(inner);
      connection := after(connection);
      r := RestoreConnection(index, connection);
      if r.Ok? {
        leased := leased - {index};
      } else {
        corrupted := true;
      }
    }

    method UpdateVecMapping(isOut: bool, i: Word, mapped: bool)
      requires Valid()
      modifies Repr()
      ensures Valid()
      ensures View() == MappingUpdated(platform, old(View()), isOut, i, mapped)
    {
      hide Applied, Remapped, Take, Restore, Peek, WithActive;
      ghost var start := View();
      var taken := TakeConnection();
      LeaseRoundTrip(start.stack, if taken.Ok? then taken.value.1 else EMPTY);
      if taken.Err? {
        return;
      }
      var (index, connection) := taken.value;
      var process := FindProcess(platform.processes, connection.msg.handle);
      if process.Some? {
        connection := RemapOn(connection, isOut, i, mapped);
      }
      LeaseRoundTrip(start.stack, connection);
      var restored := RestoreConnection(index, connection);
      if process.Some? {
        ApplyMpuConfig(process.value);
      }
    }

    /** Pop the finished connection and find the process of the one below, if any. */
    method GetLastProcessIndex() returns (r: Option<nat>)
      requires Valid()
      modifies Repr()
      ensures Valid()
      ensures View() == old(View()).(stack := Pop(old(View()).stack))
      ensures r == match Peek(View().stack)
                   case Err(_) => None
                   case Ok(c) => FindProcess(platform.processes, c.msg.handle)
    {
      connections.PopConnection();
      var top := connections.PeekActiveConnection();
      if top.Err? {
        return None;
      }
      return FindProcess(platform.processes, top.value.msg.handle);
    }

    method Call(c: Connection, init: seq<Action>, body: seq<Action>, exit: Word)
      returns (r: Result<(), StatusCode>)
      requires Valid()
      modifies Repr()
      ensures Valid()
      ensures View() == Last(StepStates(platform, old(View()), CallService(c, init, body, exit)))
      ensures r == CallResult(platform, old(View()), CallService(c, init, body, exit))
      decreases CallService(c, init, body, exit), 0
    {
      hide RunStates, Applied, Pop, Peek, CheckSvcResult, StageMailbox, UnprivFrame;
      ghost var start := View();
      ghost var a := CallService(c, init, body, exit);
      var process := FindProcess(platform.processes, c.msg.handle);
      if process.None? {
        return Err(NotSupported);
      }
      var p := process.value;
      var shouldInit := Enter(p, c);
      if shouldInit.Err? {
        return Err(InsufficientMemory);
      }
      var v := platform.processes[p].vectors;
      if shouldInit.value && UnprivFrame(v.stackLimit, v.stackTop).Some? {
        Record(InitBegun(p));
        RunService(init);
        Record(InitEnded(p));
      }
      assert View() == Last(StartStates(platform, start, a));
      var staged := StageMailbox(v);
      match staged {
        case Err(e) => r := Err(e);
        case Ok(_) =>
          Record(Called(p));
          RunService(body);
          r := CheckSvcResult(exit);
      }
      assert View() == Last(BodyStates(platform, start, a));
      CallSplits(platform, start, a);
      Leave();
    }

    /** Push the connection, mark the process as initialised and program the MPU for it; says
        whether the process still has to be initialised. */
    method Enter(p: nat, c: Connection) returns (shouldInit: Result<bool, SpmError>)
      requires Valid() && p < |platform.processes|
      modifies Repr()
      ensures Valid()
      ensures match Add(old(View()).stack, c)
              case Err(e) => shouldInit == Err(e) && View() == old(View())
              case Ok(pushed) => shouldInit == Ok(p !in old(View()).initDone)
                                 && View() == Entered(platform, old(View()), p, pushed)
    {
      hide Applied;
      ghost var start := View();
      var added := connections.AddConnection(c);
      if added.Err? {
        return Err(added.error);
      }
      assert View() == start.(stack := Add(start.stack, c).value);
      shouldInit := MarkInitDone(p);
      ApplyMpuConfig(p);
    }

    ghost method Record(e: Event)
      requires Valid()
      modifies this`events
      ensures Valid()
      ensures View() == Logged(old(View()), e)
    {
      events := events + [e];
    }

    /** Pop the finished connection and restore the MPU of the previous process, if any. */
    method Leave()
      requires Valid()
      modifies Repr()
      ensures Valid()
      ensures View() == Exited(platform, old(View()))
    {
      hide Applied;
      var previous := GetLastProcessIndex();
      if previous.Some? {
        ApplyMpuConfig(previous.value);
      }
    }

    method RunService(actions: seq<Action>)
      requires Valid()
      modifies Repr()
      ensures Valid()
      ensures View() == Last(RunStates(platform, old(View()), actions))
      decreases actions, 0
    {
      if actions == [] {
        return;
      }
      hide AccessStep, ReleaseStep, Take, Restore, Applied, StageMailbox;
      ghost var start := View();
      match actions[0] {
        case Access(frame) =>
          var _ := AccessBranch(frame);
        case Release(frame) =>
          var _ := ReleaseBranch(frame);
        case Closure(before, inner, after) =>
          var _ := WithActiveConnection(before, inner, after);
        case CallService(c, init, body, exit) =>
          var _ := Call(c, init, body, exit);
      }
      assert View() == Last(StepStates(platform, start, actions[0]));
      RunService(actions[1..]);
    }

    method AccessBranch(frame: Frame) returns (result: Frame)
      requires Valid()
      modifies Repr()
      ensures Valid()
      ensures (View(), result) == AccessStep(platform, old(View()), frame)
    {
      var handle := HandleFromWord(frame.r0);
      if handle.None? {
        return ErrorFrame(InvalidHandle);
      }
      var isOut := frame.r2 != 0;
      var prepared := PrepareVecRaw(handle.value, isOut, frame.r1);
      match prepared {
        case Ok(raw) =>
          UpdateVecMapping(isOut, frame.r1, true);
          return RawVecFrame(raw);
        case Err(status) =>
          return ErrorFrame(status);
      }
    }

    method ReleaseBranch(frame: Frame) returns (result: Frame)
      requires Valid()
      modifies Repr()
      ensures Valid()
      ensures (View(), result) == ReleaseStep(platform, old(View()), frame)
    {
      var handle := HandleFromWord(frame.r0);
      if handle.None? {
        return ErrorFrame(InvalidHandle);
      }
      var isOut := frame.r2 != 0;
      var finished := FinishVecRaw(handle.value, isOut, frame.r1, frame.r3);
      match finished {
        case Ok(_) =>
          UpdateVecMapping(isOut, frame.r1, false);
          return SuccessFrame(frame);
        case Err(status) =>
          return ErrorFrame(status);
      }
    }

    /** `handle_svc_with_spm`: `client` and `b` say what a call of number SVC_PSA_CALL finds. A raw handle
        that names no service is refused for every number. */
    method HandleSvc(svcNum: int, frame: Frame, client: Client, b: Behaviour) returns (handled: bool, result: Frame)
      requires Valid()
      modifies Repr()
      ensures Valid()
      ensures var s, handle := old(View()), HandleFromWord(frame.r0);
              if handle.None? then handled && result == ErrorFrame(InvalidHandle) && View() == s
              else if svcNum == 1 then handled && (View(), result) == AccessStep(platform, s, frame)
              else if svcNum == 2 then handled && (View(), result) == ReleaseStep(platform, s, frame)
              else if svcNum == 4 then
                handled &&
                (exists r ::
                  && result == AnswerFrame(frame, r)
                  && CallEffect(platform, s, client, handle.value, CtrlParam(frame.r1), frame.r2, frame.r3,
                                CallerAttributes(false, false), b, r, View()))
              else if svcNum == 5 then
                handled && result == frame.(r0 := VersionOf(platform, handle.value)) && View() == s
              else !handled && result == frame && View() == s
    {
      hide CallEffect;
      var handle := HandleFromWord(frame.r0);
      if handle.None? {
        return true, ErrorFrame(InvalidHandle);
      }
      if svcNum == SVC_PSA_ACCESS_VEC {
        result := AccessBranch(frame);
        return true, result;
      }
      if svcNum == SVC_PSA_RELEASE_VEC {
        result := ReleaseBranch(frame);
        return true, result;
      }
      if svcNum == SVC_PSA_CALL {
        var r := PsaCall(client, handle.value, CtrlParam(frame.r1), frame.r2, frame.r3, SECURE_UNPRIVILEGED, b);
        match r {
          case Ok(_) => return true, SuccessFrame(frame);
          case Err(e) => return true, ErrorFrame(e);
        }
      }
      if svcNum == SVC_PSA_VERSION {
        return true, frame.(r0 := VersionOf(platform, handle.value));
      }
      return false, frame;
    }

    /** `prepare_invec_raw` and `prepare_outvec_raw` on the active connection. */
    method PrepareVecRaw(h: ServiceHandle, isOut: bool, i: Word) returns (r: Result<RawVec, StatusCode>)
      requires Valid()
      modifies Repr()
      ensures Valid()
      ensures match Peek(old(View()).stack)
              case Err(_) => r == Err(CommunicationFailure) && View() == old(View())
              case Ok(c) =>
                var (c', result) := PrepareRaw(c, h, isOut, i);
                r == result && View() == old(View()).(stack := WithActive(old(View()).stack, c'))
    {
      hide PrepareRaw, Take, Restore, Peek, WithActive;
      ghost var start := View();
      var taken := TakeConnection();
      LeaseRoundTrip(start.stack, EMPTY);
      if taken.Err? {
        return Err(CommunicationFailure);
      }
      var (index, connection) := taken.value;
      connection, r := PrepareOn(connection, h, isOut, i);
      LeaseRoundTrip(start.stack, connection);
      var _ := RestoreConnection(index, connection);
    }

    /** `finish_invec_raw` and `finish_outvec_raw` on the active connection. */
    method FinishVecRaw(h: ServiceHandle, isOut: bool, i: Word, written: Word) returns (r: Result<(), StatusCode>)
      requires Valid()
      modifies Repr()
      ensures Valid()
      ensures match Peek(old(View()).stack)
              case Err(_) => r == Err(CommunicationFailure) && View() == old(View())
              case Ok(c) =>
                var (c', result) := FinishRaw(c, h, isOut, i, written);
                r == result && View() == old(View()).(stack := WithActive(old(View()).stack, c'))
    {
      hide FinishRaw, Take, Restore, Peek, WithActive;
      ghost var start := View();
      var taken := TakeConnection();
      LeaseRoundTrip(start.stack, EMPTY);
      if taken.Err? {
        return Err(CommunicationFailure);
      }
      var (index, connection) := taken.value;
      connection, r := FinishOn(connection, h, isOut, i, written);
      LeaseRoundTrip(start.stack, connection);
      var _ := RestoreConnection(index, connection);
    }

    /** A checked call: parameters, pointers and vectors are validated and, if acceptable, a fresh
        connection is built and handed to `Call`; otherwise nothing happens. */
    method PsaCall(client: Client, h: ServiceHandle, p: CtrlParam, inPtr: Word, outPtr: Word,
                   caller: CallerAttributes, b: Behaviour)
      returns (r: Result<(), StatusCode>)
      requires Valid()
      modifies Repr()
      ensures Valid()
      ensures CallEffect(platform, old(View()), client, h, p, inPtr, outPtr, caller, b, r, View())
    {
      hide Acceptable, CallError, CallResult, StepStates, BuiltFrom;
      var counts := ValidateCallParams(p);
      if counts.Err? {
        return Err(counts.error);
      }
      var shape := ValidateVecPointerShape(p, counts.value, inPtr, outPtr);
      if shape.Err? {
        return Err(shape.error);
      }
      var inVecs := VecsAt(client.inAt, inPtr, counts.value.ivecNum);
      var outVecs := VecsAt(client.outAt, outPtr, counts.value.ovecNum);
      var built := CallFromSlices(client.perm, h, p, inVecs, outVecs, caller);
      if built.Err? {
        return Err(built.error);
      }
      r := Call(built.value, b.init, b.body, b.exit);
    }
  }
}
