/** The process-isolating SPM (spm_ipc.rs): calls, supervisor calls on vectors, and the memory
    protection that must follow the top of the connection stack. */
module SpmIpcs {
  import opened Basics
  import opened Connections
  import opened ConnectionStacks
  import opened Mpus
  import opened Processes
  import opened VectorPaths

  const MPU_REGIONS: nat := 8

  /** What the board provides: the processes and extra MPU regions per service. */
  datatype Platform = Platform(processes: seq<Process>, custom: ServiceHandle -> seq<RegionRequest>)

  // ----- The MPU configuration of one process ----------------------------------------------

  function SaturatingSub(a: Word, b: Word): Word {
    if a < b then 0 else a - b
  }

  function RomRequest(v: ServiceVectors): RegionRequest {
    RegionRequest(v.romStart, SaturatingSub(v.romLimit, v.romStart), ReadExecute)
  }

  function RamRequest(v: ServiceVectors): RegionRequest {
    RegionRequest(v.ramStart, SaturatingSub(v.ramLimit, v.ramStart), ReadWriteXN)
  }

  /** The region that covers a vector, widened to whole 32-byte blocks. */
  function VecRequest(base: Word, size: Word, perm: Permissions): RegionRequest {
    var alignedBase := Floor32(base);
    var alignedEnd := Floor32(Wrap(base + size + 0x1F));
    RegionRequest(alignedBase, Wrap(alignedEnd - alignedBase), perm)
  }

  predicate LiveIn(c: Connection, i: nat) {
    i < PSA_MAX_IOVEC && c.invecMapped[i] && !c.invecUnmapped[i] && c.msg.inSize[i].IsSome() && InLen(c, i) > 0
  }

  predicate LiveOut(c: Connection, i: nat) {
    i < PSA_MAX_IOVEC && c.outvecMapped[i] && !c.outvecUnmapped[i] && c.msg.outSize[i].IsSome() && OutLen(c, i) > 0
  }

  /** Regions for the live input vectors among the first n. */
  function InRequests(c: Connection, n: nat): seq<RegionRequest>
    requires n <= PSA_MAX_IOVEC
  {
    if n == 0 then []
    else InRequests(c, n - 1)
         + (if LiveIn(c, n - 1) then [VecRequest(c.invecBase[n - 1], InLen(c, n - 1), ReadXN)] else [])
  }

  function OutRequests(c: Connection, n: nat): seq<RegionRequest>
    requires n <= PSA_MAX_IOVEC
  {
    if n == 0 then []
    else OutRequests(c, n - 1)
         + (if LiveOut(c, n - 1) then [VecRequest(c.outvecBase[n - 1], OutLen(c, n - 1), ReadWriteXN)] else [])
  }

  function VectorRequests(live: Option<Connection>): seq<RegionRequest> {
    match live
    case None => []
    case Some(c) => InRequests(c, PSA_MAX_IOVEC) + OutRequests(c, PSA_MAX_IOVEC)
  }

  function FixedRequests(pf: Platform, p: nat): seq<RegionRequest>
    requires p < |pf.processes|
  {
    var process := pf.processes[p];
    [RomRequest(process.vectors), RamRequest(process.vectors)] + pf.custom(process.handle)
  }

  /** The active connection, if it is there and belongs to process p. */
  function LiveConnection(pf: Platform, p: nat, stack: Stack): Option<Connection> {
    match Peek(stack)
    case Err(_) => None
    case Ok(c) => if FindProcess(pf.processes, c.msg.handle) == Some(p) then Some(c) else None
  }

  function Requests(pf: Platform, p: nat, stack: Stack): seq<RegionRequest>
    requires p < |pf.processes|
  {
    FixedRequests(pf, p) + VectorRequests(LiveConnection(pf, p, stack))
  }

  /** The configuration of process p computed from scratch, as region registers. */
  function Applied(pf: Platform, p: nat, stack: Stack): seq<RegionConfig>
    requires p < |pf.processes|
  {
    Programmed(AllocateAll(Requests(pf, p, stack), EmptyConfig(MPU_REGIONS)))
  }

  // ----- The step machine ------------------------------------------------------------------

  /** A step of a service. `CallService` names what the callee does in its one-time initialisation,
      what it does for the call, and the word it exits with. `Closure` is an access that leases the
      connection out while other steps run. */
  datatype Action =
    | Access(frame: Frame)
    | Release(frame: Frame)
    | Closure(before: Connection -> Connection, inner: seq<Action>, after: Connection -> Connection)
    | CallService(connection: Connection, init: seq<Action>, body: seq<Action>, exit: Word)

  /** A process's one-time initialisation begins and ends; its service entry is called. */
  datatype Event = InitBegun(p: nat) | InitEnded(p: nat) | Called(p: nat)

  /** `leased`, `corrupted` and `events` record the lease slots, a failed restore and the order of
      process activations; the rest is what the SPM and the MPU hold. */
  datatype State = State(
    stack: Stack,
    leased: set<nat>,
    corrupted: bool,
    initDone: set<nat>,
    regions: seq<RegionConfig>,
    events: seq<Event>)

  function Start(regions: seq<RegionConfig>): State {
    State(EMPTY_STACK, {}, false, {}, regions, [])
  }

  function WithActive(s: Stack, c: Connection): Stack
    requires s.top > 0
  {
    Stack(s.slots[s.top - 1 := Some(c)], s.top)
  }

  /** Set the mapping flags of one vector of the active connection and reprogram the MPU. */
  function MappingUpdated(pf: Platform, s: State, isOut: bool, i: Word, mapped: bool): State {
    match Peek(s.stack)
    case Err(_) => s
    case Ok(c) =>
      match FindProcess(pf.processes, c.msg.handle)
      case None => s
      case Some(p) =>
        var stack := WithActive(s.stack, Remapped(c, isOut, i, mapped));
        s.(stack := stack, regions := Applied(pf, p, stack))
  }

  function AccessStep(pf: Platform, s: State, f: Frame): (State, Frame) {
    match HandleFromWord(f.r0)
    case None => (s, ErrorFrame(InvalidHandle))
    case Some(h) =>
      match Peek(s.stack)
      case Err(_) => (s, ErrorFrame(CommunicationFailure))
      case Ok(c) =>
        var (c', result) := PrepareRaw(c, h, f.r2 != 0, f.r1);
        var s' := s.(stack := WithActive(s.stack, c'));
        match result
        case Err(e) => (s', ErrorFrame(e))
        case Ok(raw) => (MappingUpdated(pf, s', f.r2 != 0, f.r1, true), RawVecFrame(raw))
  }

  function ReleaseStep(pf: Platform, s: State, f: Frame): (State, Frame) {
    match HandleFromWord(f.r0)
    case None => (s, ErrorFrame(InvalidHandle))
    case Some(h) =>
      match Peek(s.stack)
      case Err(_) => (s, ErrorFrame(CommunicationFailure))
      case Ok(c) =>
        var (c', result) := FinishRaw(c, h, f.r2 != 0, f.r1, f.r3);
        var s' := s.(stack := WithActive(s.stack, c'));
        match result
        case Err(e) => (s', ErrorFrame(e))
        case Ok(_) => (MappingUpdated(pf, s', f.r2 != 0, f.r1, false), SuccessFrame(f))
  }

  /** A connection has been pushed for process p and the MPU programmed for it. */
  function Entered(pf: Platform, s: State, p: nat, pushed: Stack): State
    requires p < |pf.processes|
  {
    s.(stack := pushed, initDone := s.initDone + {p}, regions := Applied(pf, p, pushed))
  }

  function Logged(s: State, e: Event): State {
    s.(events := s.events + [e])
  }

  /** The states of a run with the end of an initialisation behind them. */
  function WithInitEnded(run: seq<State>, p: nat): (states: seq<State>)
    requires run != []
    ensures states != []
  {
    run + [Logged(Last(run), InitEnded(p))]
  }

  function Exited(pf: Platform, s: State): State {
    var popped := s.(stack := Pop(s.stack));
    match Peek(popped.stack)
    case Err(_) => popped
    case Ok(c) =>
      match FindProcess(pf.processes, c.msg.handle)
      case None => popped
      case Some(q) => popped.(regions := Applied(pf, q, popped.stack))
  }

  function Leased(s: State): State
    requires Take(s.stack).Ok?
  {
    var lease := Take(s.stack).value;
    s.(stack := lease.stack, leased := s.leased + {lease.index})
  }

  function Returned(s: State, index: nat, c: Connection): State {
    match Restore(s.stack, index, c)
    case Ok(stack) => s.(stack := stack, leased := s.leased - {index})
    case Err(_) => s.(corrupted := true)
  }

  /** Whether the stack of a process has room for the frame that starts it. */
  predicate InitRuns(v: ServiceVectors) {
    UnprivFrame(v.stackLimit, v.stackTop).Some?
  }

  /** The states one step goes through, the first being the one it starts from. */
  function StepStates(pf: Platform, s: State, a: Action): (states: seq<State>)
    ensures |states| > 0
    decreases a
  {
    match a
    case Access(f) => [s, AccessStep(pf, s, f).0]
    case Release(f) => [s, ReleaseStep(pf, s, f).0]
    case Closure(before, inner, after) =>
      (match Take(s.stack)
       case Err(_) => [s]
       case Ok(lease) =>
         var run := RunStates(pf, Leased(s), inner);
         [s] + run + [Returned(Last(run), lease.index, after(before(lease.connection)))])
    case CallService(c, init, body, exit) =>
      match FindProcess(pf.processes, c.msg.handle)
      case None => [s]
      case Some(p) =>
        match Add(s.stack, c)
        case Err(_) => [s]
        case Ok(pushed) =>
          var entered := Entered(pf, s, p, pushed);
          var v := pf.processes[p].vectors;
          var started :=
            if p !in s.initDone && InitRuns(v)
            then WithInitEnded(RunStates(pf, Logged(entered, InitBegun(p)), init), p)
            else [entered];
          var run :=
            if StageMailbox(v).Ok?
            then RunStates(pf, Logged(Last(started), Called(p)), body)
            else [Last(started)];
          [s] + started + run + [Exited(pf, Last(run))]
  }

  function RunStates(pf: Platform, s: State, actions: seq<Action>): (states: seq<State>)
    ensures |states| > 0
    decreases actions
  {
    if actions == [] then [s]
    else
      var first := StepStates(pf, s, actions[0]);
      first + RunStates(pf, Last(first), actions[1..])
  }

  /** What a call reports to its caller. */
  function CallResult(pf: Platform, s: State, a: Action): Result<(), StatusCode>
    requires a.CallService?
  {
    match FindProcess(pf.processes, a.connection.msg.handle)
    case None => Err(NotSupported)
    case Some(p) =>
      if Add(s.stack, a.connection).Err? then Err(InsufficientMemory)
      else ServiceStatus(pf.processes[p].vectors, a.exit)
  }

  /** The version a service declares, or zero. */
  function VersionOf(pf: Platform, h: ServiceHandle): Word {
    match FindProcess(pf.processes, h)
    case None => 0
    case Some(p) => pf.processes[p].vectors.version
  }

  /** What an access with a closure reports: the failed take, or the outcome of the restore. */
  function ClosureResult(pf: Platform, s: State, a: Action): Result<(), SpmError>
    requires a.Closure?
  {
    match Take(s.stack)
    case Err(e) => Err(e)
    case Ok(lease) =>
      match Restore(Last(RunStates(pf, Leased(s), a.inner)).stack, lease.index, a.after(a.before(lease.connection)))
      case Err(e) => Err(e)
      case Ok(_) => Ok(())
  }

  // ----- The stack: every run --------------------------------------------------------------

  ghost predicate Sound(s: State) {
    !s.corrupted && Consistent(s.stack, s.leased)
  }

  ghost predicate AllSound(states: seq<State>, from: State, n: int) {
    forall v :: v in states ==> Sound(v) && from.stack.top <= v.stack.top && SameBelow(v.stack, from.stack, n)
  }

  /** Only the active connection and the MPU differ. */
  ghost predicate ActiveOnly(s: State, t: State) {
    && t == s.(stack := t.stack, regions := t.regions)
    && t.stack.top == s.stack.top
    && SameBelow(t.stack, s.stack, s.stack.top - 1)
    && (forall i :: 0 <= i < MAX_CONNECTIONS ==> (t.stack.slots[i].Some? <==> s.stack.slots[i].Some?))
  }

  lemma MappingTouchesActiveOnly(pf: Platform, s: State, isOut: bool, i: Word, mapped: bool)
    ensures ActiveOnly(s, MappingUpdated(pf, s, isOut, i, mapped))
  {
  }

  lemma AccessTouchesActiveOnly(pf: Platform, s: State, f: Frame)
    ensures ActiveOnly(s, AccessStep(pf, s, f).0)
  {
    hide PrepareRaw, MappingUpdated, HandleFromWord;
    if HandleFromWord(f.r0).Some? && Peek(s.stack).Ok? {
      var (c, r) := PrepareRaw(Peek(s.stack).value, HandleFromWord(f.r0).value, f.r2 != 0, f.r1);
      MappingTouchesActiveOnly(pf, s.(stack := WithActive(s.stack, c)), f.r2 != 0, f.r1, true);
    }
  }

  lemma ReleaseTouchesActiveOnly(pf: Platform, s: State, f: Frame)
    ensures ActiveOnly(s, ReleaseStep(pf, s, f).0)
  {
    hide FinishRaw, MappingUpdated, HandleFromWord;
    if HandleFromWord(f.r0).Some? && Peek(s.stack).Ok? {
      var (c, r) := FinishRaw(Peek(s.stack).value, HandleFromWord(f.r0).value, f.r2 != 0, f.r1, f.r3);
      MappingTouchesActiveOnly(pf, s.(stack := WithActive(s.stack, c)), f.r2 != 0, f.r1, false);
    }
  }

  lemma ActiveOnlyKeeps(s: State, t: State)
    requires Sound(s) && ActiveOnly(s, t)
    ensures AllSound([s, t], s, s.stack.top - 1)
  {
  }

  /** States that agree with `mid` below n also agree with what `mid` agrees with. */
  lemma AgreeThrough(states: seq<State>, from: State, mid: State, n: int)
    requires AllSound(states, mid, n)
    requires from.stack.top <= mid.stack.top && SameBelow(mid.stack, from.stack, n)
    ensures AllSound(states, from, n)
  {
  }

  /** One step keeps the height, the leases and everything below the active slot; a call, however
      deeply it nests, gives back exactly the stack it found. */
  lemma {:induction false} StepKeeps(pf: Platform, s: State, a: Action)
    requires Sound(s)
    ensures AllSound(StepStates(pf, s, a), s, s.stack.top - (if a.CallService? then 0 else 1))
    ensures Last(StepStates(pf, s, a)).stack.top == s.stack.top
    ensures Last(StepStates(pf, s, a)).leased == s.leased
    ensures a.CallService? ==> Last(StepStates(pf, s, a)).stack == s.stack
    decreases a, 3
  {
    match a
    case Access(f) =>
      AccessTouchesActiveOnly(pf, s, f);
      ActiveOnlyKeeps(s, AccessStep(pf, s, f).0);
    case Release(f) =>
      ReleaseTouchesActiveOnly(pf, s, f);
      ActiveOnlyKeeps(s, ReleaseStep(pf, s, f).0);
    case Closure(before, inner, after) =>
      if Take(s.stack).Ok? {
        ClosureKeeps(pf, s, a);
      }
    case CallService(c, init, body, exit) =>
      if FindProcess(pf.processes, c.msg.handle).Some? && Add(s.stack, c).Ok? {
        CallKeeps(pf, s, a);
      }
  }

  lemma {:induction false} ClosureKeeps(pf: Platform, s: State, a: Action)
    requires Sound(s) && a.Closure? && Take(s.stack).Ok?
    ensures AllSound(StepStates(pf, s, a), s, s.stack.top - 1)
    ensures Last(StepStates(pf, s, a)).stack.top == s.stack.top
    ensures Last(StepStates(pf, s, a)).leased == s.leased
    decreases a, 0
  {
    RunKeeps(pf, Leased(s), a.inner);
    var end := Last(RunStates(pf, Leased(s), a.inner));
    assert end in RunStates(pf, Leased(s), a.inner);
    assert end.leased - {s.stack.top - 1} == s.leased;
  }

  /** The slot an access took is still its own, and empty, when the lease comes back. */
  lemma LeaseComesBack(pf: Platform, s: State, a: Action)
    requires Sound(s) && a.Closure?
    ensures ClosureResult(pf, s, a).Ok? <==> s.stack.top > 0 && s.stack.top - 1 !in s.leased
  {
    if Take(s.stack).Ok? {
      RunKeeps(pf, Leased(s), a.inner);
      assert Last(RunStates(pf, Leased(s), a.inner)) in RunStates(pf, Leased(s), a.inner);
    }
  }

  /** The states of an accepted call, part by part. */
  function StartStates(pf: Platform, s: State, a: Action): (states: seq<State>)
    requires a.CallService? && FindProcess(pf.processes, a.connection.msg.handle).Some?
    requires Add(s.stack, a.connection).Ok?
    ensures |states| > 0
  {
    var p := FindProcess(pf.processes, a.connection.msg.handle).value;
    var entered := Entered(pf, s, p, Add(s.stack, a.connection).value);
    if p !in s.initDone && InitRuns(pf.processes[p].vectors)
    then WithInitEnded(RunStates(pf, Logged(entered, InitBegun(p)), a.init), p)
    else [entered]
  }

  function BodyStates(pf: Platform, s: State, a: Action): (states: seq<State>)
    requires a.CallService? && FindProcess(pf.processes, a.connection.msg.handle).Some?
    requires Add(s.stack, a.connection).Ok?
    ensures |states| > 0
  {
    var p := FindProcess(pf.processes, a.connection.msg.handle).value;
    var started := Last(StartStates(pf, s, a));
    if StageMailbox(pf.processes[p].vectors).Ok? then RunStates(pf, Logged(started, Called(p)), a.body) else [started]
  }

  lemma CallSplits(pf: Platform, s: State, a: Action)
    requires a.CallService? && FindProcess(pf.processes, a.connection.msg.handle).Some?
    requires Add(s.stack, a.connection).Ok?
    ensures StepStates(pf, s, a)
            == [s] + StartStates(pf, s, a) + BodyStates(pf, s, a) + [Exited(pf, Last(BodyStates(pf, s, a)))]
  {
  }

  lemma {:induction false} StartKeeps(pf: Platform, s: State, a: Action)
    requires Sound(s) && a.CallService?
    requires FindProcess(pf.processes, a.connection.msg.handle).Some? && Add(s.stack, a.connection).Ok?
    ensures AllSound(StartStates(pf, s, a), s, s.stack.top)
    ensures Last(StartStates(pf, s, a)).stack.top == s.stack.top + 1
    ensures Last(StartStates(pf, s, a)).leased == s.leased
    decreases a, 0
  {
    var p := FindProcess(pf.processes, a.connection.msg.handle).value;
    var entered := Entered(pf, s, p, Add(s.stack, a.connection).value);
    var begun := Logged(entered, InitBegun(p));
    RunKeeps(pf, begun, a.init);
    AgreeThrough(RunStates(pf, begun, a.init), s, begun, s.stack.top);
    assert Last(RunStates(pf, begun, a.init)) in RunStates(pf, begun, a.init);
  }

  lemma {:induction false} BodyKeeps(pf: Platform, s: State, a: Action)
    requires Sound(s) && a.CallService?
    requires FindProcess(pf.processes, a.connection.msg.handle).Some? && Add(s.stack, a.connection).Ok?
    ensures AllSound(BodyStates(pf, s, a), s, s.stack.top)
    ensures Last(BodyStates(pf, s, a)).stack.top == s.stack.top + 1
    ensures Last(BodyStates(pf, s, a)).leased == s.leased
    decreases a, 1
  {
    var p := FindProcess(pf.processes, a.connection.msg.handle).value;
    StartKeeps(pf, s, a);
    var started := Last(StartStates(pf, s, a));
    assert started in StartStates(pf, s, a);
    var calling := Logged(started, Called(p));
    RunKeeps(pf, calling, a.body);
    AgreeThrough(RunStates(pf, calling, a.body), s, calling, s.stack.top);
  }

  lemma {:induction false} CallKeeps(pf: Platform, s: State, a: Action)
    requires Sound(s) && a.CallService?
    requires FindProcess(pf.processes, a.connection.msg.handle).Some? && Add(s.stack, a.connection).Ok?
    ensures AllSound(StepStates(pf, s, a), s, s.stack.top)
    ensures Last(StepStates(pf, s, a)).stack == s.stack
    ensures Last(StepStates(pf, s, a)).leased == s.leased
    decreases a, 2
  {
    StartKeeps(pf, s, a);
    BodyKeeps(pf, s, a);
    var end := Last(BodyStates(pf, s, a));
    assert end in BodyStates(pf, s, a);
    assert Pop(end.stack).slots == s.stack.slots;
    CallSplits(pf, s, a);
  }

  lemma {:induction false} RunKeeps(pf: Platform, s: State, actions: seq<Action>)
    requires Sound(s)
    ensures AllSound(RunStates(pf, s, actions), s, s.stack.top - 1)
    ensures Last(RunStates(pf, s, actions)).stack.top == s.stack.top
    ensures Last(RunStates(pf, s, actions)).leased == s.leased
    decreases actions
  {
    if actions != [] {
      StepKeeps(pf, s, actions[0]);
      var mid := Last(StepStates(pf, s, actions[0]));
      assert mid in StepStates(pf, s, actions[0]);
      RunKeeps(pf, mid, actions[1..]);
    }
  }

  /** A call is refused, with nothing changed, exactly when no process has its handle or four
      connections are open. */
  lemma RefusalIsExact(pf: Platform, s: State, a: Action)
    requires a.CallService?
    ensures StepStates(pf, s, a) == [s] <==>
            FindProcess(pf.processes, a.connection.msg.handle).None? || s.stack.top == MAX_CONNECTIONS
  {
  }

  // ----- What the steps do -----------------------------------------------------------------

  /** A called service runs with its connection as the active one: its initialisation, if that is due and has
      room, and then, if the message can be staged, its body from where the initialisation ended. */
  lemma CalledServiceRuns(pf: Platform, s: State, a: Action, p: nat)
    requires Sound(s) && a.CallService? && FindProcess(pf.processes, a.connection.msg.handle) == Some(p) && s.stack.top < 4
    ensures var v := pf.processes[p].vectors;
            var pushed := Stack(s.stack.slots[s.stack.top := Some(a.connection)], s.stack.top + 1);
            var entered := s.(stack := pushed, initDone := s.initDone + {p}, regions := Applied(pf, p, pushed));
            var due := p !in s.initDone && s.stack.top < 4 && v.stackLimit + 32 <= v.stackTop;
            var init := RunStates(pf, Logged(entered, InitBegun(p)), a.init);
            var started := if due then Logged(Last(init), InitEnded(p)) else entered;
            && Peek(pushed) == Ok(a.connection)
            && (due ==> forall t :: t in init ==> t in StepStates(pf, s, a))
            && (StageMailbox(v).Ok? ==>
                  forall t :: t in RunStates(pf, Logged(started, Called(p)), a.body) ==> t in StepStates(pf, s, a))
  {
    hide Applied, StageMailbox, StepStates, RunStates;
    CallSplits(pf, s, a);
    var start, body := StartStates(pf, s, a), BodyStates(pf, s, a);
    assert forall t :: t in start || t in body ==> t in StepStates(pf, s, a);
  }

  /** A closure leaves the active connection as it makes it, with the lower connections as they were; the
      steps made inside it find the connection leased out. */
  lemma ClosureActsOnActive(pf: Platform, s: State, a: Action)
    requires Sound(s) && a.Closure? && Peek(s.stack).Ok?
    ensures var c, top := Peek(s.stack).value, s.stack.top;
            var out := s.(stack := Stack(s.stack.slots[top - 1 := None], top), leased := s.leased + {top - 1});
            var end := Last(StepStates(pf, s, a));
            && (forall v :: v in RunStates(pf, out, a.inner) ==> v in StepStates(pf, s, a))
            && Peek(end.stack) == Ok(a.after(a.before(c))) && end.leased == s.leased
            && end.regions == Last(RunStates(pf, out, a.inner)).regions
            && SameBelow(end.stack, s.stack, top - 1)
  {
    ClosureKeeps(pf, s, a);
    RunKeeps(pf, Leased(s), a.inner);
    var end := Last(RunStates(pf, Leased(s), a.inner));
    assert end in RunStates(pf, Leased(s), a.inner);
  }

  /** Steps are taken in order, each from where the one before ended. */
  lemma {:induction false} StepsInOrder(pf: Platform, s: State, first: seq<Action>, next: seq<Action>)
    ensures Last(RunStates(pf, s, first + next)) == Last(RunStates(pf, Last(RunStates(pf, s, first)), next))
    decreases |first|
  {
    hide StepStates;
    if first == [] {
      assert first + next == next;
    } else {
      assert (first + next)[1..] == first[1..] + next;
      StepsInOrder(pf, Last(StepStates(pf, s, first[0])), first[1..], next);
    }
  }

  /** A vector call with a handle word that names no service, or with no connection active, changes nothing and
      says so in r0, with r1-r3 cleared; so does one that names another service's connection. */
  lemma VectorCallRefusals(pf: Platform, s: State, f: Frame)
    requires Sound(s)
    ensures var e := if HandleFromWord(f.r0).None? then Some(InvalidHandle)
                     else if s.stack.top == 0 || s.stack.top - 1 in s.leased then Some(CommunicationFailure)
                     else if s.stack.slots[s.stack.top - 1].value.msg.handle != HandleFromWord(f.r0).value then Some(InvalidHandle)
                     else None;
            e.Some? ==>
              && AccessStep(pf, s, f) == (s, Frame(StatusWord(e.value), 0, 0, 0))
              && ReleaseStep(pf, s, f) == (s, Frame(StatusWord(e.value), 0, 0, 0))
  {
    hide HandleFromWord;
    if Peek(s.stack).Ok? {
      assert s.stack.slots[s.stack.top - 1 := Some(Peek(s.stack).value)] == s.stack.slots;
    }
  }

  /** The handle words of the three services, and no other, name a service. */
  lemma HandleWordsAreExact(raw: Word)
    ensures HandleFromWord(raw).Some? <==> exists h :: HandleWord(h) == raw
    ensures forall h :: HandleWord(h) == raw ==> HandleFromWord(raw) == Some(h)
  {
    if HandleFromWord(raw).Some? {
      assert HandleWord(HandleFromWord(raw).value) == raw;
    }
  }

  /** The version answered is the one declared by the first process with the handle, zero without one. */
  lemma VersionIsDeclared(pf: Platform, h: ServiceHandle)
    ensures (forall q :: q in pf.processes ==> q.handle != h) ==> VersionOf(pf, h) == 0
    ensures forall i :: 0 <= i < |pf.processes| && pf.processes[i].handle == h
                        && (forall j :: 0 <= j < i ==> pf.processes[j].handle != h) ==>
                          VersionOf(pf, h) == pf.processes[i].vectors.version
  {
  }

  /** The frame that answers a call: the status is read back from r0; success leaves r1-r3 alone, an error
      clears them. */
  lemma AnswerIsReadBack(f: Frame, r: Result<(), StatusCode>)
    requires r.Err? ==> r.error != Success
    ensures var a := AnswerFrame(f, r);
            && (if r.Ok? then CheckSvcResult(a.r0).Ok? else CheckSvcResult(a.r0) == Err(r.error))
            && (if r.Ok? then a.r1 == f.r1 && a.r2 == f.r2 && a.r3 == f.r3 else a.r1 == 0 && a.r2 == 0 && a.r3 == 0)
  {
    StatusIsReadBack(if r.Err? then r.error else Success);
  }
}
