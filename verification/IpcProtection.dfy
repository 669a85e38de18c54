/** The programmed MPU follows the active connection over every run of the process-isolating SPM, up to
    the closures that lease the connection out; the condition on those is exact. What is programmed
    grants no more than it should. */
module IpcProtection {
  import opened Basics
  import opened Connections
  import opened ConnectionStacks
  import opened Mpus
  import opened Processes
  import opened VectorPaths
  import opened SpmIpcs

  /** The process of the active connection, if it is in its slot and has one. */
  function ActiveProcess(pf: Platform, stack: Stack): (r: Option<nat>)
    ensures r.Some? ==> r.value < |pf.processes|
  {
    match Peek(stack)
    case Err(_) => None
    case Ok(c) => FindProcess(pf.processes, c.msg.handle)
  }

  /** The region registers computed from scratch for the active connection's process and its live
      vectors. */
  function Config(pf: Platform, stack: Stack): seq<RegionConfig> {
    match ActiveProcess(pf, stack)
    case None => []
    case Some(p) => Applied(pf, p, stack)
  }

  /** With a connection open, it is in its slot, belongs to a process, and the region registers are as
      computed for it. */
  ghost predicate MpuFollows(pf: Platform, s: State) {
    s.stack.top > 0 ==>
      Peek(s.stack).Ok? && ActiveProcess(pf, s.stack).Some? && s.regions == Config(pf, s.stack)
  }

  /** The same whenever the active connection is in its slot, that is, not leased out. */
  ghost predicate FollowsActive(pf: Platform, s: State) {
    Peek(s.stack).Ok? ==> ActiveProcess(pf, s.stack).Some? && s.regions == Config(pf, s.stack)
  }

  ghost predicate AllFollow(pf: Platform, states: seq<State>) {
    forall v :: v in states ==> FollowsActive(pf, v)
  }

  // ----- The condition on closures ---------------------------------------------------------

  predicate Accepted(pf: Platform, s: State, a: Action) {
    a.CallService? && FindProcess(pf.processes, a.connection.msg.handle).Some? && Add(s.stack, a.connection).Ok?
  }

  /** What the steps made under a lease leave programmed: the configuration of the last service called,
      for its connection as it was when the service ended; `before` if none was called. */
  function LeftProgrammed(pf: Platform, s: State, actions: seq<Action>, before: seq<RegionConfig>): seq<RegionConfig>
    decreases |actions|
  {
    if actions == [] then before
    else
      var a := actions[0];
      LeftProgrammed(pf, Last(StepStates(pf, s, a)), actions[1..],
                     if Accepted(pf, s, a) then Config(pf, Last(BodyStates(pf, s, a)).stack) else before)
  }

  /** The connection a closure gives back still has a process, whose configuration is what the steps
      inside the closure have left programmed. */
  predicate ClosureRestores(pf: Platform, s: State, a: Action)
    requires a.Closure? && Take(s.stack).Ok?
  {
    var after := WithActive(s.stack, a.after(a.before(Take(s.stack).value.connection)));
    && ActiveProcess(pf, after).Some?
    && Config(pf, after) == LeftProgrammed(pf, Leased(s), a.inner, Config(pf, s.stack))
  }

  /** Every closure that runs, at whatever depth, restores. */
  predicate ClosuresRestore(pf: Platform, s: State, actions: seq<Action>)
    decreases actions
  {
    actions == [] ||
    (StepRestores(pf, s, actions[0])
     && ClosuresRestore(pf, Last(StepStates(pf, s, actions[0])), actions[1..]))
  }

  predicate StepRestores(pf: Platform, s: State, a: Action)
    decreases a
  {
    match a
    case Access(_) => true
    case Release(_) => true
    case Closure(_, inner, _) =>
      Take(s.stack).Ok? ==> ClosuresRestore(pf, Leased(s), inner) && ClosureRestores(pf, s, a)
    case CallService(c, init, body, _) =>
      Accepted(pf, s, a) ==>
        var p := FindProcess(pf.processes, c.msg.handle).value;
        var begun := Logged(Entered(pf, s, p, Add(s.stack, c).value), InitBegun(p));
        && (p !in s.initDone && InitRuns(pf.processes[p].vectors) ==> ClosuresRestore(pf, begun, init))
        && (StageMailbox(pf.processes[p].vectors).Ok? ==>
              ClosuresRestore(pf, Logged(Last(StartStates(pf, s, a)), Called(p)), body))
  }

  // ----- Supervisor calls ------------------------------------------------------------------

  lemma ActiveIsReplaced(s: Stack, c: Connection)
    requires Peek(s).Ok?
    ensures Peek(WithActive(s, c)) == Ok(c) && WithActive(s, Peek(s).value) == s
    ensures forall d :: WithActive(WithActive(s, c), d) == WithActive(s, d)
  {
    assert s.slots[s.top - 1 := Some(Peek(s).value)] == s.slots;
    forall d ensures WithActive(WithActive(s, c), d) == WithActive(s, d) {
      assert s.slots[s.top - 1 := Some(c)][s.top - 1 := Some(d)] == s.slots[s.top - 1 := Some(d)];
    }
  }

  lemma MappingFollows(pf: Platform, s: State, isOut: bool, i: Word, mapped: bool)
    requires Peek(s.stack).Ok? && ActiveProcess(pf, s.stack).Some?
    ensures FollowsActive(pf, MappingUpdated(pf, s, isOut, i, mapped))
  {
    hide Applied;
    ActiveIsReplaced(s.stack, Remapped(Peek(s.stack).value, isOut, i, mapped));
  }

  /** A failed supervisor call changes nothing; a successful one reprograms the MPU. */
  lemma AccessFollows(pf: Platform, s: State, f: Frame)
    requires FollowsActive(pf, s)
    ensures FollowsActive(pf, AccessStep(pf, s, f).0)
  {
    hide MappingUpdated, Applied, HandleFromWord;
    if HandleFromWord(f.r0).Some? && Peek(s.stack).Ok? {
      var c, h := Peek(s.stack).value, HandleFromWord(f.r0).value;
      var (c', r) := PrepareRaw(c, h, f.r2 != 0, f.r1);
      ActiveIsReplaced(s.stack, c');
      assert r.Err? ==> c' == c;
      if r.Ok? {
        assert c'.msg == c.msg;
        MappingFollows(pf, s.(stack := WithActive(s.stack, c')), f.r2 != 0, f.r1, true);
      }
    }
  }

  lemma ReleaseFollows(pf: Platform, s: State, f: Frame)
    requires FollowsActive(pf, s)
    ensures FollowsActive(pf, ReleaseStep(pf, s, f).0)
  {
    hide MappingUpdated, Applied, HandleFromWord;
    if HandleFromWord(f.r0).Some? && Peek(s.stack).Ok? {
      var c, h := Peek(s.stack).value, HandleFromWord(f.r0).value;
      var (c', r) := FinishRaw(c, h, f.r2 != 0, f.r1, f.r3);
      ActiveIsReplaced(s.stack, c');
      assert r.Err? ==> c' == c;
      if r.Ok? {
        assert c'.msg.handle == c.msg.handle;
        MappingFollows(pf, s.(stack := WithActive(s.stack, c')), f.r2 != 0, f.r1, false);
      }
    }
  }

  // ----- Calls -----------------------------------------------------------------------------

  lemma EntryFollows(pf: Platform, s: State, p: nat, c: Connection)
    requires Add(s.stack, c).Ok? && FindProcess(pf.processes, c.msg.handle) == Some(p)
    ensures FollowsActive(pf, Entered(pf, s, p, Add(s.stack, c).value))
  {
    hide Applied;
  }

  lemma EventsDoNotMatter(pf: Platform, s: State, e: Event)
    ensures FollowsActive(pf, Logged(s, e)) <==> FollowsActive(pf, s)
  {
  }

  /** Leaving a service reprograms the MPU for the caller if the caller's connection is in its slot;
      otherwise what the service had programmed stays. */
  lemma ExitFollows(pf: Platform, s: State, caller: State)
    requires Pop(s.stack) == caller.stack && FollowsActive(pf, caller)
    ensures FollowsActive(pf, Exited(pf, s))
    ensures Exited(pf, s).regions == if Peek(caller.stack).Ok? then caller.regions else s.regions
  {
    hide Applied;
  }

  lemma {:induction false} StartFollows(pf: Platform, s: State, a: Action)
    requires Sound(s) && Accepted(pf, s, a)
    ensures var p := FindProcess(pf.processes, a.connection.msg.handle).value;
            var begun := Logged(Entered(pf, s, p, Add(s.stack, a.connection).value), InitBegun(p));
            AllFollow(pf, StartStates(pf, s, a)) <==>
            (p !in s.initDone && InitRuns(pf.processes[p].vectors) ==> ClosuresRestore(pf, begun, a.init))
    decreases a, 0
  {
    hide FollowsActive, Applied;
    var p := FindProcess(pf.processes, a.connection.msg.handle).value;
    EntryFollows(pf, s, p, a.connection);
    if p !in s.initDone && InitRuns(pf.processes[p].vectors) {
      var begun := Logged(Entered(pf, s, p, Add(s.stack, a.connection).value), InitBegun(p));
      EventsDoNotMatter(pf, Entered(pf, s, p, Add(s.stack, a.connection).value), InitBegun(p));
      assert Sound(begun);
      RunFollowsExactly(pf, begun, a.init);
      var run := RunStates(pf, begun, a.init);
      assert Last(run) in run;
      EventsDoNotMatter(pf, Last(run), InitEnded(p));
      assert forall v :: v in run ==> v in WithInitEnded(run, p);
    }
  }

  lemma {:induction false} BodyFollows(pf: Platform, s: State, a: Action)
    requires Sound(s) && Accepted(pf, s, a) && AllFollow(pf, StartStates(pf, s, a))
    ensures var p := FindProcess(pf.processes, a.connection.msg.handle).value;
            AllFollow(pf, BodyStates(pf, s, a)) <==>
            (StageMailbox(pf.processes[p].vectors).Ok? ==>
               ClosuresRestore(pf, Logged(Last(StartStates(pf, s, a)), Called(p)), a.body))
    decreases a, 1
  {
    hide FollowsActive, Applied, StartStates;
    var p := FindProcess(pf.processes, a.connection.msg.handle).value;
    StartKeeps(pf, s, a);
    var started := Last(StartStates(pf, s, a));
    assert started in StartStates(pf, s, a);
    if StageMailbox(pf.processes[p].vectors).Ok? {
      EventsDoNotMatter(pf, started, Called(p));
      RunFollowsExactly(pf, Logged(started, Called(p)), a.body);
    }
  }

  lemma {:induction false} CallFollows(pf: Platform, s: State, a: Action)
    requires Sound(s) && FollowsActive(pf, s) && Accepted(pf, s, a)
    ensures AllFollow(pf, StepStates(pf, s, a)) <==> StepRestores(pf, s, a)
    ensures var end := Last(StepStates(pf, s, a));
            end.regions == if Peek(s.stack).Ok? then s.regions else Last(BodyStates(pf, s, a)).regions
    decreases a, 2
  {
    hide FollowsActive, Applied, StartStates, BodyStates, StepStates;
    CallSplits(pf, s, a);
    StepKeeps(pf, s, a);
    StartFollows(pf, s, a);
    var last := Last(BodyStates(pf, s, a));
    assert Pop(last.stack) == Exited(pf, last).stack;
    ExitFollows(pf, last, s);
    if AllFollow(pf, StartStates(pf, s, a)) {
      BodyFollows(pf, s, a);
    }
    Parts(pf, s, StartStates(pf, s, a), BodyStates(pf, s, a), Exited(pf, last));
  }

  lemma Parts(pf: Platform, s: State, start: seq<State>, body: seq<State>, end: State)
    requires FollowsActive(pf, s) && FollowsActive(pf, end)
    ensures AllFollow(pf, [s] + start + body + [end]) <==> AllFollow(pf, start) && AllFollow(pf, body)
  {
    hide FollowsActive;
    var all := [s] + start + body + [end];
    forall v ensures v in all <==> v == s || v in start || v in body || v == end {
    }
  }

  // ----- Closures --------------------------------------------------------------------------

  /** Steps under a lease end with the stack they found and, as long as the services called keep the
      MPU following, with the registers that the last of them left. */
  lemma {:induction false} UnderLease(pf: Platform, s: State, actions: seq<Action>)
    requires Sound(s) && s.stack.top > 0 && s.stack.slots[s.stack.top - 1].None?
    requires AllFollow(pf, RunStates(pf, s, actions))
    ensures var end := Last(RunStates(pf, s, actions));
            && end.stack == s.stack
            && end.regions == LeftProgrammed(pf, s, actions, s.regions)
    decreases actions
  {
    hide FollowsActive, Applied, StartStates, BodyStates, Config;
    if actions != [] {
      var a := actions[0];
      var mid := Last(StepStates(pf, s, a));
      assert forall v :: v in StepStates(pf, s, a) ==> v in RunStates(pf, s, actions);
      StepUnderLease(pf, s, a);
      StepKeeps(pf, s, a);
      assert mid in StepStates(pf, s, a);
      assert forall v :: v in RunStates(pf, mid, actions[1..]) ==> v in RunStates(pf, s, actions);
      UnderLease(pf, mid, actions[1..]);
    }
  }

  lemma {:induction false} StepUnderLease(pf: Platform, s: State, a: Action)
    requires Sound(s) && s.stack.top > 0 && s.stack.slots[s.stack.top - 1].None?
    requires AllFollow(pf, StepStates(pf, s, a))
    ensures var end := Last(StepStates(pf, s, a));
            && end.stack == s.stack
            && end.regions == if Accepted(pf, s, a) then Config(pf, Last(BodyStates(pf, s, a)).stack) else s.regions
    decreases a, 3
  {
    hide Applied;
    assert Peek(s.stack).Err? && Take(s.stack).Err?;
    if Accepted(pf, s, a) {
      hide FollowsActive, StartStates, BodyStates, Config;
      StepKeeps(pf, s, a);
      BodyKeeps(pf, s, a);
      CallSplits(pf, s, a);
      NoActiveFollows(pf, s);
      CallFollows(pf, s, a);
      var last := Last(BodyStates(pf, s, a));
      assert last in BodyStates(pf, s, a) && last in StepStates(pf, s, a);
      LastFollows(pf, last);
    }
  }

  lemma NoActiveFollows(pf: Platform, s: State)
    requires Peek(s.stack).Err?
    ensures FollowsActive(pf, s)
  {
  }

  lemma LastFollows(pf: Platform, s: State)
    requires Sound(s) && FollowsActive(pf, s) && s.stack.top > 0 && s.stack.top - 1 !in s.leased
    ensures s.regions == Config(pf, s.stack)
  {
  }

  lemma {:induction false} ClosureFollows(pf: Platform, s: State, a: Action)
    requires Sound(s) && FollowsActive(pf, s) && a.Closure? && Take(s.stack).Ok?
    ensures AllFollow(pf, StepStates(pf, s, a)) <==> StepRestores(pf, s, a)
    decreases a, 2
  {
    hide FollowsActive, Applied;
    var out := Leased(s);
    assert Sound(out) && Peek(out.stack).Err?;
    NoActiveFollows(pf, out);
    RunFollowsExactly(pf, out, a.inner);
    var run := RunStates(pf, out, a.inner);
    if AllFollow(pf, run) {
      UnderLease(pf, out, a.inner);
      ReturnFollows(pf, s, Last(run), a);
    }
    assert forall v :: v in run ==> v in StepStates(pf, s, a);
  }

  /** The state after a closure: the new connection in its slot, the registers as they were left. */
  lemma ReturnFollows(pf: Platform, s: State, done: State, a: Action)
    requires Sound(s) && FollowsActive(pf, s) && a.Closure? && Take(s.stack).Ok? && done.stack == Leased(s).stack
    requires done.regions == LeftProgrammed(pf, Leased(s), a.inner, s.regions)
    ensures var l := Take(s.stack).value;
            var end := Returned(done, l.index, a.after(a.before(l.connection)));
            && end.stack == WithActive(s.stack, a.after(a.before(l.connection))) && end.regions == done.regions
            && (FollowsActive(pf, end) <==> ClosureRestores(pf, s, a))
  {
    hide Applied, LeftProgrammed;
    var l := Take(s.stack).value;
    TakeThenRestore(s.stack, a.after(a.before(l.connection)));
    ActiveIsReplaced(s.stack, a.after(a.before(l.connection)));
  }

  // ----- Every run -------------------------------------------------------------------------

  lemma {:induction false} StepFollowsExactly(pf: Platform, s: State, a: Action)
    requires Sound(s) && FollowsActive(pf, s)
    ensures AllFollow(pf, StepStates(pf, s, a)) <==> StepRestores(pf, s, a)
    decreases a, 3
  {
    hide FollowsActive, Applied;
    match a
    case Access(f) => AccessFollows(pf, s, f);
    case Release(f) => ReleaseFollows(pf, s, f);
    case Closure(_, _, _) =>
      if Take(s.stack).Ok? {
        ClosureFollows(pf, s, a);
      }
    case CallService(_, _, _, _) =>
      if Accepted(pf, s, a) {
        CallFollows(pf, s, a);
      }
  }

  /** In every state of a run, nested calls, failed steps and returns included, the MPU follows the
      active connection whenever that is in its slot, if and only if every closure of the run
      restores. */
  lemma {:induction false} RunFollowsExactly(pf: Platform, s: State, actions: seq<Action>)
    requires Sound(s) && FollowsActive(pf, s)
    ensures AllFollow(pf, RunStates(pf, s, actions)) <==> ClosuresRestore(pf, s, actions)
    decreases actions
  {
    hide FollowsActive, Applied, StepRestores;
    if actions != [] {
      var first := StepStates(pf, s, actions[0]);
      var mid := Last(first);
      StepFollowsExactly(pf, s, actions[0]);
      assert mid in first;
      assert forall v :: v in first ==> v in RunStates(pf, s, actions);
      if AllFollow(pf, first) {
        StepKeeps(pf, s, actions[0]);
        RunFollowsExactly(pf, mid, actions[1..]);
        assert forall v :: v in RunStates(pf, mid, actions[1..]) ==> v in RunStates(pf, s, actions);
      }
    }
  }

  // ----- Services that use supervisor calls ------------------------------------------------

  /** No step of these calls a service that can be called. */
  predicate NoneAccepted(pf: Platform, s: State, actions: seq<Action>)
    decreases |actions|
  {
    actions == [] ||
    (!Accepted(pf, s, actions[0]) && NoneAccepted(pf, Last(StepStates(pf, s, actions[0])), actions[1..]))
  }

  lemma {:induction false} NothingLeft(pf: Platform, s: State, actions: seq<Action>, before: seq<RegionConfig>)
    requires NoneAccepted(pf, s, actions)
    ensures LeftProgrammed(pf, s, actions, before) == before
    decreases |actions|
  {
    if actions != [] {
      NothingLeft(pf, Last(StepStates(pf, s, actions[0])), actions[1..], before);
    }
  }

  /** The configuration depends on the active connection through its handle and its live vectors. */
  lemma ConfigSeesLiveVectors(pf: Platform, s: Stack, c: Connection)
    requires Peek(s).Ok? && c.msg.handle == Peek(s).value.msg.handle
    requires VectorRequests(Some(c)) == VectorRequests(Some(Peek(s).value))
    ensures ActiveProcess(pf, WithActive(s, c)) == ActiveProcess(pf, s)
    ensures Config(pf, WithActive(s, c)) == Config(pf, s)
  {
    hide AllocateAll, FixedRequests, VectorRequests;
    ActiveIsReplaced(s, c);
  }

  /** A closure that makes no accepted call restores exactly when the connection it gives back has a
      process and the configuration of the one it was lent. */
  lemma QuietClosure(pf: Platform, s: State, a: Action)
    requires a.Closure? && Take(s.stack).Ok? && NoneAccepted(pf, Leased(s), a.inner)
    ensures var after := WithActive(s.stack, a.after(a.before(Take(s.stack).value.connection)));
            ClosureRestores(pf, s, a) <==> ActiveProcess(pf, after).Some? && Config(pf, after) == Config(pf, s.stack)
  {
    NothingLeft(pf, Leased(s), a.inner, Config(pf, s.stack));
  }

  /** Services reach their vectors by supervisor calls, or by closures that call no service and leave
      handle and live vectors as they were, at every depth. */
  ghost predicate QuietOnly(actions: seq<Action>) {
    forall a :: a in actions ==> QuietStep(a)
  }

  ghost predicate QuietStep(a: Action) {
    match a
    case Access(_) => true
    case Release(_) => true
    case Closure(before, inner, after) =>
      && (forall x :: x in inner ==> !x.CallService?)
      && (forall c: Connection ::
            && after(before(c)).msg.handle == c.msg.handle
            && VectorRequests(Some(after(before(c)))) == VectorRequests(Some(c)))
    case CallService(_, init, body, _) => QuietOnly(init) && QuietOnly(body)
  }

  /** Supervisor calls only, at every depth. */
  ghost predicate SvcOnly(actions: seq<Action>) {
    forall a :: a in actions ==> SvcStep(a)
  }

  ghost predicate SvcStep(a: Action) {
    match a
    case Access(_) => true
    case Release(_) => true
    case Closure(_, _, _) => false
    case CallService(_, init, body, _) => SvcOnly(init) && SvcOnly(body)
  }

  lemma {:induction false} SvcIsQuiet(actions: seq<Action>)
    requires SvcOnly(actions)
    ensures QuietOnly(actions)
    decreases actions
  {
    forall a | a in actions ensures QuietStep(a) {
      assert SvcStep(a);
      if a.CallService? {
        SvcIsQuiet(a.init);
        SvcIsQuiet(a.body);
      }
    }
  }

  /** Without an active connection only calls do anything. */
  lemma IdleUnderLease(pf: Platform, s: State, a: Action)
    requires Peek(s.stack).Err? && !a.CallService?
    ensures Last(StepStates(pf, s, a)) == s && StepRestores(pf, s, a) && !Accepted(pf, s, a)
  {
  }

  lemma {:induction false} IdleRun(pf: Platform, s: State, actions: seq<Action>)
    requires Peek(s.stack).Err? && forall x :: x in actions ==> !x.CallService?
    ensures ClosuresRestore(pf, s, actions) && NoneAccepted(pf, s, actions)
    decreases |actions|
  {
    hide StepRestores, StepStates;
    if actions != [] {
      IdleUnderLease(pf, s, actions[0]);
      IdleRun(pf, s, actions[1..]);
    }
  }

  lemma {:induction false} QuietStepRestores(pf: Platform, s: State, a: Action)
    requires Sound(s) && FollowsActive(pf, s) && QuietStep(a)
    ensures StepRestores(pf, s, a)
    decreases a, 1
  {
    hide Applied, VectorRequests;
    if a.Closure? && Take(s.stack).Ok? {
      var c := Take(s.stack).value.connection;
      var after := a.after(a.before(c));
      assert after.msg.handle == c.msg.handle && VectorRequests(Some(after)) == VectorRequests(Some(c));
      IdleRun(pf, Leased(s), a.inner);
      ConfigSeesLiveVectors(pf, s.stack, after);
      QuietClosure(pf, s, a);
    } else if Accepted(pf, s, a) {
      QuietCallRestores(pf, s, a);
    }
  }

  lemma {:induction false} QuietCallRestores(pf: Platform, s: State, a: Action)
    requires Sound(s) && FollowsActive(pf, s) && QuietStep(a) && Accepted(pf, s, a)
    ensures StepRestores(pf, s, a)
    decreases a, 0
  {
    hide Applied, FollowsActive;
    var p := FindProcess(pf.processes, a.connection.msg.handle).value;
    var entered := Entered(pf, s, p, Add(s.stack, a.connection).value);
    EntryFollows(pf, s, p, a.connection);
    if p !in s.initDone && InitRuns(pf.processes[p].vectors) {
      EventsDoNotMatter(pf, entered, InitBegun(p));
      QuietRestores(pf, Logged(entered, InitBegun(p)), a.init);
    }
    StartFollows(pf, s, a);
    StartKeeps(pf, s, a);
    var started := Last(StartStates(pf, s, a));
    assert started in StartStates(pf, s, a);
    if StageMailbox(pf.processes[p].vectors).Ok? {
      EventsDoNotMatter(pf, started, Called(p));
      QuietRestores(pf, Logged(started, Called(p)), a.body);
    }
  }

  lemma {:induction false} QuietRestores(pf: Platform, s: State, actions: seq<Action>)
    requires Sound(s) && FollowsActive(pf, s) && QuietOnly(actions)
    ensures ClosuresRestore(pf, s, actions)
    decreases actions
  {
    hide FollowsActive, StepRestores, StepStates, QuietStep;
    if actions != [] {
      var mid := Last(StepStates(pf, s, actions[0]));
      QuietStepRestores(pf, s, actions[0]);
      StepFollowsExactly(pf, s, actions[0]);
      StepKeeps(pf, s, actions[0]);
      assert mid in StepStates(pf, s, actions[0]);
      QuietRestores(pf, mid, actions[1..]);
    }
  }

  lemma {:induction false} StepLeasesNothing(pf: Platform, s: State, a: Action)
    requires Sound(s) && s.leased == {} && SvcStep(a)
    ensures forall v :: v in StepStates(pf, s, a) ==> v.leased == {}
    decreases a, 1
  {
    if a.Access? {
      AccessTouchesActiveOnly(pf, s, a.frame);
    } else if a.Release? {
      ReleaseTouchesActiveOnly(pf, s, a.frame);
    } else if Accepted(pf, s, a) {
      CallLeasesNothing(pf, s, a);
    }
  }

  lemma {:induction false} CallLeasesNothing(pf: Platform, s: State, a: Action)
    requires Sound(s) && s.leased == {} && SvcStep(a) && Accepted(pf, s, a)
    ensures forall v :: v in StepStates(pf, s, a) ==> v.leased == {}
    decreases a, 0
  {
    hide Applied;
    var p := FindProcess(pf.processes, a.connection.msg.handle).value;
    var entered := Entered(pf, s, p, Add(s.stack, a.connection).value);
    RunLeasesNothing(pf, Logged(entered, InitBegun(p)), a.init);
    StartKeeps(pf, s, a);
    var started := Last(StartStates(pf, s, a));
    assert started in StartStates(pf, s, a);
    RunLeasesNothing(pf, Logged(started, Called(p)), a.body);
    CallSplits(pf, s, a);
  }

  lemma {:induction false} RunLeasesNothing(pf: Platform, s: State, actions: seq<Action>)
    requires Sound(s) && s.leased == {} && SvcOnly(actions)
    ensures forall v :: v in RunStates(pf, s, actions) ==> v.leased == {}
    decreases actions
  {
    hide StepStates, SvcStep;
    if actions != [] {
      StepLeasesNothing(pf, s, actions[0]);
      StepKeeps(pf, s, actions[0]);
      var mid := Last(StepStates(pf, s, actions[0]));
      assert mid in StepStates(pf, s, actions[0]);
      RunLeasesNothing(pf, mid, actions[1..]);
    }
  }

  /** Over every run of services that use supervisor calls, or closures that call nothing and leave the
      live vectors alone, the MPU follows the active connection in every state in which it is in its
      slot. */
  lemma QuietRunFollows(pf: Platform, s: State, actions: seq<Action>)
    requires Sound(s) && FollowsActive(pf, s) && QuietOnly(actions)
    ensures AllFollow(pf, RunStates(pf, s, actions))
  {
    QuietRestores(pf, s, actions);
    RunFollowsExactly(pf, s, actions);
  }

  /** With supervisor calls only, the active connection is always in its slot: after every step of every
      such run, nested calls and their returns included, the MPU follows the top of the stack. */
  lemma RunFollows(pf: Platform, s: State, actions: seq<Action>)
    requires Sound(s) && s.leased == {} && MpuFollows(pf, s) && SvcOnly(actions)
    ensures forall v :: v in RunStates(pf, s, actions) ==> Sound(v) && v.leased == {} && MpuFollows(pf, v)
  {
    hide Applied;
    SvcIsQuiet(actions);
    QuietRunFollows(pf, s, actions);
    RunLeasesNothing(pf, s, actions);
    RunKeeps(pf, s, actions);
  }

  lemma EveryRunFollows(pf: Platform, regions: seq<RegionConfig>, actions: seq<Action>)
    requires SvcOnly(actions)
    ensures forall v :: v in RunStates(pf, Start(regions), actions) ==> MpuFollows(pf, v)
  {
    RunFollows(pf, Start(regions), actions);
  }

  // ----- Single steps ----------------------------------------------------------------------

  /** A call gives its caller's registers back exactly as they were if the caller's connection is in
      its slot; otherwise the configuration of the service called stays, for its connection as it was
      when the service ended. */
  lemma CallLeavesMpu(pf: Platform, s: State, a: Action)
    requires Sound(s) && FollowsActive(pf, s) && Accepted(pf, s, a) && StepRestores(pf, s, a)
    ensures Last(StepStates(pf, s, a)).stack == s.stack
    ensures Last(StepStates(pf, s, a)).regions ==
            if Peek(s.stack).Ok? then s.regions else Config(pf, Last(BodyStates(pf, s, a)).stack)
  {
    hide FollowsActive, StepStates, BodyStates, StartStates, Config;
    StepKeeps(pf, s, a);
    CallFollows(pf, s, a);
    BodyKeeps(pf, s, a);
    CallSplits(pf, s, a);
    var last := Last(BodyStates(pf, s, a));
    assert last in BodyStates(pf, s, a) && last in StepStates(pf, s, a);
    if Peek(s.stack).Err? {
      TopIsFree(s, last);
      LastFollows(pf, last);
    }
  }

  lemma TopIsFree(s: State, last: State)
    requires Sound(s) && last.leased == s.leased && last.stack.top == s.stack.top + 1
    ensures last.stack.top - 1 !in last.leased
  {
  }

  /** A closure around services that keep the MPU following: the connection it gives back is in its
      slot, the registers are those of the last service called inside, or the old ones, and the MPU
      follows again if and only if these are the registers computed for that connection. */
  lemma ClosureFollowsExactly(pf: Platform, s: State, a: Action)
    requires Sound(s) && FollowsActive(pf, s) && a.Closure? && Take(s.stack).Ok?
    requires ClosuresRestore(pf, Leased(s), a.inner)
    ensures var after := WithActive(s.stack, a.after(a.before(Take(s.stack).value.connection)));
            var end, left := Last(StepStates(pf, s, a)), LeftProgrammed(pf, Leased(s), a.inner, Config(pf, s.stack));
            && end.stack == after && end.regions == left
            && (FollowsActive(pf, end) <==> ActiveProcess(pf, after).Some? && Config(pf, after) == left)
  {
    var out := Leased(s);
    NoActiveFollows(pf, out);
    assert Sound(out);
    RunFollowsExactly(pf, out, a.inner);
    UnderLease(pf, out, a.inner);
    ReturnFollows(pf, s, Last(RunStates(pf, out, a.inner)), a);
    hide Applied, LeftProgrammed, RunStates;
  }

  /** Two configurations are equal exactly when the same ranges are granted. */
  lemma ConfigsEqualExactly(pf: Platform, p: nat, q: nat, a: Stack, b: Stack)
    requires p < |pf.processes| && q < |pf.processes| && NoWrap(pf, p, a) && NoWrap(pf, q, b)
    ensures Applied(pf, p, a) == Applied(pf, q, b) <==>
            Granted(Requests(pf, p, a), MPU_REGIONS) == Granted(Requests(pf, q, b), MPU_REGIONS)
  {
    hide Requests, AllocateAll, Granted;
    forall r | r in Requests(pf, p, a) + Requests(pf, q, b) ensures InRange(r) {
      if r in Requests(pf, p, a) {
        RequestIsEntitled(pf, p, a, r);
      } else {
        RequestIsEntitled(pf, q, b, r);
      }
    }
    RegistersTellGrants(Requests(pf, p, a), Requests(pf, q, b), MPU_REGIONS);
  }

  // ----- Two ways to stop following --------------------------------------------------------

  /** A call made inside an access leaves the configuration of the service called: the MPU follows again
      exactly if the same ranges are granted to both. */
  lemma CallInsideAccessLeavesCallee(pf: Platform, s: State, a: Action, call: Action)
    requires Sound(s) && FollowsActive(pf, s) && a.Closure? && a.inner == [call] && Take(s.stack).Ok?
    requires Accepted(pf, Leased(s), call) && QuietStep(call)
    ensures var after := WithActive(s.stack, a.after(a.before(Take(s.stack).value.connection)));
            var end, left := Last(StepStates(pf, s, a)), Config(pf, Last(BodyStates(pf, Leased(s), call)).stack);
            && end.stack == after && end.regions == left
            && (FollowsActive(pf, end) <==> ActiveProcess(pf, after).Some? && Config(pf, after) == left)
  {
    hide Applied, Config, FollowsActive, BodyStates, QuietStep;
    var out := Leased(s);
    NoActiveFollows(pf, out);
    assert Sound(out);
    assert [call][1..] == [];
    QuietRestores(pf, out, a.inner);
    ClosureFollowsExactly(pf, s, a);
  }

  lemma NoLiveVectors(c: Connection, n: nat)
    requires Untouched(c) && n <= PSA_MAX_IOVEC
    ensures InRequests(c, n) == [] && OutRequests(c, n) == []
  {
  }

  lemma OnlyThatOutput(c: Connection, o: nat, i: nat)
    requires Untouched(c) && o < PSA_MAX_IOVEC && i < PSA_MAX_IOVEC && OutLen(c, o) > 0 && c.msg.outSize[o].IsSome()
    ensures var d := OutMapped(c, o, true);
            && d.outvecBase == c.outvecBase && OutLen(d, i) == OutLen(c, i)
            && !LiveIn(d, i) && (LiveOut(d, i) <==> i == o)
  {
  }

  lemma {:induction false} NoLiveInputs(d: Connection, n: nat)
    requires n <= PSA_MAX_IOVEC && forall i :: 0 <= i < n ==> !LiveIn(d, i)
    ensures InRequests(d, n) == []
  {
    hide LiveIn, VecRequest;
    if n > 0 {
      NoLiveInputs(d, n - 1);
    }
  }

  lemma {:induction false} OneOutputRequest(d: Connection, o: nat, n: nat)
    requires o < PSA_MAX_IOVEC && n <= PSA_MAX_IOVEC && forall i :: 0 <= i < n ==> (LiveOut(d, i) <==> i == o)
    ensures OutRequests(d, n) == if o < n then [VecRequest(d.outvecBase[o], OutLen(d, o), ReadWriteXN)] else []
  {
    hide LiveOut, VecRequest;
    if n > 0 {
      OneOutputRequest(d, o, n - 1);
    }
  }

  lemma OneLiveOutput(c: Connection, o: nat, n: nat)
    requires Untouched(c) && o < PSA_MAX_IOVEC && n <= PSA_MAX_IOVEC && OutLen(c, o) > 0 && c.msg.outSize[o].IsSome()
    ensures var d := OutMapped(c, o, true);
            && InRequests(d, n) == []
            && OutRequests(d, n) == if o < n then [VecRequest(c.outvecBase[o], OutLen(c, o), ReadWriteXN)] else []
  {
    hide Untouched, OutMapped, LiveIn, LiveOut, VecRequest, InRequests, OutRequests;
    var d := OutMapped(c, o, true);
    forall i | 0 <= i < n ensures !LiveIn(d, i) && (LiveOut(d, i) <==> i == o) {
      OnlyThatOutput(c, o, i);
    }
    OnlyThatOutput(c, o, o);
    NoLiveInputs(d, n);
    OneOutputRequest(d, o, n);
  }

  /** A direct write that reports more than it was lent leaves its output mapped and not released, with
      the MPU as it was: the vector is live, but unless its region would have been refused anyway, the
      MPU no longer follows. */
  lemma OverlongWriteStopsFollowing(pf: Platform, s: State, a: Action, c: Connection, p: nat, o: Word, f: VectorPaths.Closure)
    requires Sound(s) && FollowsActive(pf, s) && Peek(s.stack) == Ok(c) && FindProcess(pf.processes, c.msg.handle) == Some(p)
    requires a.Closure? && a.inner == [] && a.after(a.before(c)) == DirectAccess(c, c.msg.handle, WriteOut(o), f).0
    requires Untouched(c) && c.msg.msgType >= 0 && o < PSA_MAX_IOVEC && c.msg.outSize[o].IsSome() && OutLen(c, o) > 0
    requires f(EMPTY_SLICE, OutSlice(c, o)).1 > OutLen(c, o)
    requires VectorInRange(c.outvecBase[o], OutLen(c, o)) && forall r :: r in FixedRequests(pf, p) ==> InRange(r)
    ensures var end := Last(StepStates(pf, s, a));
            var r := VecRequest(c.outvecBase[o], OutLen(c, o), ReadWriteXN);
            && !LiveOut(c, o) && Peek(end.stack).Ok? && LiveOut(Peek(end.stack).value, o)
            && end.regions == s.regions
            && (FollowsActive(pf, end) <==>
                !Admissible(r, Granted(FixedRequests(pf, p), MPU_REGIONS), MPU_REGIONS))
  {
    var d := OutMapped(c, o, true);
    OverlongWriteLeavesMapped(c, o, f);
    hide DirectAccess, Applied, FixedRequests, Granted, Admissible, VecRequest, StepStates;
    assert LeftProgrammed(pf, Leased(s), a.inner, Config(pf, s.stack)) == Config(pf, s.stack);
    ClosureFollowsExactly(pf, s, a);
    hide LeftProgrammed;
    ActiveIsReplaced(s.stack, d);
    MoreGranted(pf, s.stack, c, p, o);
  }

  lemma OverlongWriteLeavesMapped(c: Connection, o: Word, f: VectorPaths.Closure)
    requires Untouched(c) && c.msg.msgType >= 0 && o < PSA_MAX_IOVEC && c.msg.outSize[o].IsSome() && OutLen(c, o) > 0
    requires f(EMPTY_SLICE, OutSlice(c, o)).1 > OutLen(c, o)
    ensures DirectAccess(c, c.msg.handle, WriteOut(o), f).0 == OutMapped(c, o, true)
    ensures !LiveOut(c, o) && LiveOut(OutMapped(c, o, true), o)
  {
  }

  /** Mapping one output of an untouched connection changes its configuration exactly when the region
      for it would be granted. */
  lemma MoreGranted(pf: Platform, stack: Stack, c: Connection, p: nat, o: nat)
    requires Peek(stack) == Ok(c) && FindProcess(pf.processes, c.msg.handle) == Some(p)
    requires Untouched(c) && o < PSA_MAX_IOVEC && c.msg.outSize[o].IsSome() && OutLen(c, o) > 0
    requires VectorInRange(c.outvecBase[o], OutLen(c, o)) && forall r :: r in FixedRequests(pf, p) ==> InRange(r)
    ensures var r := VecRequest(c.outvecBase[o], OutLen(c, o), ReadWriteXN);
            Applied(pf, p, WithActive(stack, OutMapped(c, o, true))) == Applied(pf, p, stack) <==>
            !Admissible(r, Granted(FixedRequests(pf, p), MPU_REGIONS), MPU_REGIONS)
  {
    hide AllocateAll, FixedRequests, Granted, Admissible, Programmed, InRequests, OutRequests;
    var d := OutMapped(c, o, true);
    ActiveIsReplaced(stack, d);
    NoLiveVectors(c, PSA_MAX_IOVEC);
    OneLiveOutput(c, o, PSA_MAX_IOVEC);
    var r, fixed := VecRequest(c.outvecBase[o], OutLen(c, o), ReadWriteXN), FixedRequests(pf, p);
    assert Requests(pf, p, stack) == fixed;
    assert Requests(pf, p, WithActive(stack, d)) == fixed + [r];
    WideningIsExact(c.outvecBase[o], OutLen(c, o), ReadWriteXN, 0);
    RegistersTellGrants(fixed + [r], fixed, MPU_REGIONS);
    GrantedSnoc(fixed, r, MPU_REGIONS);
  }

  lemma GrantedSnoc(rs: seq<RegionRequest>, r: RegionRequest, n: nat)
    ensures Granted(rs + [r], n) == Granted(rs, n) <==> !Admissible(r, Granted(rs, n), n)
  {
    assert (rs + [r])[..|rs|] == rs;
  }

  /** The two configurations differ as soon as the two processes have different, usable ROM. */
  lemma DifferentRomDiffers(pf: Platform, p: nat, q: nat, a: Stack, b: Stack)
    requires p < |pf.processes| && q < |pf.processes|
    requires WellFormed(RomRequest(pf.processes[p].vectors)) && WellFormed(RomRequest(pf.processes[q].vectors))
    requires pf.processes[p].vectors.romStart != pf.processes[q].vectors.romStart
    requires forall r :: r in Requests(pf, p, a) + Requests(pf, q, b) ==> InRange(r)
    ensures Applied(pf, p, a) != Applied(pf, q, b)
  {
    FirstRegionIsRom(pf, p, a);
    FirstRegionIsRom(pf, q, b);
    PackDecodes(RomRequest(pf.processes[p].vectors));
    PackDecodes(RomRequest(pf.processes[q].vectors));
  }

  lemma FirstRegionIsRom(pf: Platform, p: nat, stack: Stack)
    requires p < |pf.processes| && WellFormed(RomRequest(pf.processes[p].vectors))
    requires forall r :: r in Requests(pf, p, stack) ==> InRange(r)
    ensures Applied(pf, p, stack)[0] == Pack(RomRequest(pf.processes[p].vectors))
  {
    var rs := Requests(pf, p, stack);
    AllocationIsGreedy(rs, MPU_REGIONS);
    FirstIsGranted(rs, MPU_REGIONS);
  }

  lemma {:induction false} FirstIsGranted(rs: seq<RegionRequest>, n: nat)
    requires rs != [] && WellFormed(rs[0]) && n > 0
    ensures Granted(rs, n) != [] && Granted(rs, n)[0] == rs[0]
  {
    if |rs| > 1 {
      FirstIsGranted(rs[..|rs| - 1], n);
    } else {
      assert Granted(rs[..0], n) == [];
    }
  }

  // ----- What is granted -------------------------------------------------------------------

  /** Widening a vector to 32-byte blocks does not leave the address space. */
  predicate VectorInRange(base: Word, size: Word) {
    base + size + 31 <= USIZE_MAX
  }

  /** The address lies in a 32-byte block that the vector touches. */
  predicate InBlocksOf(base: Word, size: Word, address: int) {
    Floor32(base) <= address < Floor32(base + size + 31)
  }

  lemma WideningIsExact(base: Word, size: Word, perm: Permissions, address: int)
    requires size > 0 && VectorInRange(base, size)
    ensures WellFormed(VecRequest(base, size, perm))
    ensures InRequest(VecRequest(base, size, perm), address) <==> InBlocksOf(base, size, address)
    ensures base <= address < base + size ==> InBlocksOf(base, size, address)
    ensures InBlocksOf(base, size, address) ==> base - 31 <= address < base + size + 31
  {
    WrapSmall(base + size + 31);
    BlocksAround(base, size);
    WrapSmall(Floor32(base + size + 31) - Floor32(base));
  }

  /** The blocks start at or below the base and end at or above the end, by less than a block. */
  lemma BlocksAround(base: int, size: int)
    requires size > 0
    ensures Floor32(base) <= base < Floor32(base) + 32
    ensures Floor32(base + size + 31) - 32 < base + size <= Floor32(base + size + 31)
    ensures Floor32(base) % 32 == 0 && Floor32(base + size + 31) % 32 == 0
    ensures Floor32(base + size + 31) - Floor32(base) >= 32
    ensures (Floor32(base + size + 31) - Floor32(base)) % 32 == 0
  {
  }

  /** Process p may reach the address: its ROM or RAM, a custom region of its handle, or a block
      of a live vector of the active connection. */
  ghost predicate Entitled(pf: Platform, p: nat, stack: Stack, address: int)
    requires p < |pf.processes|
  {
    var v := pf.processes[p].vectors;
    || v.romStart <= address < v.romLimit
    || v.ramStart <= address < v.ramLimit
    || (exists r :: r in pf.custom(pf.processes[p].handle) && InRequest(r, address))
    || (LiveConnection(pf, p, stack).Some? &&
        var c := LiveConnection(pf, p, stack).value;
        exists i :: 0 <= i < PSA_MAX_IOVEC &&
          ((LiveIn(c, i) && InBlocksOf(c.invecBase[i], InLen(c, i), address))
           || (LiveOut(c, i) && InBlocksOf(c.outvecBase[i], OutLen(c, i), address))))
  }

  /** No request of process p leaves the address space. */
  ghost predicate NoWrap(pf: Platform, p: nat, stack: Stack)
    requires p < |pf.processes|
  {
    && (forall r :: r in pf.custom(pf.processes[p].handle) ==> InRange(r))
    && (LiveConnection(pf, p, stack).Some? ==>
          var c := LiveConnection(pf, p, stack).value;
          forall i :: 0 <= i < PSA_MAX_IOVEC ==>
            && (LiveIn(c, i) ==> VectorInRange(c.invecBase[i], InLen(c, i)))
            && (LiveOut(c, i) ==> VectorInRange(c.outvecBase[i], OutLen(c, i))))
  }

  lemma {:induction false} InRequestOrigin(c: Connection, n: nat, r: RegionRequest)
    requires n <= PSA_MAX_IOVEC && r in InRequests(c, n)
    ensures exists i :: 0 <= i < n && LiveIn(c, i) && r == VecRequest(c.invecBase[i], InLen(c, i), ReadXN)
  {
    if r in InRequests(c, n - 1) {
      InRequestOrigin(c, n - 1, r);
    } else {
      assert LiveIn(c, n - 1);
    }
  }

  lemma {:induction false} OutRequestOrigin(c: Connection, n: nat, r: RegionRequest)
    requires n <= PSA_MAX_IOVEC && r in OutRequests(c, n)
    ensures exists i :: 0 <= i < n && LiveOut(c, i) && r == VecRequest(c.outvecBase[i], OutLen(c, i), ReadWriteXN)
  {
    if r in OutRequests(c, n - 1) {
      OutRequestOrigin(c, n - 1, r);
    } else {
      assert LiveOut(c, n - 1);
    }
  }

  /** Every request stays in the address space and names only addresses the process may reach. */
  lemma RequestIsEntitled(pf: Platform, p: nat, stack: Stack, r: RegionRequest)
    requires p < |pf.processes| && NoWrap(pf, p, stack) && r in Requests(pf, p, stack)
    ensures InRange(r)
    ensures forall address :: InRequest(r, address) ==> Entitled(pf, p, stack, address)
  {
    if r !in FixedRequests(pf, p) {
      var c := LiveConnection(pf, p, stack).value;
      if r in InRequests(c, PSA_MAX_IOVEC) {
        InRequestOrigin(c, PSA_MAX_IOVEC, r);
        var i :| 0 <= i < PSA_MAX_IOVEC && LiveIn(c, i) && r == VecRequest(c.invecBase[i], InLen(c, i), ReadXN);
        forall address | InRequest(r, address) ensures Entitled(pf, p, stack, address) {
          WideningIsExact(c.invecBase[i], InLen(c, i), ReadXN, address);
        }
        WideningIsExact(c.invecBase[i], InLen(c, i), ReadXN, 0);
      } else {
        OutRequestOrigin(c, PSA_MAX_IOVEC, r);
        var i :| 0 <= i < PSA_MAX_IOVEC && LiveOut(c, i) && r == VecRequest(c.outvecBase[i], OutLen(c, i), ReadWriteXN);
        forall address | InRequest(r, address) ensures Entitled(pf, p, stack, address) {
          WideningIsExact(c.outvecBase[i], OutLen(c, i), ReadWriteXN, address);
        }
        WideningIsExact(c.outvecBase[i], OutLen(c, i), ReadWriteXN, 0);
      }
    }
  }

  /** The programmed MPU covers no address the process is not entitled to. */
  lemma MpuGrantsOnlyEntitled(pf: Platform, p: nat, stack: Stack, address: int)
    requires p < |pf.processes| && NoWrap(pf, p, stack)
    requires Covered(Applied(pf, p, stack), address)
    ensures Entitled(pf, p, stack, address)
  {
    var rs := Requests(pf, p, stack);
    forall r | r in rs ensures InRange(r) && (InRequest(r, address) ==> Entitled(pf, p, stack, address)) {
      RequestIsEntitled(pf, p, stack, r);
    }
    ProgrammedCoversGrants(rs, MPU_REGIONS, address);
    GrantedIsWellFormed(rs, MPU_REGIONS);
  }
}
