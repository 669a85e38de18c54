/** The order of activations over every run of the process-isolating SPM: each process's initialisation
    runs at most once and begins before its first call; it has ended before every call exactly when no
    process is called from inside its own initialisation. */
module IpcActivation {
  import opened Basics
  import opened Connections
  import opened ConnectionStacks
  import opened Mpus
  import opened Processes
  import opened SpmIpcs

  /** No initialisation begins or ends twice. */
  ghost predicate InitOnce(events: seq<Event>) {
    forall i, j :: 0 <= i < j < |events| && !events[i].Called? ==> events[j] != events[i]
  }

  /** An initialisation has begun before it ends and before its process is called. */
  ghost predicate BegunFirst(events: seq<Event>) {
    forall j :: 0 <= j < |events| && !events[j].InitBegun? ==> InitBegun(events[j].p) in events[..j]
  }

  /** An initialisation has ended before its process is called. */
  ghost predicate EndedFirst(events: seq<Event>) {
    forall j :: 0 <= j < |events| && events[j].Called? ==> InitEnded(events[j].p) in events[..j]
  }

  /** The flags say which initialisations have begun, for processes that have room to start. */
  ghost predicate Marked(pf: Platform, s: State) {
    forall p: nat :: InitBegun(p) in s.events <==>
                p in s.initDone && p < |pf.processes| && InitRuns(pf.processes[p].vectors)
  }

  ghost predicate Ordered(pf: Platform, s: State) {
    InitOnce(s.events) && BegunFirst(s.events) && Marked(pf, s)
  }

  ghost predicate AllOrdered(pf: Platform, states: seq<State>, from: State) {
    forall v :: v in states ==> Ordered(pf, v) && from.events <= v.events
  }

  /** Exactly these processes are in the middle of their initialisation. */
  ghost predicate Underway(events: seq<Event>, inits: set<nat>) {
    forall p: nat :: p in inits <==> InitBegun(p) in events && InitEnded(p) !in events
  }

  /** No service that can be started is called while its own initialisation, at whatever depth, is
      under way. */
  predicate CallsOutside(pf: Platform, s: State, actions: seq<Action>, inits: set<nat>)
    decreases actions
  {
    actions == [] ||
    (StepOutside(pf, s, actions[0], inits)
     && CallsOutside(pf, Last(StepStates(pf, s, actions[0])), actions[1..], inits))
  }

  predicate StepOutside(pf: Platform, s: State, a: Action, inits: set<nat>)
    decreases a
  {
    match a
    case Access(_) => true
    case Release(_) => true
    case Closure(_, inner, _) => Take(s.stack).Ok? ==> CallsOutside(pf, Leased(s), inner, inits)
    case CallService(c, init, body, _) =>
      match FindProcess(pf.processes, c.msg.handle)
      case None => true
      case Some(p) =>
        match Add(s.stack, c)
        case Err(_) => true
        case Ok(pushed) =>
          var v := pf.processes[p].vectors;
          var begun := Logged(Entered(pf, s, p, pushed), InitBegun(p));
          && (p !in s.initDone && InitRuns(v) ==> CallsOutside(pf, begun, init, inits + {p}))
          && (StageMailbox(v).Ok? ==>
                && p !in inits
                && CallsOutside(pf, Logged(Last(StartStates(pf, s, a)), Called(p)), body, inits))
  }

  /** A process that can be called has room to be initialised, so a skipped initialisation never
      precedes a call. */
  lemma StagingImpliesInitRuns(v: ServiceVectors)
    requires StageMailbox(v).Ok?
    ensures InitRuns(v)
  {
    StagingLeavesRoom(v);
  }

  // ----- One event more --------------------------------------------------------------------

  lemma OneMore(events: seq<Event>, e: Event)
    ensures var after := events + [e];
            && (InitOnce(events) && (e.Called? || e !in events) ==> InitOnce(after))
            && (BegunFirst(events) && (e.InitBegun? || InitBegun(e.p) in events) ==> BegunFirst(after))
            && (EndedFirst(after) <==> EndedFirst(events) && (e.Called? ==> InitEnded(e.p) in events))
  {
    var n, after := |events|, events + [e];
    assert forall j :: 0 <= j < n ==> after[..j] == events[..j] && after[j] == events[j];
    assert after[..n] == events && after[n] == e;
  }

  lemma EndOnlyAfterBegin(events: seq<Event>, p: nat)
    requires BegunFirst(events)
    ensures InitEnded(p) in events ==> InitBegun(p) in events
  {
    if InitEnded(p) in events {
      var j :| 0 <= j < |events| && events[j] == InitEnded(p);
      assert InitBegun(p) in events[..j];
    }
  }

  lemma BeginIsUnderway(events: seq<Event>, p: nat, inits: set<nat>)
    requires Underway(events, inits) && InitBegun(p) !in events && InitEnded(p) !in events
    ensures Underway(events + [InitBegun(p)], inits + {p})
  {
    forall q: nat
      ensures q in inits + {p} <==> InitBegun(q) in events + [InitBegun(p)] && InitEnded(q) !in events + [InitBegun(p)]
    {
      assert q in inits + {p} <==> q in inits || q == p;
    }
  }

  lemma InitBegins(pf: Platform, s: State, p: nat, pushed: Stack, inits: set<nat>)
    requires Ordered(pf, s) && Underway(s.events, inits)
    requires p < |pf.processes| && p !in s.initDone && InitRuns(pf.processes[p].vectors)
    ensures var t := Logged(Entered(pf, s, p, pushed), InitBegun(p));
            && Ordered(pf, t) && Underway(t.events, inits + {p})
            && (EndedFirst(t.events) <==> EndedFirst(s.events))
  {
    OneMore(s.events, InitBegun(p));
    EndOnlyAfterBegin(s.events, p);
    assert InitBegun(p) !in s.events;
    hide Applied, InitOnce, BegunFirst, EndedFirst, InitRuns;
    BeginIsUnderway(s.events, p, inits);
    hide Underway;
  }

  lemma EntryIsOrdered(pf: Platform, s: State, p: nat, pushed: Stack)
    requires Ordered(pf, s) && p < |pf.processes|
    requires p in s.initDone || !InitRuns(pf.processes[p].vectors)
    ensures Ordered(pf, Entered(pf, s, p, pushed))
  {
    hide Applied, InitOnce, BegunFirst, InitRuns;
  }

  lemma MarkedKeeps(pf: Platform, s: State, e: Event)
    requires Marked(pf, s) && !e.InitBegun?
    ensures Marked(pf, Logged(s, e))
  {
    hide InitRuns;
    forall q: nat ensures InitBegun(q) in s.events + [e] <==> InitBegun(q) in s.events {
    }
  }

  lemma EndLeavesOthersUnderway(events: seq<Event>, p: nat, inits: set<nat>)
    requires p !in inits && Underway(events, inits + {p})
    ensures Underway(events + [InitEnded(p)], inits) && InitEnded(p) !in events && InitBegun(p) in events
  {
    assert p in inits + {p};
    forall q: nat
      ensures q in inits <==> InitBegun(q) in events + [InitEnded(p)] && InitEnded(q) !in events + [InitEnded(p)]
    {
      assert q in inits + {p} <==> q in inits || q == p;
    }
  }

  lemma InitEnds(pf: Platform, s: State, p: nat, inits: set<nat>)
    requires Ordered(pf, s) && p !in inits && Underway(s.events, inits + {p})
    ensures var t := Logged(s, InitEnded(p));
            && Ordered(pf, t) && Underway(t.events, inits)
            && (EndedFirst(t.events) <==> EndedFirst(s.events))
  {
    EndLeavesOthersUnderway(s.events, p, inits);
    OneMore(s.events, InitEnded(p));
    MarkedKeeps(pf, s, InitEnded(p));
    hide InitOnce, BegunFirst, EndedFirst, InitRuns, Underway, Marked;
  }

  /** A call of a process whose initialisation has begun: it has ended exactly when it is not under
      way. */
  lemma CallIsLogged(pf: Platform, s: State, p: nat, inits: set<nat>)
    requires Ordered(pf, s) && Underway(s.events, inits) && InitBegun(p) in s.events
    ensures var t := Logged(s, Called(p));
            && Ordered(pf, t) && Underway(t.events, inits)
            && (EndedFirst(t.events) <==> EndedFirst(s.events) && p !in inits)
  {
    OneMore(s.events, Called(p));
    MarkedKeeps(pf, s, Called(p));
    hide InitOnce, BegunFirst, EndedFirst, InitRuns, Marked;
  }

  // ----- Every run -------------------------------------------------------------------------

  lemma VectorStepsLogNothing(pf: Platform, s: State, a: Action)
    requires Ordered(pf, s) && (a.Access? || a.Release?)
    ensures AllOrdered(pf, StepStates(pf, s, a), s) && Last(StepStates(pf, s, a)).events == s.events
  {
    hide InitOnce, BegunFirst;
    if a.Access? {
      AccessTouchesActiveOnly(pf, s, a.frame);
    } else {
      ReleaseTouchesActiveOnly(pf, s, a.frame);
    }
  }

  /** One step, calls and their initialisation at any depth included: every state on the way is
      ordered, and calls come after ended initialisations exactly as long as they stay outside them. */
  lemma {:induction false} StepIsOrdered(pf: Platform, s: State, a: Action, inits: set<nat>)
    requires Ordered(pf, s) && Underway(s.events, inits)
    ensures AllOrdered(pf, StepStates(pf, s, a), s)
    ensures var end := Last(StepStates(pf, s, a));
            && Underway(end.events, inits)
            && (EndedFirst(end.events) <==> EndedFirst(s.events) && StepOutside(pf, s, a, inits))
    decreases a, 3
  {
    hide InitOnce, BegunFirst, EndedFirst;
    if a.Access? || a.Release? {
      VectorStepsLogNothing(pf, s, a);
    } else if a.Closure? {
      ClosureIsOrdered(pf, s, a, inits);
    } else if FindProcess(pf.processes, a.connection.msg.handle).Some? && Add(s.stack, a.connection).Ok? {
      CallIsOrdered(pf, s, a, inits);
    }
  }

  lemma {:induction false} ClosureIsOrdered(pf: Platform, s: State, a: Action, inits: set<nat>)
    requires Ordered(pf, s) && Underway(s.events, inits) && a.Closure?
    ensures AllOrdered(pf, StepStates(pf, s, a), s)
    ensures var end := Last(StepStates(pf, s, a));
            && Underway(end.events, inits)
            && (EndedFirst(end.events) <==> EndedFirst(s.events) && StepOutside(pf, s, a, inits))
    decreases a, 2
  {
    hide InitOnce, BegunFirst, EndedFirst;
    if Take(s.stack).Ok? {
      RunIsOrdered(pf, Leased(s), a.inner, inits);
      assert Last(RunStates(pf, Leased(s), a.inner)) in RunStates(pf, Leased(s), a.inner);
    }
  }

  lemma {:induction false} StartIsOrdered(pf: Platform, s: State, a: Action, inits: set<nat>)
    requires Ordered(pf, s) && Underway(s.events, inits) && a.CallService?
    requires FindProcess(pf.processes, a.connection.msg.handle).Some? && Add(s.stack, a.connection).Ok?
    ensures AllOrdered(pf, StartStates(pf, s, a), s)
    ensures var p, end := FindProcess(pf.processes, a.connection.msg.handle).value, Last(StartStates(pf, s, a));
            var begun := Logged(Entered(pf, s, p, Add(s.stack, a.connection).value), InitBegun(p));
            && Underway(end.events, inits)
            && (InitRuns(pf.processes[p].vectors) ==> InitBegun(p) in end.events)
            && (EndedFirst(end.events) <==>
                EndedFirst(s.events)
                && (p !in s.initDone && InitRuns(pf.processes[p].vectors) ==>
                      CallsOutside(pf, begun, a.init, inits + {p})))
    decreases a, 0
  {
    hide InitOnce, BegunFirst, EndedFirst, Applied;
    var p, pushed := FindProcess(pf.processes, a.connection.msg.handle).value, Add(s.stack, a.connection).value;
    if p !in s.initDone && InitRuns(pf.processes[p].vectors) {
      var begun := Logged(Entered(pf, s, p, pushed), InitBegun(p));
      InitBegins(pf, s, p, pushed, inits);
      RunIsOrdered(pf, begun, a.init, inits + {p});
      var run := RunStates(pf, begun, a.init);
      assert Last(run) in run;
      assert InitBegun(p) !in s.events && InitBegun(p) in begun.events;
      assert p !in inits;
      InitEnds(pf, Last(run), p, inits);
    } else {
      EntryIsOrdered(pf, s, p, pushed);
    }
  }

  lemma {:induction false} BodyIsOrdered(pf: Platform, s: State, a: Action, inits: set<nat>)
    requires Ordered(pf, s) && Underway(s.events, inits) && a.CallService?
    requires FindProcess(pf.processes, a.connection.msg.handle).Some? && Add(s.stack, a.connection).Ok?
    ensures AllOrdered(pf, BodyStates(pf, s, a), s)
    ensures var end := Last(BodyStates(pf, s, a));
            && Underway(end.events, inits)
            && (EndedFirst(end.events) <==> EndedFirst(s.events) && StepOutside(pf, s, a, inits))
    decreases a, 1
  {
    hide InitOnce, BegunFirst, EndedFirst, Applied, InitRuns;
    var p := FindProcess(pf.processes, a.connection.msg.handle).value;
    StartIsOrdered(pf, s, a, inits);
    var started := Last(StartStates(pf, s, a));
    assert started in StartStates(pf, s, a);
    if StageMailbox(pf.processes[p].vectors).Ok? {
      StagingImpliesInitRuns(pf.processes[p].vectors);
      CallIsLogged(pf, started, p, inits);
      RunIsOrdered(pf, Logged(started, Called(p)), a.body, inits);
    }
  }

  lemma {:induction false} CallIsOrdered(pf: Platform, s: State, a: Action, inits: set<nat>)
    requires Ordered(pf, s) && Underway(s.events, inits) && a.CallService?
    requires FindProcess(pf.processes, a.connection.msg.handle).Some? && Add(s.stack, a.connection).Ok?
    ensures AllOrdered(pf, StepStates(pf, s, a), s)
    ensures var end := Last(StepStates(pf, s, a));
            && Underway(end.events, inits)
            && (EndedFirst(end.events) <==> EndedFirst(s.events) && StepOutside(pf, s, a, inits))
    decreases a, 2
  {
    hide InitOnce, BegunFirst, EndedFirst, StepStates, StepOutside, StartStates, BodyStates;
    StartIsOrdered(pf, s, a, inits);
    BodyIsOrdered(pf, s, a, inits);
    assert Last(BodyStates(pf, s, a)) in BodyStates(pf, s, a);
    CallSplits(pf, s, a);
  }

  lemma {:induction false} RunIsOrdered(pf: Platform, s: State, actions: seq<Action>, inits: set<nat>)
    requires Ordered(pf, s) && Underway(s.events, inits)
    ensures AllOrdered(pf, RunStates(pf, s, actions), s)
    ensures var end := Last(RunStates(pf, s, actions));
            && Underway(end.events, inits)
            && (EndedFirst(end.events) <==> EndedFirst(s.events) && CallsOutside(pf, s, actions, inits))
    decreases actions
  {
    hide InitOnce, BegunFirst, EndedFirst, StepStates, StepOutside;
    if actions != [] {
      StepIsOrdered(pf, s, actions[0], inits);
      var mid := Last(StepStates(pf, s, actions[0]));
      assert mid in StepStates(pf, s, actions[0]);
      RunIsOrdered(pf, mid, actions[1..], inits);
    }
  }

  /** Over every run from power-up: in every state each initialisation has begun and ended at most once
      and begun before the first call; and every call comes after its process's initialisation has
      ended if and only if no process is called from inside its own initialisation. */
  lemma EveryRunIsOrdered(pf: Platform, regions: seq<RegionConfig>, actions: seq<Action>)
    ensures forall v :: v in RunStates(pf, Start(regions), actions) ==> InitOnce(v.events) && BegunFirst(v.events)
    ensures EndedFirst(Last(RunStates(pf, Start(regions), actions)).events) <==>
            CallsOutside(pf, Start(regions), actions, {})
  {
    RunIsOrdered(pf, Start(regions), actions, {});
  }

  /** A service that calls itself while it is initialised is called before its initialisation ends. */
  lemma ReentrantInitIsCalledEarly(pf: Platform, regions: seq<RegionConfig>, c: Connection, exit: Word)
    requires FindProcess(pf.processes, c.msg.handle).Some?
    requires StageMailbox(pf.processes[FindProcess(pf.processes, c.msg.handle).value].vectors).Ok?
    ensures var again := [CallService(c, [], [], exit)];
            !EndedFirst(Last(RunStates(pf, Start(regions), [CallService(c, again, [], exit)])).events)
  {
    hide EndedFirst, Applied;
    var p := FindProcess(pf.processes, c.msg.handle).value;
    var again := CallService(c, [], [], exit);
    var outer := CallService(c, [again], [], exit);
    StagingImpliesInitRuns(pf.processes[p].vectors);
    EveryRunIsOrdered(pf, regions, [outer]);
    var s := Start(regions);
    var begun := Logged(Entered(pf, s, p, Add(s.stack, c).value), InitBegun(p));
    assert !StepOutside(pf, begun, again, {p});
    assert !CallsOutside(pf, begun, [again], {} + {p});
    assert !StepOutside(pf, s, outer, {});
  }
}
