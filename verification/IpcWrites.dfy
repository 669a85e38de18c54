/** What the MPU lets a called service write in the course of a whole call (spm_ipc.rs, mpu.rs), and when,
    for that reason, a call gives its caller's context back whatever the service does. */
module IpcWrites {
  import opened Basics
  import opened Connections
  import opened ConnectionStacks
  import opened Mpus
  import opened Processes
  import opened VectorPaths
  import opened SpmIpcs
  import opened IpcProtection
  import A = ServiceApis
  import M = SvcMachines
  import R = SvcRuns

  // ----- Writable regions ------------------------------------------------------------------

  /** The permissions that let unprivileged code write. */
  predicate Writes(p: Permissions) {
    p == ReadWriteExecute || p == ReadWriteXN
  }

  /** An enabled region whose access field is 1: read and write at any privilege. */
  predicate LetsWrite(rc: RegionConfig) {
    Enabled(rc) && rc.rbar % 32 / 2 % 4 == 1
  }

  ghost predicate WritableAt(regions: seq<RegionConfig>, address: int) {
    exists i :: 0 <= i < |regions| && LetsWrite(regions[i])
                && DecodedBase(regions[i]) <= address <= DecodedLimit(regions[i])
  }

  /** The access field is 1 for these two permissions and no other. */
  lemma PackLetsWrite(r: RegionRequest)
    requires WellFormed(r)
    ensures LetsWrite(Pack(r)) <==> Writes(r.perm)
  {
    hide Pack, WellFormed, Enabled, DecodedBase, DecodedLimit;
    PackDecodes(r);
    assert Pack(r).rbar % 32 == AccessBits(r.perm);
    match r.perm
    case _ =>
  }

  lemma SlotLetsWrite(granted: seq<RegionRequest>, n: nat, i: nat)
    requires |granted| <= n && i < n && forall r :: r in granted ==> WellFormed(r)
    ensures LetsWrite(Programmed(Encode(granted, n))[i]) <==> i < |granted| && Writes(granted[i].perm)
  {
    SlotOfGrants(granted, n, i);
    if i < |granted| {
      assert granted[i] in granted;
      PackLetsWrite(granted[i]);
    }
    hide Pack, WellFormed, Writes, DecodedBase, DecodedLimit;
  }

  /** After programming, unprivileged code may write an address exactly when a granted request that lets
      it write contains the address. */
  lemma WritableIsGranted(rs: seq<RegionRequest>, n: nat, address: int)
    requires forall r :: r in rs ==> InRange(r)
    ensures WritableAt(Programmed(AllocateAll(rs, EmptyConfig(n))), address)
            <==> exists g :: g in Granted(rs, n) && Writes(g.perm) && InRequest(g, address)
  {
    AllocationIsGreedy(rs, n);
    GrantedIsWellFormed(rs, n);
    var granted := Granted(rs, n);
    var regions := Programmed(Encode(granted, n));
    assert |regions| == n;
    hide AllocateAll, Granted, Encode, Programmed, WellFormed, Pack, LetsWrite, Writes, DecodedBase, DecodedLimit;
    forall g | g in granted && Writes(g.perm) && InRequest(g, address) ensures WritableAt(regions, address) {
      var i :| 0 <= i < |granted| && granted[i] == g;
      SlotOfGrants(granted, n, i);
      SlotLetsWrite(granted, n, i);
      assert LetsWrite(regions[i]);
    }
    if WritableAt(regions, address) {
      var i :| 0 <= i < |regions| && LetsWrite(regions[i])
               && DecodedBase(regions[i]) <= address <= DecodedLimit(regions[i]);
      SlotLetsWrite(granted, n, i);
      SlotOfGrants(granted, n, i);
      assert granted[i] in granted && InRequest(granted[i], address);
    }
  }

  lemma WritableIsWord(regions: seq<RegionConfig>, address: int)
    requires WritableAt(regions, address)
    ensures 0 <= address < TWO_32
  {
  }

  /** A grant out of two lists is one out of the first, or one of the second that would have been granted
      right after the first. */
  lemma {:induction false} GrantOfEither(rs: seq<RegionRequest>, ts: seq<RegionRequest>, n: nat, g: RegionRequest)
    requires g in Granted(rs + ts, n)
    ensures Granted(rs, n) <= Granted(rs + ts, n)
    ensures g in Granted(rs, n) || (g in ts && Admissible(g, Granted(rs, n), n))
    decreases |ts|
  {
    if ts == [] {
      assert rs + ts == rs;
    } else {
      GrantsGrow(rs, ts, n);
      var init := ts[..|ts| - 1];
      assert (rs + ts)[..|rs + ts| - 1] == rs + init;
      GrantsGrow(rs, init, n);
      if g in Granted(rs + init, n) {
        GrantOfEither(rs, init, n, g);
      } else {
        assert g == Last(ts) && Admissible(g, Granted(rs + init, n), n);
        assert forall i :: 0 <= i < |Granted(rs, n)| ==> Granted(rs, n)[i] == Granted(rs + init, n)[i];
      }
    }
  }

  lemma {:induction false} GrantsGrow(rs: seq<RegionRequest>, ts: seq<RegionRequest>, n: nat)
    ensures Granted(rs, n) <= Granted(rs + ts, n)
    decreases |ts|
  {
    if ts == [] {
      assert rs + ts == rs;
    } else {
      assert (rs + ts)[..|rs + ts| - 1] == rs + ts[..|ts| - 1];
      GrantsGrow(rs, ts[..|ts| - 1], n);
    }
  }

  // ----- What a connection may come to open ------------------------------------------------

  function OutRequest(c: Connection, o: nat): RegionRequest
    requires o < PSA_MAX_IOVEC
  {
    VecRequest(c.outvecBase[o], OutLen(c, o), ReadWriteXN)
  }

  /** The address lies in a block of this output. */
  predicate InOutput(c: Connection, o: nat, address: int) {
    o < PSA_MAX_IOVEC && OutLen(c, o) > 0 && InBlocksOf(c.outvecBase[o], OutLen(c, o), address)
  }

  /** What process p may be given to write when it is called with connection c: its RAM, a custom region
      that lets it write, or a block of an output. */
  ghost predicate EntitledToWrite(pf: Platform, p: nat, c: Connection, address: int)
    requires p < |pf.processes|
  {
    || R.InRam(pf.processes[p].vectors, address)
    || (exists r :: r in pf.custom(pf.processes[p].handle) && Writes(r.perm) && InRequest(r, address))
    || (exists o :: 0 <= o < PSA_MAX_IOVEC && InOutput(c, o, address))
  }

  /** What the MPU does open to it at some point: a granted region of its own that lets it write, or a block
      of an output whose region is not refused right after these; outputs only if the message is a request. */
  ghost predicate Openable(pf: Platform, p: nat, c: Connection, address: int)
    requires p < |pf.processes|
  {
    var own := Granted(FixedRequests(pf, p), MPU_REGIONS);
    || (exists g :: g in own && Writes(g.perm) && InRequest(g, address))
    || (c.msg.msgType >= 0 &&
        exists o :: 0 <= o < PSA_MAX_IOVEC && InOutput(c, o, address) && Admissible(OutRequest(c, o), own, MPU_REGIONS))
  }

  /** No region of process p or of a vector of c leaves the address space. */
  ghost predicate NothingWraps(pf: Platform, p: nat, c: Connection)
    requires p < |pf.processes|
  {
    && (forall r :: r in pf.custom(pf.processes[p].handle) ==> InRange(r))
    && (forall i :: 0 <= i < PSA_MAX_IOVEC ==>
          && (InLen(c, i) > 0 ==> VectorInRange(c.invecBase[i], InLen(c, i)))
          && (OutLen(c, i) > 0 ==> VectorInRange(c.outvecBase[i], OutLen(c, i))))
  }

  lemma OpenableIsEntitled(pf: Platform, p: nat, c: Connection, address: int)
    requires p < |pf.processes| && Openable(pf, p, c, address)
    ensures EntitledToWrite(pf, p, c, address)
  {
    hide Granted, Admissible;
    if g :| g in Granted(FixedRequests(pf, p), MPU_REGIONS) && Writes(g.perm) && InRequest(g, address) {
      GrantedIsWellFormed(FixedRequests(pf, p), MPU_REGIONS);
    }
  }

  // ----- Along a run of supervisor calls ---------------------------------------------------

  /** Connection d in the course of a service's work on c: an output is as long as it was, or has become
      empty, or is released for good. */
  ghost predicate Working(c: Connection, d: Connection) {
    && d.invecBase == c.invecBase && d.outvecBase == c.outvecBase
    && d.msg.(outSize := c.msg.outSize) == c.msg
    && forall o :: 0 <= o < PSA_MAX_IOVEC ==>
         && (OutLen(d, o) == OutLen(c, o) || OutLen(d, o) == 0 || (!d.outvecMapped[o] && d.outvecWritten[o] != 0))
         && (c.msg.msgType < 0 ==> !d.outvecMapped[o])
  }

  lemma AccessWorks(c: Connection, d: Connection, h: ServiceHandle, f: Frame)
    requires Working(c, d)
    ensures Working(c, AccessVec(d, h, f).0)
  {
  }

  lemma ReleaseWorks(c: Connection, d: Connection, h: ServiceHandle, f: Frame)
    requires Working(c, d)
    ensures Working(c, ReleaseVec(d, h, f).0)
  {
  }

  /** The active connection of a state, in the course of the work on c for process p. */
  ghost predicate At(pf: Platform, s: State, p: nat, c: Connection) {
    && Peek(s.stack).Ok? && Working(c, Peek(s.stack).value)
    && FindProcess(pf.processes, Peek(s.stack).value.msg.handle) == Some(p)
  }

  lemma {:induction false} StepStaysAt(pf: Platform, s: State, a: Action, p: nat, c: Connection)
    requires Sound(s) && SvcStep(a) && At(pf, s, p, c)
    ensures At(pf, Last(StepStates(pf, s, a)), p, c)
  {
    hide Working, AccessVec, ReleaseVec, PrepareRaw, FinishRaw, MappingUpdated;
    match a
    case Access(f) =>
      if HandleFromWord(f.r0).Some? {
        A.AccessStepIsAccessVec(pf, s, HandleFromWord(f.r0).value, f);
        AccessWorks(c, Peek(s.stack).value, HandleFromWord(f.r0).value, f);
      }
    case Release(f) =>
      if HandleFromWord(f.r0).Some? {
        A.ReleaseStepIsReleaseVec(pf, s, HandleFromWord(f.r0).value, f);
        ReleaseWorks(c, Peek(s.stack).value, HandleFromWord(f.r0).value, f);
      }
    case CallService(_, _, _, _) =>
      StepKeeps(pf, s, a);
  }

  lemma {:induction false} RunStaysAt(pf: Platform, s: State, actions: seq<Action>, p: nat, c: Connection)
    requires Sound(s) && SvcOnly(actions) && At(pf, s, p, c)
    ensures At(pf, Last(RunStates(pf, s, actions)), p, c)
    decreases |actions|
  {
    hide At, StepStates, SvcStep;
    if actions != [] {
      StepStaysAt(pf, s, actions[0], p, c);
      StepKeeps(pf, s, actions[0]);
      var mid := Last(StepStates(pf, s, actions[0]));
      assert mid in StepStates(pf, s, actions[0]);
      RunStaysAt(pf, mid, actions[1..], p, c);
    }
  }

  /** A service that has been called with an untouched connection and uses supervisor calls works on that
      connection whenever it runs, and the MPU follows it. */
  lemma CalleeIsAt(pf: Platform, s: State, a: Action, p: nat)
    requires Sound(s) && Accepted(pf, s, a) && SvcStep(a) && Untouched(a.connection)
    requires FindProcess(pf.processes, a.connection.msg.handle) == Some(p)
    ensures var end := Last(BodyStates(pf, s, a));
            At(pf, end, p, a.connection) && FollowsActive(pf, end)
  {
    hide Applied, FollowsActive, RunStates, SvcOnly;
    var c := a.connection;
    var entered := Entered(pf, s, p, Add(s.stack, c).value);
    EntryFollows(pf, s, p, c);
    assert At(pf, entered, p, c);
    assert Sound(entered);
    if p !in s.initDone && InitRuns(pf.processes[p].vectors) {
      EventsDoNotMatter(pf, entered, InitBegun(p));
      RunIsAt(pf, Logged(entered, InitBegun(p)), a.init, p, c);
      EventsDoNotMatter(pf, Last(RunStates(pf, Logged(entered, InitBegun(p)), a.init)), InitEnded(p));
    }
    var started := Last(StartStates(pf, s, a));
    assert Sound(started) && At(pf, started, p, c) && FollowsActive(pf, started);
    if StageMailbox(pf.processes[p].vectors).Ok? {
      EventsDoNotMatter(pf, started, Called(p));
      RunIsAt(pf, Logged(started, Called(p)), a.body, p, c);
    }
  }

  lemma RunIsAt(pf: Platform, s: State, actions: seq<Action>, p: nat, c: Connection)
    requires Sound(s) && FollowsActive(pf, s) && SvcOnly(actions) && At(pf, s, p, c)
    ensures var end := Last(RunStates(pf, s, actions));
            Sound(end) && FollowsActive(pf, end) && At(pf, end, p, c)
  {
    hide FollowsActive, At;
    SvcIsQuiet(actions);
    QuietRunFollows(pf, s, actions);
    RunStaysAt(pf, s, actions, p, c);
    RunKeeps(pf, s, actions);
    assert Last(RunStates(pf, s, actions)) in RunStates(pf, s, actions);
  }

  // ----- What is open in the course of a call ----------------------------------------------

  /** In the course of a call with connection c, some service gets the MPU to let it write the address, by
      its supervisor calls in initialisation and body, calls of other services included. */
  ghost predicate Opens(pf: Platform, s: State, c: Connection, address: int)
    requires FindProcess(pf.processes, c.msg.handle).Some? && Add(s.stack, c).Ok?
  {
    exists init, body :: OpenedBy(pf, s, CallService(c, init, body, 0), address)
  }

  ghost predicate OpenedBy(pf: Platform, s: State, a: Action, address: int)
    requires Accepted(pf, s, a)
  {
    SvcStep(a) && WritableAt(Last(BodyStates(pf, s, a)).regions, address)
  }

  /** What is open while a service works on c is what is openable. */
  lemma LiveIsOpenable(pf: Platform, p: nat, stack: Stack, c: Connection, address: int)
    requires p < |pf.processes| && NothingWraps(pf, p, c)
    requires LiveConnection(pf, p, stack).Some? && Working(c, LiveConnection(pf, p, stack).value)
    requires WritableAt(Applied(pf, p, stack), address)
    ensures Openable(pf, p, c, address)
  {
    var d, fixed := LiveConnection(pf, p, stack).value, FixedRequests(pf, p);
    WorkingWraps(pf, p, stack, c);
    forall r | r in Requests(pf, p, stack) ensures InRange(r) {
      RequestIsEntitled(pf, p, stack, r);
    }
    hide Granted, Admissible, FixedRequests, AllocateAll, WritableAt, Working, NothingWraps;
    WritableIsGranted(Requests(pf, p, stack), MPU_REGIONS, address);
    var g :| g in Granted(Requests(pf, p, stack), MPU_REGIONS) && Writes(g.perm) && InRequest(g, address);
    GrantOfEither(fixed, VectorRequests(Some(d)), MPU_REGIONS, g);
    if g !in Granted(fixed, MPU_REGIONS) {
      VectorIsOpenable(pf, p, c, d, g, address);
    }
  }

  lemma WorkingWraps(pf: Platform, p: nat, stack: Stack, c: Connection)
    requires p < |pf.processes| && NothingWraps(pf, p, c)
    requires LiveConnection(pf, p, stack).Some? && Working(c, LiveConnection(pf, p, stack).value)
    ensures NoWrap(pf, p, stack)
  {
    var d := LiveConnection(pf, p, stack).value;
    forall i | 0 <= i < PSA_MAX_IOVEC
      ensures LiveIn(d, i) ==> VectorInRange(d.invecBase[i], InLen(d, i))
      ensures LiveOut(d, i) ==> VectorInRange(d.outvecBase[i], OutLen(d, i))
    {
      assert InLen(d, i) == InLen(c, i);
    }
  }

  lemma VectorIsOpenable(pf: Platform, p: nat, c: Connection, d: Connection, g: RegionRequest, address: int)
    requires p < |pf.processes| && NothingWraps(pf, p, c) && Working(c, d)
    requires g in VectorRequests(Some(d)) && Writes(g.perm) && InRequest(g, address)
    requires Admissible(g, Granted(FixedRequests(pf, p), MPU_REGIONS), MPU_REGIONS)
    ensures Openable(pf, p, c, address)
  {
    hide Granted, Admissible, FixedRequests;
    if g in InRequests(d, PSA_MAX_IOVEC) {
      InRequestOrigin(d, PSA_MAX_IOVEC, g);
    } else {
      OutRequestOrigin(d, PSA_MAX_IOVEC, g);
      var o :| 0 <= o < PSA_MAX_IOVEC && LiveOut(d, o) && g == VecRequest(d.outvecBase[o], OutLen(d, o), ReadWriteXN);
      assert OutLen(d, o) == OutLen(c, o) && g == OutRequest(c, o);
      WideningIsExact(c.outvecBase[o], OutLen(c, o), ReadWriteXN, address);
      assert InOutput(c, o, address);
    }
  }

  lemma OpensOnlyOpenable(pf: Platform, s: State, a: Action, p: nat, address: int)
    requires Sound(s) && Accepted(pf, s, a) && Untouched(a.connection)
    requires FindProcess(pf.processes, a.connection.msg.handle) == Some(p) && NothingWraps(pf, p, a.connection)
    requires OpenedBy(pf, s, a, address)
    ensures Openable(pf, p, a.connection, address)
  {
    CalleeIsAt(pf, s, a, p);
    hide Applied, BodyStates, Working, NothingWraps, WritableAt, Openable;
    LiveIsOpenable(pf, p, Last(BodyStates(pf, s, a)).stack, a.connection, address);
  }

  // ----- And all of it ---------------------------------------------------------------------

  /** A service that does nothing: the configuration of the untouched connection. */
  lemma IdleCallee(pf: Platform, s: State, c: Connection, p: nat)
    requires Add(s.stack, c).Ok? && FindProcess(pf.processes, c.msg.handle) == Some(p)
    ensures var a, pushed := CallService(c, [], [], 0), Add(s.stack, c).value;
            && Last(StartStates(pf, s, a)).stack == pushed && Last(BodyStates(pf, s, a)).stack == pushed
            && Last(BodyStates(pf, s, a)).regions == Applied(pf, p, pushed)
  {
    hide Applied;
  }

  function AskFor(c: Connection, o: Word): Action {
    Action.Access(Frame(HandleWord(c.msg.handle), o, 1, 0))
  }

  lemma AskingIsSvc(c: Connection, o: Word)
    ensures SvcStep(CallService(c, [], [], 0)) && SvcStep(CallService(c, [], [AskFor(c, o)], 0))
  {
    assert SvcOnly([]);
    assert forall a :: a in [AskFor(c, o)] ==> SvcStep(a);
    assert SvcOnly([AskFor(c, o)]);
  }

  lemma OneStepRun(pf: Platform, s: State, a: Action)
    ensures Last(RunStates(pf, s, [a])) == Last(StepStates(pf, s, a))
  {
    hide StepStates;
    assert [a][1..] == [];
    assert RunStates(pf, s, [a]) == StepStates(pf, s, a) + RunStates(pf, Last(StepStates(pf, s, a)), []);
  }

  /** A service that asks for one output: with it, the configuration has that output's region as well. */
  lemma OneOutputCallee(pf: Platform, s: State, c: Connection, p: nat, o: Word)
    requires Add(s.stack, c).Ok? && FindProcess(pf.processes, c.msg.handle) == Some(p)
    requires StageMailbox(pf.processes[p].vectors).Ok?
    requires Untouched(c) && c.msg.msgType >= 0 && o < PSA_MAX_IOVEC
    ensures var a := CallService(c, [], [AskFor(c, o)], 0);
            var stack := WithActive(Add(s.stack, c).value, OutMapped(c, o, true));
            Last(BodyStates(pf, s, a)).regions == Applied(pf, p, stack)
  {
    hide Applied, StageMailbox;
    var f, a := AskFor(c, o).frame, CallService(c, [], [AskFor(c, o)], 0);
    var t := Logged(Last(StartStates(pf, s, a)), Called(p));
    OneStepRun(pf, t, AskFor(c, o));
    assert Last(BodyStates(pf, s, a)) == AccessStep(pf, t, f).0;
    assert t.stack == Add(s.stack, c).value && Peek(t.stack) == Ok(c);
    assert HandleFromWord(f.r0) == Some(c.msg.handle);
    OneOutputMapped(pf, t, c, p, o, f);
  }

  lemma OneOutputMapped(pf: Platform, s: State, c: Connection, p: nat, o: Word, f: Frame)
    requires Peek(s.stack) == Ok(c) && FindProcess(pf.processes, c.msg.handle) == Some(p)
    requires Untouched(c) && c.msg.msgType >= 0 && o < PSA_MAX_IOVEC
    requires HandleFromWord(f.r0) == Some(c.msg.handle) && f.r1 == o && f.r2 == 1
    ensures AccessStep(pf, s, f).0.regions == Applied(pf, p, WithActive(s.stack, OutMapped(c, o, true)))
  {
    hide Applied, HandleFromWord;
    var d := OutMapped(c, o, true);
    assert Remapped(d, true, o, true) == d;
    ActiveIsReplaced(s.stack, d);
    assert WithActive(WithActive(s.stack, d), d) == WithActive(s.stack, d);
  }

  lemma OwnIsOpened(pf: Platform, s: State, c: Connection, p: nat, address: int)
    requires Add(s.stack, c).Ok? && FindProcess(pf.processes, c.msg.handle) == Some(p)
    requires Untouched(c) && NothingWraps(pf, p, c)
    requires exists g :: g in Granted(FixedRequests(pf, p), MPU_REGIONS) && Writes(g.perm) && InRequest(g, address)
    ensures Opens(pf, s, c, address)
  {
    hide Granted, AllocateAll, FixedRequests, WritableAt, BodyStates, StartStates, SvcStep;
    var pushed := Add(s.stack, c).value;
    IdleCallee(pf, s, c, p);
    NoLiveVectors(c, PSA_MAX_IOVEC);
    assert Requests(pf, p, pushed) == FixedRequests(pf, p);
    FixedInRange(pf, p, c);
    WritableIsGranted(FixedRequests(pf, p), MPU_REGIONS, address);
    AskingIsSvc(c, 0);
    assert OpenedBy(pf, s, CallService(c, [], [], 0), address);
  }

  lemma FixedInRange(pf: Platform, p: nat, c: Connection)
    requires p < |pf.processes| && NothingWraps(pf, p, c)
    ensures forall r :: r in FixedRequests(pf, p) ==> InRange(r)
  {
  }

  lemma OutputIsOpened(pf: Platform, s: State, c: Connection, p: nat, o: Word, address: int)
    requires Add(s.stack, c).Ok? && FindProcess(pf.processes, c.msg.handle) == Some(p)
    requires StageMailbox(pf.processes[p].vectors).Ok?
    requires Untouched(c) && NothingWraps(pf, p, c) && c.msg.msgType >= 0 && InOutput(c, o, address)
    requires Admissible(OutRequest(c, o), Granted(FixedRequests(pf, p), MPU_REGIONS), MPU_REGIONS)
    ensures Opens(pf, s, c, address)
  {
    hide Granted, AllocateAll, FixedRequests, WritableAt, BodyStates, StartStates, Admissible;
    hide InRequests, OutRequests, StageMailbox, SvcStep;
    var pushed, d, r := Add(s.stack, c).value, OutMapped(c, o, true), OutRequest(c, o);
    var fixed, stack := FixedRequests(pf, p), WithActive(pushed, d);
    OneOutputCallee(pf, s, c, p, o);
    OneLiveOutput(c, o, PSA_MAX_IOVEC);
    assert Requests(pf, p, stack) == fixed + [r];
    FixedInRange(pf, p, c);
    WideningIsExact(c.outvecBase[o], OutLen(c, o), ReadWriteXN, address);
    LastIsGranted(fixed, r, MPU_REGIONS);
    WritableIsGranted(fixed + [r], MPU_REGIONS, address);
    AskingIsSvc(c, o);
    assert OpenedBy(pf, s, CallService(c, [], [AskFor(c, o)], 0), address);
  }

  lemma LastIsGranted(rs: seq<RegionRequest>, r: RegionRequest, n: nat)
    requires Admissible(r, Granted(rs, n), n)
    ensures r in Granted(rs + [r], n)
  {
    assert (rs + [r])[..|rs|] == rs;
  }

  /** What the MPU lets a called service write, at any point of any run of supervisor calls and nested
      calls, is exactly what its granted regions and the output blocks that are not refused let it. */
  lemma OpensExactly(pf: Platform, s: State, c: Connection, p: nat, address: int)
    requires Sound(s) && Add(s.stack, c).Ok? && FindProcess(pf.processes, c.msg.handle) == Some(p)
    requires StageMailbox(pf.processes[p].vectors).Ok? && Untouched(c) && NothingWraps(pf, p, c)
    ensures Opens(pf, s, c, address) <==> Openable(pf, p, c, address)
    ensures Opens(pf, s, c, address) ==> EntitledToWrite(pf, p, c, address)
  {
    hide Granted, Admissible, OpenedBy, FixedRequests, EntitledToWrite, NothingWraps, StageMailbox;
    if Opens(pf, s, c, address) {
      var init, body :| OpenedBy(pf, s, CallService(c, init, body, 0), address);
      OpensOnlyOpenable(pf, s, CallService(c, init, body, 0), p, address);
      OpenableIsEntitled(pf, p, c, address);
    }
    if Openable(pf, p, c, address) {
      if exists g :: g in Granted(FixedRequests(pf, p), MPU_REGIONS) && Writes(g.perm) && InRequest(g, address) {
        OwnIsOpened(pf, s, c, p, address);
      } else {
        var o :| 0 <= o < PSA_MAX_IOVEC && InOutput(c, o, address)
                 && Admissible(OutRequest(c, o), Granted(FixedRequests(pf, p), MPU_REGIONS), MPU_REGIONS);
        OutputIsOpened(pf, s, c, p, o, address);
      }
    }
  }

  // ----- And so when a call restores its caller --------------------------------------------

  /** Every address that is open to the service at some point of the call. */
  ghost function OpenTo(pf: Platform, s: State, c: Connection): set<int>
    requires FindProcess(pf.processes, c.msg.handle).Some? && Add(s.stack, c).Ok?
  {
    set w | 0 <= w < TWO_32 && Opens(pf, s, c, w)
  }

  /** No waiting word lies where the MPU comes to let the service write. */
  ghost predicate WaitsApart(pf: Platform, p: nat, c: Connection, waiting: set<int>)
    requires p < |pf.processes|
  {
    forall w :: w in waiting && w % 4 == 0 ==> !Openable(pf, p, c, w)
  }

  /** A call restores its caller, whatever the called service does within what the MPU opens to it, if and
      only if none of the words that wait lies in a granted region or output block that it may write. */
  lemma CallRestoresUnderMpuExactly(lay: R.Layout, cpu: M.Cpu, spill: seq<int>, active: set<ServiceVectors>,
                                    pf: Platform, s: State, c: Connection, p: nat)
    requires Sound(s) && Add(s.stack, c).Ok? && FindProcess(pf.processes, c.msg.handle) == Some(p)
    requires Untouched(c) && NothingWraps(pf, p, c)
    requires R.LayoutOk(lay) && R.Caller(lay, cpu, active)
    requires R.Callable(lay, cpu, pf.processes[p].vectors, |spill|, active)
    ensures (forall a :: R.Permitted(lay, cpu, a, spill, pf.processes[p].vectors, OpenTo(pf, s, c), active)
                         ==> R.Restores(cpu, a))
            <==> WaitsApart(pf, p, c, R.Waiting(cpu, |spill|))
  {
    assert StageMailbox(pf.processes[p].vectors).Ok?;
    hide StageMailbox, R.Restores, R.Permitted, R.Waiting, R.Callable, R.Caller, R.LayoutOk;
    hide Opens, Openable, NothingWraps, EntitledToWrite;
    var open, waiting := OpenTo(pf, s, c), R.Waiting(cpu, |spill|);
    forall w ensures w in open <==> Openable(pf, p, c, w) {
      OpensExactly(pf, s, c, p, w);
      if Opens(pf, s, c, w) {
        OpenIsWord(pf, s, c, w);
      }
    }
    assert R.OpenClear(open, waiting) <==> WaitsApart(pf, p, c, waiting);
    R.CallRestoresExactly(lay, cpu, spill, pf.processes[p].vectors, open, active);
  }

  lemma OpenIsWord(pf: Platform, s: State, c: Connection, address: int)
    requires FindProcess(pf.processes, c.msg.handle).Some? && Add(s.stack, c).Ok? && Opens(pf, s, c, address)
    ensures 0 <= address < TWO_32
  {
    var init, body :| OpenedBy(pf, s, CallService(c, init, body, 0), address);
    WritableIsWord(Last(BodyStates(pf, s, CallService(c, init, body, 0))).regions, address);
  }

  /** An output at or above the stack pointer of a calling service reaches into the upper half of its frame
      if and only if its first block starts below the stack pointer; then the block holds pc and xpsr. */
  lemma OutputAboveStack(cpu: M.Cpu, c: Connection, o: nat)
    requires cpu.spsel && cpu.psp % 8 == 0 && o < PSA_MAX_IOVEC && OutLen(c, o) > 0 && cpu.psp <= c.outvecBase[o]
    ensures (exists w :: w in R.Span(cpu.psp - 16, cpu.psp) && w % 4 == 0 && InOutput(c, o, w))
            <==> Floor32(c.outvecBase[o]) < cpu.psp
    ensures Floor32(c.outvecBase[o]) < cpu.psp ==> InOutput(c, o, cpu.psp - 8) && InOutput(c, o, cpu.psp - 4)
  {
    var base, size := c.outvecBase[o], OutLen(c, o);
    BlocksAround(base, size);
    if Floor32(base) < cpu.psp {
      BelowIsInBlock(cpu.psp, base);
      assert R.Between(cpu.psp - 16, cpu.psp - 4, cpu.psp);
      assert cpu.psp - 4 in R.Span(cpu.psp - 16, cpu.psp) && InOutput(c, o, cpu.psp - 4);
    }
  }

  lemma BelowIsInBlock(psp: int, base: int)
    requires psp % 8 == 0 && Floor32(base) < psp
    ensures Floor32(base) <= psp - 8 && (psp - 4) % 4 == 0
  {
    assert Floor32(base) == 8 * (4 * (base / 32)) && psp == 8 * (psp / 8);
  }

  /** An output on the caller's own stack that starts, at or above the stack pointer, in a block that begins
      below it, such as a few bytes right at a stack pointer that is no multiple of 32: none of its bytes
      is in the caller's frame, but pc and xpsr are in its block. Unless its region is refused, there is
      something the called service may do after which the caller is not restored. */
  lemma OutputBesideFrame(lay: R.Layout, cpu: M.Cpu, spill: seq<int>, active: set<ServiceVectors>,
                          pf: Platform, s: State, c: Connection, p: nat, o: nat)
    requires Sound(s) && Add(s.stack, c).Ok? && FindProcess(pf.processes, c.msg.handle) == Some(p)
    requires Untouched(c) && NothingWraps(pf, p, c) && c.msg.msgType >= 0
    requires R.LayoutOk(lay) && R.Caller(lay, cpu, active)
    requires R.Callable(lay, cpu, pf.processes[p].vectors, |spill|, active)
    requires cpu.spsel && o < PSA_MAX_IOVEC && OutLen(c, o) > 0
    requires Floor32(c.outvecBase[o]) < cpu.psp <= c.outvecBase[o]
    requires Admissible(OutRequest(c, o), Granted(FixedRequests(pf, p), MPU_REGIONS), MPU_REGIONS)
    ensures R.CallerFrame(cpu) + 32 <= c.outvecBase[o]
    ensures InOutput(c, o, R.CallerFrame(cpu) + 24) && InOutput(c, o, R.CallerFrame(cpu) + 28)
    ensures exists a :: R.Permitted(lay, cpu, a, spill, pf.processes[p].vectors, OpenTo(pf, s, c), active)
                        && !R.Restores(cpu, a)
  {
    hide R.Restores, R.Permitted, R.Caller, R.LayoutOk, Opens, NothingWraps, Granted, Admissible, FixedRequests;
    hide InBlocksOf, Untouched, StageMailbox, OutRequest, Floor32;
    var w := cpu.psp - 4;
    OutputAboveStack(cpu, c, o);
    BelowIsInBlock(cpu.psp, c.outvecBase[o]);
    R.WaitingPlaces(cpu, |spill|, w);
    hide R.Waiting, R.Callable, R.Span;
    assert Openable(pf, p, c, w);
    assert !WaitsApart(pf, p, c, R.Waiting(cpu, |spill|));
    CallRestoresUnderMpuExactly(lay, cpu, spill, active, pf, s, c, p);
  }
}
