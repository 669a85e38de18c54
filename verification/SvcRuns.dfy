/** Whole trees of service calls on the supervisor-call machine: what the compiled SPM and the services
    do between the handler branches is arbitrary, within their stacks and the memory that is open to
    them. A call gives its caller's context back, whatever the called service does, exactly when no word
    that waits on a stack is open to it. */
module SvcRuns {
  import opened Basics
  import opened Processes
  import opened SvcMachines

  datatype Quad = Quad(r0: int, r1: int, r2: int, r3: int)

  /** What a running service may do: store a word, move its stack pointer, compute anything in
      registers, make a vector supervisor call, or call a service. The SPM keeps the words `spill` on
      the main stack while it works; `open` are the addresses outside its own RAM that the service that
      is called may write: what the MPU opens to it, in whole blocks, over the call. */
  datatype Act =
    | Store(address: int, value: int)
    | MoveStack(psp: int)
    | Compute(regs: Regs)
    | VectorCall(spill: seq<int>, results: Quad)
    | PsaCall(spill: seq<int>, answer: Answer, open: set<int>)

  /** What the SPM does with a call: refuse it, or initialise the service if it has to and call it. */
  datatype Answer =
    | Refusal(error: StatusCode)
    | Service(init: Option<Activation>, call: Activation)

  /** One start of a process: for a call, with the words of the staged message; for initialisation,
      without. It runs `body` and exits with `exit` in r0. */
  datatype Activation = Activation(svc: ServiceVectors, message: Option<seq<int>>, body: seq<Act>, exit: Word)

  // ----- Runs ------------------------------------------------------------------------------

  function QuadWords(q: Quad): seq<int> {
    [q.r0, q.r1, q.r2, q.r3]
  }

  /** The thunk's frame for `handle_svc`, and below it what the compiled code spills. */
  function InThunk(c: Cpu, spill: seq<int>): Cpu {
    var sp := c.msp - 32;
    var framed := WrFrame(c.mem, sp, Regs(c.regs.r0, c.regs.r1, c.regs.r2, c.regs.r3, 0, 0, 0, 0));
    c.(msp := sp - 4 * |spill|, mem := WrWords(framed, sp - 4 * |spill|, spill))
  }

  /** The status of a call, read from r0 as the service left it. */
  function StatusOf(c: Cpu, answer: Answer): Result<(), StatusCode> {
    match answer
    case Refusal(e) => Err(e)
    case Service(_, call) => ServiceStatus(call.svc, Wrap(c.regs.r0))
  }

  /** What the caller finds in r0-r3: success leaves its arguments in r1-r3, an error clears them. */
  function Results(args: Quad, status: Result<(), StatusCode>): Quad {
    match status
    case Ok(_) => args.(r0 := StatusWord(Success))
    case Err(e) => Quad(StatusWord(e), 0, 0, 0)
  }

  function ArgsOf(r: Regs): Quad {
    Quad(r.r0, r.r1, r.r2, r.r3)
  }

  function WithResults(r: Regs, q: Quad): Regs {
    r.(r0 := q.r0, r1 := q.r1, r2 := q.r2, r3 := q.r3)
  }

  /** `handle_svc` answers in the thunk's frame; the thunk loads r0-r3 from it and drops it. */
  function OutOfThunk(c: Cpu, n: nat, status: Result<(), StatusCode>): Cpu {
    var sp := c.msp + 4 * n;
    var m := match status
      case Ok(_) => c.mem[sp := StatusWord(Success)]
      case Err(e) => WrWords(c.mem, sp, QuadWords(Quad(StatusWord(e), 0, 0, 0)));
    c.(msp := sp + 32, mem := m, regs := WithResults(c.regs, Quad(Rd(m, sp), Rd(m, sp + 4), Rd(m, sp + 8), Rd(m, sp + 12))))
  }

  function RunVectorCall(c: Cpu, spill: seq<int>, q: Quad): Cpu {
    var h := ExceptionEntry(c);
    var m := WrWords(h.mem, h.msp - 4 * |spill|, spill);
    ExceptionReturn(h.(mem := WrWords(m, FramePtr(h), QuadWords(q))))
  }

  function RunAct(c: Cpu, a: Act): Cpu
    decreases a
  {
    match a
    case Store(address, value) => c.(mem := c.mem[address := value])
    case MoveStack(psp) => c.(psp := psp)
    case Compute(regs) => c.(regs := regs)
    case VectorCall(spill, q) => RunVectorCall(c, spill, q)
    case PsaCall(spill, answer, _) =>
      var thunk := ExceptionReturn(PsaCallEntry(ExceptionEntry(c)));
      var inner := RunAnswer(InThunk(thunk, spill), answer);
      ExceptionReturn(PsaCallReturn(ExceptionEntry(OutOfThunk(inner, |spill|, StatusOf(inner, answer)))))
  }

  function RunActs(c: Cpu, acts: seq<Act>): Cpu
    decreases acts
  {
    if acts == [] then c else RunActs(RunAct(c, acts[0]), acts[1..])
  }

  function RunAnswer(c: Cpu, answer: Answer): Cpu
    decreases answer
  {
    match answer
    case Refusal(_) => c
    case Service(None, call) => RunActivation(c, call)
    case Service(Some(init), call) => RunActivation(RunActivation(c, init), call)
  }

  /** A call enters at one place, initialisation at another. */
  function EntryOf(a: Activation): Word {
    if a.message.Some? then a.svc.callEntry else a.svc.initEntry
  }

  /** The thread state in which the process begins, given where its frame goes. */
  function Started(c: Cpu, a: Activation, frame: int, arg: int): Cpu {
    var prepared := c.(psplim := a.svc.stackLimit, psp := frame,
                       mem := WrFrame(c.mem, frame, StartFrame(EntryOf(a), arg)));
    ExceptionReturn(StartProcess(ExceptionEntry(prepared)))
  }

  function Ended(c: Cpu, exit: int): Cpu {
    ExceptionReturn(ProcessExit(ExceptionEntry(c.(regs := c.regs.(r0 := exit)))))
  }

  /** Memory with the message staged, the frame's place and the argument; none if there is no room. */
  datatype Launch = Launch(cpu: Cpu, frame: int, arg: int)

  function LaunchOf(c: Cpu, a: Activation): Option<Launch> {
    match a.message
    case Some(words) =>
      (match StageMailbox(a.svc)
       case Err(_) => None
       case Ok(mailbox) =>
         match UnprivFrame(a.svc.stackLimit, mailbox)
         case None => None
         case Some(frame) => Some(Launch(c.(mem := WrWords(c.mem, mailbox, words)), frame, mailbox)))
    case None =>
      match UnprivFrame(a.svc.stackLimit, a.svc.stackTop)
      case None => None
      case Some(frame) => Some(Launch(c, frame, 0))
  }

  function RunActivation(c: Cpu, a: Activation): Cpu
    decreases a
  {
    match LaunchOf(c, a)
    case None => c
    case Some(l) => Ended(RunActs(Started(l.cpu, a, l.frame, l.arg), a.body), a.exit)
  }

  // ----- Memory layout and well-behaved runs -----------------------------------------------

  /** The services of the system and the main stack of the SPM. */
  datatype Layout = Layout(services: set<ServiceVectors>, mainLo: int, mainHi: int)

  predicate InRam(v: ServiceVectors, a: int) {
    v.ramStart <= a < v.ramLimit
  }

  predicate InMain(lay: Layout, a: int) {
    lay.mainLo <= a < lay.mainHi
  }

  /** Stacks lie inside RAM and start 8-byte aligned; RAMs are disjoint from each other and from the
      main stack. */
  ghost predicate LayoutOk(lay: Layout) {
    && (forall v :: v in lay.services ==>
          v.ramStart <= v.stackLimit && v.stackTop <= v.ramLimit && v.stackTop % 8 == 0)
    && (forall u, v, a :: u in lay.services && v in lay.services && u != v && InRam(u, a) ==> !InRam(v, a))
    && (forall v, a :: v in lay.services && InRam(v, a) ==> !InMain(lay, a))
  }

  predicate Between(lo: int, b: int, hi: int) {
    lo <= b < hi
  }

  function Span(lo: int, hi: int): set<int> {
    set b | lo <= b < hi && Between(lo, b, hi)
  }

  /** Protected words lie in the RAM of active services or on the live part of the main stack. */
  ghost predicate Guarded(lay: Layout, floor: int, active: set<ServiceVectors>, prot: set<int>) {
    && active <= lay.services && lay.mainLo <= floor
    && forall b :: b in prot ==> InSomeRam(active, b) || floor <= b < lay.mainHi
  }

  ghost predicate InSomeRam(vs: set<ServiceVectors>, a: int) {
    exists v :: v in vs && InRam(v, a)
  }

  /** Protected words read the same in both memories. */
  ghost predicate Kept(prot: set<int>, m: Mem, n: Mem) {
    forall b :: b in prot ==> Rd(n, b) == Rd(m, b)
  }

  /** A service in thread mode on its own stack. */
  predicate Running(lay: Layout, c: Cpu, p: ServiceVectors) {
    && c.spsel && c.npriv && c.psplim == p.stackLimit
    && p.stackLimit <= c.psp <= p.stackTop && c.psp % 8 == 0
    && lay.mainLo <= c.msp <= lay.mainHi
  }

  /** SPM code in privileged thread mode on the main stack. */
  predicate Privileged(lay: Layout, c: Cpu) {
    !c.spsel && !c.npriv && lay.mainLo <= c.msp <= lay.mainHi
  }

  /** Room for an exception frame on the process stack: no stack-limit fault. */
  predicate FrameFits(c: Cpu, p: ServiceVectors) {
    p.stackLimit <= c.psp - 32
  }

  /** Where the hardware puts the caller's frame, and the main stack pointer after that. */
  function CallerFrame(c: Cpu): int {
    if c.spsel then c.psp - 32 else c.msp - 32
  }

  function Base(c: Cpu): int {
    if c.spsel then c.msp else c.msp - 32
  }

  /** What waits on the stacks while a service works for caller c, the SPM having n words spilled: the
      upper half of the caller's frame (r12, lr, pc, xpsr), and on the main stack the four saved words,
      the thunk's frame, the spilled words and the SPM's own frame but for its r0. */
  function Waiting(c: Cpu, n: nat): set<int> {
    Span(CallerFrame(c) + 16, CallerFrame(c) + 32) + Span(Base(c) - 76 - 4 * n, Base(c))
  }

  /** No word that may be written is among the protected ones. */
  ghost predicate OpenClear(open: set<int>, prot: set<int>) {
    forall b :: b in open && b % 4 == 0 ==> b !in prot
  }

  /** A running service stores words in its RAM or where memory is open to it, keeps its stack pointer
      aligned and inside its stack, and calls with room for the frames and with nothing open to the
      service called that waits for this call or an outer one. */
  ghost predicate FitsAct(lay: Layout, c: Cpu, p: ServiceVectors, a: Act, active: set<ServiceVectors>,
                          prot: set<int>, open: set<int>)
    decreases a, 1
  {
    match a
    case Store(address, _) => address % 4 == 0 && (InRam(p, address) || address in open)
    case MoveStack(psp) => p.stackLimit <= psp <= p.stackTop && psp % 8 == 0
    case Compute(_) => true
    case VectorCall(spill, _) => FrameFits(c, p) && lay.mainLo <= c.msp - 4 * |spill|
    case PsaCall(spill, _, calleeOpen) =>
      && FrameFits(c, p)
      && OpenClear(calleeOpen, prot + Waiting(c, |spill|))
      && FitsCall(lay, c, a, active, prot + Waiting(c, |spill|))
  }

  /** A call from thread state c, nothing being asked of what it opens: the main stack has room and the
      activations fit. */
  ghost predicate FitsCall(lay: Layout, c: Cpu, a: Act, active: set<ServiceVectors>, prot: set<int>)
    requires a.PsaCall?
    decreases a, 0
  {
    && lay.mainLo <= Base(c) - 48 - 4 * |a.spill|
    && var thunk := ExceptionReturn(PsaCallEntry(ExceptionEntry(c)));
       FitsAnswer(lay, InThunk(thunk, a.spill), a.answer, active, prot, a.open)
  }

  ghost predicate FitsActs(lay: Layout, c: Cpu, p: ServiceVectors, acts: seq<Act>, active: set<ServiceVectors>,
                           prot: set<int>, open: set<int>)
    decreases acts, 2
  {
    acts == [] ||
    (FitsAct(lay, c, p, acts[0], active, prot, open)
     && FitsActs(lay, RunAct(c, acts[0]), p, acts[1..], active, prot, open))
  }

  ghost predicate FitsAnswer(lay: Layout, c: Cpu, answer: Answer, active: set<ServiceVectors>, prot: set<int>, open: set<int>)
    decreases answer, 2
  {
    match answer
    case Refusal(_) => true
    case Service(init, call) =>
      && call.message.Some?
      && (init.Some? ==> init.value.message.None? && FitsActivation(lay, c, init.value, active, prot, open))
      && FitsActivation(lay, if init.Some? then RunActivation(c, init.value) else c, call, active, prot, open)
  }

  /** The service is not active yet, its message has the right size, and its body fits. */
  ghost predicate FitsActivation(lay: Layout, c: Cpu, a: Activation, active: set<ServiceVectors>,
                                 prot: set<int>, open: set<int>)
    decreases a, 1
  {
    && a.svc in lay.services && a.svc !in active
    && lay.mainLo <= c.msp - 32
    && (a.message.Some? ==> 4 * |a.message.value| == MSG_SIZE)
    && (LaunchOf(c, a).Some? ==>
          var l := LaunchOf(c, a).value;
          var start := Started(l.cpu, a, l.frame, l.arg);
          && FitsActs(lay, start, a.svc, a.body, active + {a.svc}, prot, open)
          && FrameFits(RunActs(start, a.body), a.svc))
  }

  // ----- Memory lemmas ---------------------------------------------------------------------

  lemma FrameReadsBack(m: Mem, a: int, f: Regs)
    ensures RdFrame(WrFrame(m, a, f), a) == f
    ensures forall b :: !(a <= b < a + 32) ==> Rd(WrFrame(m, a, f), b) == Rd(m, b)
  {
  }

  lemma {:induction false} WordsStayInside(m: Mem, a: int, ws: seq<int>, b: int)
    requires b < a || a + 4 * |ws| <= b
    ensures Rd(WrWords(m, a, ws), b) == Rd(m, b)
    decreases |ws|
  {
    if ws != [] {
      WordsStayInside(m[a := ws[0]], a + 4, ws[1..], b);
    }
  }

  /** Four consecutive words read back, and nothing else changes. */
  lemma QuadReadsBack(m: Mem, a: int, q: Quad)
    ensures var n := WrWords(m, a, QuadWords(q));
            && Rd(n, a) == q.r0 && Rd(n, a + 4) == q.r1 && Rd(n, a + 8) == q.r2 && Rd(n, a + 12) == q.r3
            && forall b :: b != a && b != a + 4 && b != a + 8 && b != a + 12 ==> Rd(n, b) == Rd(m, b)
  {
    SavedWords(m, a, q.r0, q.r1, q.r2, q.r3);
  }

  lemma KeptFrame(prot: set<int>, m: Mem, a: int, f: Regs)
    requires forall b :: a <= b < a + 32 ==> b !in prot
    ensures Kept(prot, m, WrFrame(m, a, f))
  {
    hide WrFrame;
    FrameReadsBack(m, a, f);
  }

  lemma KeptWords(prot: set<int>, m: Mem, a: int, ws: seq<int>)
    requires forall b :: a <= b < a + 4 * |ws| ==> b !in prot
    ensures Kept(prot, m, WrWords(m, a, ws))
  {
    forall b | b in prot ensures Rd(WrWords(m, a, ws), b) == Rd(m, b) {
      WordsStayInside(m, a, ws, b);
    }
  }

  /** RAM of a service outside the guard, and the main stack below the floor, hold nothing protected. */
  lemma ForeignRamIsClear(lay: Layout, floor: int, guard: set<ServiceVectors>, prot: set<int>, v: ServiceVectors)
    requires LayoutOk(lay) && Guarded(lay, floor, guard, prot) && v in lay.services && v !in guard
    ensures forall b :: InRam(v, b) ==> b !in prot && !InMain(lay, b)
  {
    forall b | InRam(v, b) ensures b !in prot && !InMain(lay, b) {
      assert !InMain(lay, b);
    }
  }

  lemma MainBelowIsClear(lay: Layout, floor: int, guard: set<ServiceVectors>, prot: set<int>)
    requires LayoutOk(lay) && Guarded(lay, floor, guard, prot) && floor <= lay.mainHi
    ensures forall b :: lay.mainLo <= b < floor ==> b !in prot
  {
    forall b | lay.mainLo <= b < floor ensures b !in prot {
      assert InMain(lay, b);
    }
  }

  /** A frame kept word by word reads the same. */
  lemma FrameIsKept(m: Mem, n: Mem, a: int)
    requires forall b :: a <= b < a + 32 ==> Rd(n, b) == Rd(m, b)
    ensures RdFrame(n, a) == RdFrame(m, a)
  {
  }

  // ----- A call gives its caller's context back --------------------------------------------

  function ExcReturnOf(c: Cpu): int {
    if c.spsel then EXC_RETURN_PSP else EXC_RETURN_MSP
  }

  /** The upper half of the caller's frame and the four saved words from `Base - 16` on are in memory. */
  ghost predicate Saved(c: Cpu, m: Mem) {
    && Rd(m, Base(c) - 16) == CallerFrame(c)
    && Rd(m, Base(c) - 12) == ControlWord(c.npriv)
    && Rd(m, Base(c) - 8) == c.psplim
    && Rd(m, Base(c) - 4) == ExcReturnOf(c)
    && WithResults(RdFrame(m, CallerFrame(c)), ArgsOf(c.regs)) == c.regs
  }

  /** Frame and saved words do not overlap: another stack, or right above. */
  predicate FrameApart(c: Cpu) {
    c.spsel ==> c.psp <= c.msp - 48 || c.msp <= c.psp - 32
  }

  function ThunkOf(c: Cpu): Cpu {
    ExceptionReturn(PsaCallEntry(ExceptionEntry(c)))
  }

  /** SVC_PSA_CALL: the thunk runs privileged on the main stack with the caller's r0-r3, and
      everything needed to come back has been saved. */
  lemma CallEntrySaves(c: Cpu)
    requires FrameApart(c)
    ensures var t := ThunkOf(c);
            && !t.npriv && !t.spsel && t.msp == Base(c) - 16 && t.psplim == c.psplim
            && t.regs == Regs(c.regs.r0, c.regs.r1, c.regs.r2, c.regs.r3, 0, 0, PSA_CALL_THUNK, THUMB_BIT_XPSR)
            && Saved(c, t.mem)
            && (forall b :: !(CallerFrame(c) <= b < CallerFrame(c) + 32) && !(Base(c) - 48 <= b < Base(c)) ==>
                  Rd(t.mem, b) == Rd(c.mem, b))
  {
    hide WrWords, Rd;
    var h := ExceptionEntry(c);
    var f, base := CallerFrame(c), Base(c);
    FrameReadsBack(c.mem, f, c.regs);
    var q := Quad(f, ControlWord(h.npriv), h.psplim, h.excReturn);
    QuadReadsBack(h.mem, base - 16, q);
    var saved := WrWords(h.mem, base - 16, QuadWords(q));
    var args := RdFrame(h.mem, f);
    var fake := Regs(args.r0, args.r1, args.r2, args.r3, 0, 0, PSA_CALL_THUNK, THUMB_BIT_XPSR);
    FrameReadsBack(saved, base - 48, fake);
    var m := WrFrame(saved, base - 48, fake);
    assert ThunkOf(c).mem == m;
    FrameIsKept(h.mem, m, f);
  }

  /** The answer in the thunk's frame is in r0-r3, and the thunk has dropped its frame. */
  lemma ThunkLoadsResults(c: Cpu, n: nat, status: Result<(), StatusCode>, args: Quad)
    requires Rd(c.mem, c.msp + 4 * n) == args.r0 && Rd(c.mem, c.msp + 4 * n + 4) == args.r1
    requires Rd(c.mem, c.msp + 4 * n + 8) == args.r2 && Rd(c.mem, c.msp + 4 * n + 12) == args.r3
    ensures var o := OutOfThunk(c, n, status);
            && o == c.(msp := c.msp + 4 * n + 32, mem := o.mem, regs := WithResults(c.regs, Results(args, status)))
            && forall b :: !(c.msp + 4 * n <= b < c.msp + 4 * n + 16) ==> Rd(o.mem, b) == Rd(c.mem, b)
  {
    hide WrWords;
    match status
    case Ok(_) =>
    case Err(e) =>
      hide Rd;
      QuadReadsBack(c.mem, c.msp + 4 * n, Quad(StatusWord(e), 0, 0, 0));
  }

  /** SVC_PSA_CALL_RETURN from the thunk: stack pointers, PSPLIM, CONTROL and EXC_RETURN are the
      caller's again, and of its frame only r0-r3 have changed. */
  lemma CallReturnRestores(c: Cpu, o: Cpu)
    requires FrameApart(c) && Saved(c, o.mem) && o.msp == Base(c) - 16 && !o.spsel
    ensures var r := ExceptionReturn(PsaCallReturn(ExceptionEntry(o)));
            && r == c.(psp := if c.spsel then c.psp else o.psp, mem := r.mem,
                       regs := WithResults(c.regs, ArgsOf(o.regs)))
            && forall b :: !(CallerFrame(c) <= b < CallerFrame(c) + 32) && !(Base(c) - 48 <= b < Base(c) - 16) ==>
                 Rd(r.mem, b) == Rd(o.mem, b)
  {
    hide WrWords, Rd;
    var f, base := CallerFrame(c), Base(c);
    var h := ExceptionEntry(o);
    FrameReadsBack(o.mem, base - 48, o.regs);
    assert Saved(c, h.mem) by { FrameIsKept(o.mem, h.mem, f); }
    var q := Quad(o.regs.r0, o.regs.r1, o.regs.r2, o.regs.r3);
    QuadReadsBack(h.mem, f, q);
    var m := WrWords(h.mem, f, QuadWords(q));
    assert PsaCallReturn(h).mem == m;
    assert RdFrame(m, f) == WithResults(c.regs, q);
  }

  // ----- Starting and leaving a process ----------------------------------------------------

  /** SVC_START_PROCESS: the service runs unprivileged on its own stack, bounded by its limit; the
      caller's registers wait in the orphaned frame right below the main stack pointer. */
  lemma StartOrphansFrame(lay: Layout, c: Cpu, a: Activation, frame: int, arg: int,
                          active: set<ServiceVectors>, prot: set<int>)
    requires LayoutOk(lay) && Privileged(lay, c) && Guarded(lay, c.msp, active, prot)
    requires a.svc in lay.services && a.svc !in active && lay.mainLo <= c.msp - 32
    requires a.svc.stackLimit <= frame && frame + 32 <= a.svc.stackTop
    ensures var s := Started(c, a, frame, arg);
            && s == Cpu(StartFrame(EntryOf(a), arg), c.msp - 32, frame + 32, a.svc.stackLimit, true, true, s.mem)
            && RdFrame(s.mem, c.msp - 32) == c.regs
            && Kept(prot, c.mem, s.mem)
  {
    hide WrFrame, Rd;
    ForeignRamIsClear(lay, c.msp, active, prot, a.svc);
    MainBelowIsClear(lay, c.msp, active, prot);
    var start := StartFrame(EntryOf(a), arg);
    var m := WrFrame(c.mem, frame, start);
    var n := WrFrame(m, c.msp - 32, c.regs);
    assert Started(c, a, frame, arg).mem == n;
    FrameReadsBack(c.mem, frame, start);
    FrameReadsBack(m, c.msp - 32, c.regs);
    forall b | frame <= b < frame + 32 ensures Rd(n, b) == Rd(m, b) && b !in prot {
      assert InRam(a.svc, b) && !InMain(lay, b);
    }
    KeptFrame(prot, c.mem, frame, start);
    KeptFrame(prot, m, c.msp - 32, c.regs);
    FrameIsKept(m, n, frame);
  }

  /** SVC_PROCESS_EXIT: the frame at the main stack pointer is the orphaned one, of which r0 does not
      matter; the caller resumes with its registers, and the exit word in r0. */
  lemma ExitFindsOrphan(lay: Layout, d: Cpu, svc: ServiceVectors, exit: int, caller: Regs,
                        active: set<ServiceVectors>, prot: set<int>)
    requires LayoutOk(lay) && Running(lay, d, svc) && FrameFits(d, svc) && Guarded(lay, d.msp + 32, active, prot)
    requires svc in lay.services && svc !in active && d.msp + 32 <= lay.mainHi
    requires RdFrame(d.mem, d.msp).(r0 := exit) == caller.(r0 := exit)
    ensures var e := Ended(d, exit);
            && e == Cpu(caller.(r0 := exit), d.msp + 32, d.psp - 32, d.psplim, false, false, e.mem)
            && Kept(prot, d.mem, e.mem)
  {
    hide WrFrame;
    ForeignRamIsClear(lay, d.msp + 32, active, prot, svc);
    MainBelowIsClear(lay, d.msp + 32, active, prot);
    var left := d.regs.(r0 := exit);
    var m := WrFrame(d.mem, d.psp - 32, left);
    FrameReadsBack(d.mem, d.psp - 32, left);
    forall b | d.psp - 32 <= b < d.psp ensures b !in prot && !InMain(lay, b) {
      assert InRam(svc, b);
    }
    KeptFrame(prot, d.mem, d.psp - 32, left);
    forall b | d.msp <= b < d.msp + 32 ensures Rd(m, b) == Rd(d.mem, b) {
      assert InMain(lay, b);
    }
    FrameIsKept(d.mem, m, d.msp);
    var n := m[d.msp := exit];
    assert Ended(d, exit).mem == n by { assert Rd(m, d.psp - 32) == RdFrame(m, d.psp - 32).r0; }
    assert Kept(prot, m, n);
  }

  lemma LaunchStaysInRam(lay: Layout, c: Cpu, a: Activation)
    requires LayoutOk(lay) && a.svc in lay.services && LaunchOf(c, a).Some?
    requires a.message.Some? ==> 4 * |a.message.value| == MSG_SIZE
    ensures var l := LaunchOf(c, a).value;
            && l.cpu == c.(mem := l.cpu.mem)
            && (forall b :: !InRam(a.svc, b) ==> Rd(l.cpu.mem, b) == Rd(c.mem, b))
            && a.svc.stackLimit <= l.frame && l.frame + 32 <= a.svc.stackTop && l.frame % 8 == 0
  {
    if a.message.Some? {
      StagingLeavesRoom(a.svc);
      var mailbox := StageMailbox(a.svc).value;
      forall b | !InRam(a.svc, b) ensures Rd(LaunchOf(c, a).value.cpu.mem, b) == Rd(c.mem, b) {
        WordsStayInside(c.mem, mailbox, a.message.value, b);
      }
    }
  }

  /** The words of the SPM's own frame that have to survive: all but its r0. */
  function Orphaned(msp: int): set<int> {
    Span(msp - 28, msp)
  }

  lemma OrphanIsGuarded(lay: Layout, c: Cpu, active: set<ServiceVectors>, prot: set<int>)
    requires Privileged(lay, c) && Guarded(lay, c.msp, active, prot) && lay.mainLo <= c.msp - 32
    ensures Guarded(lay, c.msp - 32, active, prot + Orphaned(c.msp))
  {
    forall b | b in prot + Orphaned(c.msp) ensures InSomeRam(active, b) || c.msp - 32 <= b < lay.mainHi {
      if b in prot {
      } else {
        assert Between(c.msp - 28, b, c.msp);
      }
    }
  }

  /** A frame of which all but the first word is kept. */
  lemma OrphanIsKept(m: Mem, n: Mem, msp: int, prot: set<int>, exit: int)
    requires Kept(prot + Orphaned(msp), m, n)
    ensures RdFrame(n, msp - 32).(r0 := exit) == RdFrame(m, msp - 32).(r0 := exit)
  {
    hide Rd;
    forall b | msp - 28 <= b < msp ensures Rd(n, b) == Rd(m, b) {
      assert Between(msp - 28, b, msp) && b in Orphaned(msp);
    }
  }

  /** Starting a process, letting it run and taking its exit gives privileged code back its
      registers and main stack, with the exit word in r0. */
  lemma {:induction false} ActivationReturns(lay: Layout, c: Cpu, a: Activation, active: set<ServiceVectors>,
                                             prot: set<int>, open: set<int>)
    requires LayoutOk(lay) && Privileged(lay, c) && Guarded(lay, c.msp, active, prot)
    requires OpenClear(open, prot + Orphaned(c.msp))
    requires FitsActivation(lay, c, a, active, prot + Orphaned(c.msp), open)
    ensures var e := RunActivation(c, a);
            && Privileged(lay, e) && e.msp == c.msp
            && Kept(prot, c.mem, e.mem)
            && e.regs == if LaunchOf(c, a).Some? then c.regs.(r0 := a.exit) else c.regs
    decreases a, 1
  {
    hide WrFrame, WrWords, LaunchOf, Started, Ended, FitsActs, Rd, Guarded, OpenClear, Orphaned, LayoutOk, InRam, InMain;
    if LaunchOf(c, a).Some? {
      LaunchStaysInRam(lay, c, a);
      ForeignRamIsClear(lay, c.msp, active, prot, a.svc);
      var l := LaunchOf(c, a).value;
      StartOrphansFrame(lay, l.cpu, a, l.frame, l.arg, active, prot);
      var start := Started(l.cpu, a, l.frame, l.arg);
      assert active + {a.svc} - {a.svc} == active;
      var more := prot + Orphaned(c.msp);
      OrphanIsGuarded(lay, c, active, prot);
      ActsKeep(lay, start, a.svc, a.body, active + {a.svc}, more, open);
      var done := RunActs(start, a.body);
      OrphanIsKept(start.mem, done.mem, c.msp, prot, a.exit);
      ExitFindsOrphan(lay, done, a.svc, a.exit, c.regs, active, prot);
      forall b | b in prot ensures Rd(Ended(done, a.exit).mem, b) == Rd(c.mem, b) {
        assert b in more && !InRam(a.svc, b);
      }
    }
  }

  /** Initialisation and call in turn: the SPM has its registers, but for r0, and its stack back, and
      reads the status that the service exited with. */
  lemma {:induction false} AnswerReturns(lay: Layout, c: Cpu, answer: Answer, active: set<ServiceVectors>,
                                         prot: set<int>, open: set<int>)
    requires LayoutOk(lay) && Privileged(lay, c) && Guarded(lay, c.msp, active, prot)
    requires OpenClear(open, prot + Orphaned(c.msp))
    requires FitsAnswer(lay, c, answer, active, prot + Orphaned(c.msp), open)
    ensures var e := RunAnswer(c, answer);
            && Privileged(lay, e) && e.msp == c.msp && Kept(prot, c.mem, e.mem)
            && e.regs == c.regs.(r0 := e.regs.r0)
            && StatusOf(e, answer) == AnswerStatus(answer)
    decreases answer, 2
  {
    hide RunActivation, FitsActivation, LaunchOf, StageMailbox, CheckSvcResult;
    match answer
    case Refusal(_) =>
    case Service(init, call) =>
      var ready := if init.Some? then RunActivation(c, init.value) else c;
      if init.Some? {
        ActivationReturns(lay, c, init.value, active, prot, open);
      }
      ActivationReturns(lay, ready, call, active, prot, open);
      StagedIsLaunched(ready, call);
  }

  /** The status of an answer: the refusal, or what the service's exit word says. */
  function AnswerStatus(answer: Answer): Result<(), StatusCode> {
    match answer
    case Refusal(e) => Err(e)
    case Service(_, call) => ServiceStatus(call.svc, call.exit)
  }

  lemma StagedIsLaunched(c: Cpu, call: Activation)
    requires call.message.Some?
    ensures StageMailbox(call.svc).Ok? <==> LaunchOf(c, call).Some?
  {
    if StageMailbox(call.svc).Ok? {
      StagingLeavesRoom(call.svc);
    }
  }

  // ----- Calls -----------------------------------------------------------------------------

  /** The caller has everything back: its main stack pointer, process stack pointer, PSPLIM, CONTROL,
      stack selection and registers, of which r0-r3 are new: the status the called service exited with,
      or why the call was refused, and its own arguments or zeros. In between the SPM has found its
      registers, but for r0, and its part of the main stack as it left them. A caller on the main stack
      gets everything but the process stack pointer, which it does not use. */
  ghost predicate Restores(c: Cpu, a: Act)
    requires a.PsaCall?
  {
    var inside := InThunk(ThunkOf(c), a.spill);
    var inner, r := RunAnswer(inside, a.answer), RunAct(c, a);
    && r == c.(psp := if c.spsel then c.psp else r.psp, mem := r.mem,
               regs := WithResults(c.regs, Results(ArgsOf(c.regs), AnswerStatus(a.answer))))
    && inner.msp == inside.msp && inner.regs == inside.regs.(r0 := inner.regs.r0)
    && forall b :: inside.msp <= b < Base(c) ==> Rd(inner.mem, b) == Rd(inside.mem, b)
  }

  /** A caller: privileged code on the main stack, or an active service with room for its frame. */
  ghost predicate Caller(lay: Layout, c: Cpu, active: set<ServiceVectors>) {
    && active <= lay.services && lay.mainLo <= c.msp <= lay.mainHi
    && (c.spsel ==> forall b :: c.psp - 32 <= b < c.psp ==> InSomeRam(active, b))
  }

  /** Every SVC_PSA_CALL, whatever tree of activations it leads to, restores its caller if no word that
      waits is open to the called service, and leaves whatever else is protected as it was. */
  lemma {:induction false} PsaCallRestores(lay: Layout, c: Cpu, a: Act, active: set<ServiceVectors>, prot: set<int>)
    requires LayoutOk(lay) && Caller(lay, c, active) && Guarded(lay, c.msp, active, prot)
    requires forall b :: CallerFrame(c) <= b < CallerFrame(c) + 32 ==> b !in prot
    requires a.PsaCall? && OpenClear(a.open, prot + Waiting(c, |a.spill|))
    requires FitsCall(lay, c, a, active, prot + Waiting(c, |a.spill|))
    ensures Restores(c, a) && Kept(prot, c.mem, RunAct(c, a).mem)
    decreases a, 0
  {
    hide WrFrame, WrWords, Rd, FitsAnswer, RunAnswer, PsaCallEntry, PsaCallReturn, Waiting, Guarded;
    hide ExceptionEntry, ExceptionReturn, InThunk, OutOfThunk, StatusOf, AnswerStatus, Results;
    var base, f, n := Base(c), CallerFrame(c), |a.spill|;
    CallerFrameApart(lay, c, active, 4 * n);
    CallEntrySaves(c);
    var thunk := ThunkOf(c);
    ThunkStaysBelow(thunk, a.spill);
    var inside := InThunk(thunk, a.spill);
    assert inside.msp == base - 48 - 4 * n;
    var kept := prot + Span(f + 16, f + 32) + Span(inside.msp, base);
    WaitingSplits(c, n, prot);
    WaitingIsGuarded(lay, c, active, prot, n);
    AnswerReturns(lay, inside, a.answer, active, kept, a.open);
    var inner := RunAnswer(inside, a.answer);
    var status := AnswerStatus(a.answer);
    ThunkHoldsArgs(thunk, a.spill);
    KeptSpans(c, inside.mem, inner.mem, prot, inside.msp);
    ThunkLoadsResults(inner, n, status, ArgsOf(c.regs));
    var out := OutOfThunk(inner, n, status);
    SavedSurvives(lay, c, active, n, thunk.mem, inside.mem, inner.mem, out.mem);
    CallReturnRestores(c, out);
    var r := ExceptionReturn(PsaCallReturn(ExceptionEntry(out)));
    ProtectedIsElsewhere(lay, c, active, prot, n);
    forall b | b in prot ensures Rd(r.mem, b) == Rd(c.mem, b) {
      assert b in kept;
      assert Rd(inner.mem, b) == Rd(inside.mem, b);
    }
  }

  lemma WaitingSplits(c: Cpu, n: nat, prot: set<int>)
    ensures var f, base := CallerFrame(c), Base(c);
            prot + Span(f + 16, f + 32) + Span(base - 48 - 4 * n, base) + Orphaned(base - 48 - 4 * n) == prot + Waiting(c, n)
  {
    var f, base := CallerFrame(c), Base(c);
    var lo, mid := base - 76 - 4 * n, base - 48 - 4 * n;
    forall b ensures b in Span(mid, base) + Orphaned(mid) <==> b in Span(lo, base) {
      assert Between(mid, b, base) || Between(lo, b, mid) <==> Between(lo, b, base);
    }
    assert Span(mid, base) + Orphaned(mid) == Span(lo, base);
  }

  lemma WaitingIsGuarded(lay: Layout, c: Cpu, active: set<ServiceVectors>, prot: set<int>, n: nat)
    requires Caller(lay, c, active) && Guarded(lay, c.msp, active, prot) && lay.mainLo <= Base(c) - 48 - 4 * n
    ensures var f, base := CallerFrame(c), Base(c);
            Guarded(lay, base - 48 - 4 * n, active, prot + Span(f + 16, f + 32) + Span(base - 48 - 4 * n, base))
  {
    var f, base := CallerFrame(c), Base(c);
    forall b | b in prot + Span(f + 16, f + 32) + Span(base - 48 - 4 * n, base)
      ensures InSomeRam(active, b) || base - 48 - 4 * n <= b < lay.mainHi
    {
      if b !in prot {
        assert Between(f + 16, b, f + 32) || Between(base - 48 - 4 * n, b, base);
      }
    }
  }

  lemma KeptSpans(c: Cpu, m: Mem, n: Mem, prot: set<int>, lo: int)
    requires Kept(prot + Span(CallerFrame(c) + 16, CallerFrame(c) + 32) + Span(lo, Base(c)), m, n)
    ensures forall b :: CallerFrame(c) + 16 <= b < CallerFrame(c) + 32 || lo <= b < Base(c) ==> Rd(n, b) == Rd(m, b)
  {
    hide Rd;
    forall b | CallerFrame(c) + 16 <= b < CallerFrame(c) + 32 || lo <= b < Base(c) ensures Rd(n, b) == Rd(m, b) {
      assert Between(CallerFrame(c) + 16, b, CallerFrame(c) + 32) || Between(lo, b, Base(c));
    }
  }

  /** What is protected lies neither in the caller's frame nor where the handler and the SPM work. */
  lemma ProtectedIsElsewhere(lay: Layout, c: Cpu, active: set<ServiceVectors>, prot: set<int>, n: nat)
    requires LayoutOk(lay) && Caller(lay, c, active) && Guarded(lay, c.msp, active, prot)
    requires lay.mainLo <= Base(c) - 48 - 4 * n
    ensures forall b :: b in prot ==> !(Base(c) - 48 - 4 * n <= b < Base(c))
  {
    MainBelowIsClear(lay, c.msp, active, prot);
  }

  /** A service's frame is in RAM, so it is apart from what the handler pushes on the main stack. */
  lemma CallerFrameApart(lay: Layout, c: Cpu, active: set<ServiceVectors>, n: nat)
    requires LayoutOk(lay) && Caller(lay, c, active) && lay.mainLo <= Base(c) - 48 - n
    ensures FrameApart(c)
    ensures c.spsel ==> forall b :: c.psp - 32 <= b < c.psp ==> !InMain(lay, b)
  {
    forall b | c.spsel && c.psp - 32 <= b < c.psp ensures !InMain(lay, b) {
      assert InSomeRam(active, b);
    }
    var top := if c.psp - 32 < c.msp - 48 then c.msp - 48 else c.psp - 32;
    assert c.spsel && c.psp - 32 <= top < c.psp ==> !InMain(lay, top);
  }

  /** The thunk's frame holds the caller's arguments above what the compiled code spills. */
  lemma ThunkHoldsArgs(c: Cpu, spill: seq<int>)
    ensures var m, sp := InThunk(c, spill).mem, c.msp - 32;
            Rd(m, sp) == c.regs.r0 && Rd(m, sp + 4) == c.regs.r1 && Rd(m, sp + 8) == c.regs.r2 && Rd(m, sp + 12) == c.regs.r3
  {
    hide WrFrame, WrWords;
    var sp := c.msp - 32;
    var frame := Regs(c.regs.r0, c.regs.r1, c.regs.r2, c.regs.r3, 0, 0, 0, 0);
    var m := WrFrame(c.mem, sp, frame);
    FrameReadsBack(c.mem, sp, frame);
    assert RdFrame(m, sp) == frame;
    hide Rd;
    WordsStayInside(m, sp - 4 * |spill|, spill, sp);
    WordsStayInside(m, sp - 4 * |spill|, spill, sp + 4);
    WordsStayInside(m, sp - 4 * |spill|, spill, sp + 8);
    WordsStayInside(m, sp - 4 * |spill|, spill, sp + 12);
  }

  lemma ThunkStaysBelow(c: Cpu, spill: seq<int>)
    ensures var t := InThunk(c, spill);
            && t == c.(msp := c.msp - 32 - 4 * |spill|, mem := t.mem)
            && forall b :: !(c.msp - 32 - 4 * |spill| <= b < c.msp) ==> Rd(t.mem, b) == Rd(c.mem, b)
  {
    hide WrFrame, WrWords, Rd;
    var sp := c.msp - 32;
    var frame := Regs(c.regs.r0, c.regs.r1, c.regs.r2, c.regs.r3, 0, 0, 0, 0);
    FrameReadsBack(c.mem, sp, frame);
    forall b | !(sp - 4 * |spill| <= b < c.msp) ensures Rd(InThunk(c, spill).mem, b) == Rd(c.mem, b) {
      WordsStayInside(WrFrame(c.mem, sp, frame), sp - 4 * |spill|, spill, b);
    }
  }

  lemma SavedIsKept(c: Cpu, m: Mem, n: Mem)
    requires Saved(c, m)
    requires forall b :: Base(c) - 16 <= b < Base(c) || CallerFrame(c) + 16 <= b < CallerFrame(c) + 32 ==> Rd(n, b) == Rd(m, b)
    ensures Saved(c, n)
  {
    hide Rd;
  }

  /** From the entry through the thunk, the SPM's work and the answer. */
  lemma SavedSurvives(lay: Layout, c: Cpu, active: set<ServiceVectors>, n: nat, entry: Mem, inside: Mem, inner: Mem, out: Mem)
    requires LayoutOk(lay) && Caller(lay, c, active) && lay.mainLo <= Base(c) - 48 - 4 * n && Saved(c, entry)
    requires forall b :: !(Base(c) - 48 - 4 * n <= b < Base(c) - 16) ==> Rd(inside, b) == Rd(entry, b)
    requires forall b :: CallerFrame(c) + 16 <= b < CallerFrame(c) + 32 || Base(c) - 48 - 4 * n <= b < Base(c) ==>
                           Rd(inner, b) == Rd(inside, b)
    requires forall b :: !(Base(c) - 48 <= b < Base(c) - 32) ==> Rd(out, b) == Rd(inner, b)
    ensures Saved(c, out)
  {
    hide Rd;
    CallerFrameApart(lay, c, active, 4 * n);
    forall b | Base(c) - 16 <= b < Base(c) || CallerFrame(c) + 16 <= b < CallerFrame(c) + 32
      ensures Rd(out, b) == Rd(entry, b)
    {
      assert c.spsel && c.psp - 32 <= b < c.psp ==> !InMain(lay, b);
    }
    SavedIsKept(c, entry, out);
  }

  // ----- What a running service keeps ------------------------------------------------------

  lemma OwnFrameIsClear(lay: Layout, c: Cpu, p: ServiceVectors, guard: set<ServiceVectors>, prot: set<int>)
    requires LayoutOk(lay) && Running(lay, c, p) && FrameFits(c, p) && p in lay.services
    requires Guarded(lay, c.msp, guard, prot) && p !in guard
    ensures forall b :: c.psp - 32 <= b < c.psp ==> InRam(p, b) && b !in prot && !InMain(lay, b)
  {
    ForeignRamIsClear(lay, c.msp, guard, prot, p);
    forall b | c.psp - 32 <= b < c.psp ensures InRam(p, b) && b !in prot && !InMain(lay, b) {
      assert InRam(p, b);
    }
  }

  lemma VectorCallKeeps(lay: Layout, c: Cpu, p: ServiceVectors, spill: seq<int>, q: Quad,
                        guard: set<ServiceVectors>, prot: set<int>)
    requires LayoutOk(lay) && Running(lay, c, p) && FrameFits(c, p) && p in lay.services
    requires Guarded(lay, c.msp, guard, prot) && p !in guard && lay.mainLo <= c.msp - 4 * |spill|
    ensures var r := RunVectorCall(c, spill, q);
            && r == c.(mem := r.mem, regs := WithResults(c.regs, q))
            && Kept(prot, c.mem, r.mem)
  {
    hide WrFrame, WrWords, Rd;
    OwnFrameIsClear(lay, c, p, guard, prot);
    MainBelowIsClear(lay, c.msp, guard, prot);
    var f := c.psp - 32;
    var m := WrFrame(c.mem, f, c.regs);
    FrameReadsBack(c.mem, f, c.regs);
    KeptFrame(prot, c.mem, f, c.regs);
    var n := WrWords(m, c.msp - 4 * |spill|, spill);
    KeptWords(prot, m, c.msp - 4 * |spill|, spill);
    forall b | f <= b < f + 32 ensures Rd(n, b) == Rd(m, b) {
      assert !InMain(lay, b);
      WordsStayInside(m, c.msp - 4 * |spill|, spill, b);
    }
    FrameIsKept(m, n, f);
    var o := WrWords(n, f, QuadWords(q));
    QuadReadsBack(n, f, q);
    KeptWords(prot, n, f, QuadWords(q));
    assert RdFrame(o, f) == WithResults(c.regs, q);
    assert RunVectorCall(c, spill, q).mem == o;
  }

  /** No step of a service moves the main stack pointer, touches a protected word, or leaves its stack
      and privilege changed. */
  lemma {:induction false} ActKeeps(lay: Layout, c: Cpu, p: ServiceVectors, a: Act, active: set<ServiceVectors>,
                                    prot: set<int>, open: set<int>)
    requires LayoutOk(lay) && Running(lay, c, p) && p in active && active <= lay.services
    requires Guarded(lay, c.msp, active - {p}, prot) && OpenClear(open, prot)
    requires FitsAct(lay, c, p, a, active, prot, open)
    ensures var r := RunAct(c, a);
            Running(lay, r, p) && r.msp == c.msp && Kept(prot, c.mem, r.mem)
    decreases a, 1
  {
    hide FitsCall, RunVectorCall, Rd, Waiting;
    match a
    case Store(address, _) =>
      ForeignRamIsClear(lay, c.msp, active - {p}, prot, p);
      assert address !in prot;
      StoreKeeps(prot, c.mem, address, a.value);
    case MoveStack(_) =>
    case Compute(_) =>
    case VectorCall(spill, q) => VectorCallKeeps(lay, c, p, spill, q, active - {p}, prot);
    case PsaCall(_, _, _) =>
      OwnFrameIsClear(lay, c, p, active - {p}, prot);
      assert forall b :: InSomeRam(active - {p}, b) ==> InSomeRam(active, b);
      assert Caller(lay, c, active) by {
        assert forall b :: InRam(p, b) ==> InSomeRam(active, b);
      }
      PsaCallRestores(lay, c, a, active, prot);
      hide RunAnswer, InThunk, ThunkOf, RunAct, Results;
  }

  lemma StoreKeeps(prot: set<int>, m: Mem, address: int, value: int)
    requires address !in prot
    ensures Kept(prot, m, m[address := value])
  {
  }

  lemma {:induction false} ActsKeep(lay: Layout, c: Cpu, p: ServiceVectors, acts: seq<Act>, active: set<ServiceVectors>,
                                    prot: set<int>, open: set<int>)
    requires LayoutOk(lay) && Running(lay, c, p) && p in active && active <= lay.services
    requires Guarded(lay, c.msp, active - {p}, prot) && OpenClear(open, prot)
    requires FitsActs(lay, c, p, acts, active, prot, open)
    ensures var r := RunActs(c, acts);
            Running(lay, r, p) && r.msp == c.msp && Kept(prot, c.mem, r.mem)
    decreases acts, 2
  {
    hide RunAct, FitsAct, Guarded;
    if acts != [] {
      ActKeeps(lay, c, p, acts[0], active, prot, open);
      ActsKeep(lay, RunAct(c, acts[0]), p, acts[1..], active, prot, open);
    }
  }

  /** What a service does is done in order, each act from where the one before ended. */
  lemma {:induction false} ActsInOrder(c: Cpu, first: seq<Act>, next: seq<Act>)
    ensures RunActs(c, first + next) == RunActs(RunActs(c, first), next)
    decreases |first|
  {
    hide RunAct;
    if first == [] {
      assert first + next == next;
    } else {
      assert (first + next)[1..] == first[1..] + next;
      ActsInOrder(RunAct(c, first[0]), first[1..], next);
    }
  }

  // ----- When a call restores its caller whatever the service does -------------------------

  /** The service can be called: it is not active, its message fits, the main stack has room, and the
      stack pointers are aligned. */
  predicate Callable(lay: Layout, c: Cpu, svc: ServiceVectors, n: nat, active: set<ServiceVectors>) {
    && svc in lay.services && svc !in active && StageMailbox(svc).Ok?
    && lay.mainLo <= Base(c) - 80 - 4 * n
    && c.msp % 8 == 0 && c.psp % 8 == 0
  }

  /** A call of this service with these words open to it; initialisation, message, everything the service
      does, nested calls included, and its exit word are its own affair. */
  ghost predicate Permitted(lay: Layout, c: Cpu, a: Act, spill: seq<int>, svc: ServiceVectors, open: set<int>,
                            active: set<ServiceVectors>) {
    && a.PsaCall? && a.spill == spill && a.open == open
    && a.answer.Service? && a.answer.call.svc == svc
    && (a.answer.init.Some? ==> a.answer.init.value.svc == svc)
    && FitsCall(lay, c, a, active, Waiting(c, |spill|))
  }

  function CallOf(spill: seq<int>, svc: ServiceVectors, open: set<int>, body: seq<Act>): Act {
    PsaCall(spill, Service(None, Activation(svc, Some(seq(11, i => 0)), body, 0)), open)
  }

  /** A call whose service stores one word that is open to it and exits is permitted. */
  lemma StoreIsPermitted(lay: Layout, c: Cpu, spill: seq<int>, svc: ServiceVectors, open: set<int>, w: int, v: int,
                         active: set<ServiceVectors>)
    requires LayoutOk(lay) && Callable(lay, c, svc, |spill|, active) && w in open && w % 4 == 0
    ensures Permitted(lay, c, CallOf(spill, svc, open, [Store(w, v)]), spill, svc, open, active)
  {
    hide WrFrame, WrWords, Rd, StageMailbox, Waiting, LaunchOf;
    var a := CallOf(spill, svc, open, [Store(w, v)]);
    var inside, call, prot := InThunk(ThunkOf(c), spill), a.answer.call, Waiting(c, |spill|);
    StagedIsLaunched(inside, call);
    LaunchStaysInRam(lay, inside, call);
    var l := LaunchOf(inside, call).value;
    var start := Started(l.cpu, call, l.frame, l.arg);
    OneStore(start, w, v);
    assert FitsActs(lay, start, svc, call.body, active + {svc}, prot, open) by {
      assert call.body[1..] == [];
      assert FitsAct(lay, start, svc, call.body[0], active + {svc}, prot, open);
    }
    assert FitsActivation(lay, inside, call, active, prot, open);
    assert FitsAnswer(lay, inside, a.answer, active, prot, open);
    assert FitsCall(lay, c, a, active, prot);
  }

  lemma OneStore(c: Cpu, w: int, v: int)
    ensures RunActs(c, [Store(w, v)]) == c.(mem := c.mem[w := v])
  {
    assert [Store(w, v)][1..] == [];
    assert RunActs(c, [Store(w, v)]) == RunActs(RunAct(c, Store(w, v)), []);
  }

  lemma StoreReads(m: Mem, w: int, v: int, b: int)
    ensures Rd(m[w := v], b) == if b == w then v else Rd(m, b)
  {
  }

  /** Two memories that agree at a word agree there after the same frame has been written. */
  lemma FrameReadsAt(m: Mem, n: Mem, a: int, f: Regs, b: int)
    ensures Rd(m, b) == Rd(n, b) ==> Rd(WrFrame(m, a, f), b) == Rd(WrFrame(n, a, f), b)
  {
  }

  /** Stack and main stack are apart, so eight words of each do not overlap. */
  lemma StackIsApart(lay: Layout, svc: ServiceVectors, a: int, b: int)
    requires LayoutOk(lay) && svc in lay.services && svc.stackLimit <= a && a + 32 <= svc.stackTop
    requires lay.mainLo <= b && b + 32 <= lay.mainHi
    ensures a + 32 <= b || b + 32 <= a
  {
    var top := if a < b then b else a;
    assert InRam(svc, top) ==> !InMain(lay, top);
  }

  /** The thread state in which a process begins, and every word outside its own first frame. */
  lemma StartedIs(c: Cpu, a: Activation, frame: int, arg: int)
    requires !c.spsel && (frame + 32 <= c.msp - 32 || c.msp <= frame)
    ensures var s := Started(c, a, frame, arg);
            && s == Cpu(StartFrame(EntryOf(a), arg), c.msp - 32, frame + 32, a.svc.stackLimit, true, true, s.mem)
            && (forall b :: !(frame <= b < frame + 32) ==> Rd(s.mem, b) == Rd(WrFrame(c.mem, c.msp - 32, c.regs), b))
  {
    var start, top := StartFrame(EntryOf(a), arg), c.msp - 32;
    var m := WrFrame(c.mem, frame, start);
    var was, now := WrFrame(c.mem, top, c.regs), WrFrame(m, top, c.regs);
    FrameReadsBack(c.mem, frame, start);
    FrameReadsBack(m, top, c.regs);
    hide WrFrame, Rd;
    FrameIsKept(m, now, frame);
    forall b | !(frame <= b < frame + 32) ensures Rd(now, b) == Rd(was, b) {
      FrameReadsAt(m, c.mem, top, c.regs, b);
    }
  }

  /** What privileged code finds when a process exits: the frame at the main stack pointer, whatever it
      holds by then. */
  lemma EndedIs(d: Cpu, exit: int)
    requires d.spsel && (d.psp <= d.msp || d.msp + 32 <= d.psp - 32)
    ensures var e := Ended(d, exit);
            && e == Cpu(RdFrame(d.mem, d.msp).(r0 := exit), d.msp + 32, d.psp - 32, d.psplim, false, false, e.mem)
            && (forall b :: !(d.psp - 32 <= b < d.psp) && b != d.msp ==> Rd(e.mem, b) == Rd(d.mem, b))
  {
    hide WrFrame;
    var left := d.regs.(r0 := exit);
    var m := WrFrame(d.mem, d.psp - 32, left);
    FrameReadsBack(d.mem, d.psp - 32, left);
    assert Rd(m, d.psp - 32) == exit by { assert RdFrame(m, d.psp - 32).r0 == exit; }
    hide Rd;
    FrameIsKept(d.mem, m, d.msp);
    FirstWordReads(m, d.msp, exit);
    assert Ended(d, exit).mem == m[d.msp := exit];
  }

  lemma FirstWordReads(m: Mem, a: int, v: int)
    ensures RdFrame(m[a := v], a) == RdFrame(m, a).(r0 := v)
    ensures forall b :: b != a ==> Rd(m[a := v], b) == Rd(m, b)
  {
  }

  /** Memory when the service starts, as far as the SPM is concerned: its frame is below its stack
      pointer. */
  function AtStart(c: Cpu): Mem {
    WrFrame(c.mem, c.msp - 32, c.regs)
  }

  /** A service that stores one word outside its RAM: that word is new in memory, or in the registers the
      SPM gets back if it lies in the SPM's waiting frame. */
  lemma ServiceStores(lay: Layout, c: Cpu, call: Activation, w: int, v: int)
    requires LayoutOk(lay) && Privileged(lay, c) && lay.mainLo <= c.msp - 32
    requires call.svc in lay.services && call.body == [Store(w, v)] && StageMailbox(call.svc).Ok?
    requires call.message.Some? && 4 * |call.message.value| == MSG_SIZE
    requires !InRam(call.svc, w) && w != c.msp - 32
    ensures var e := RunActivation(c, call);
            && e.msp == c.msp && !e.spsel
            && e.regs == RdFrame(AtStart(c)[w := v], c.msp - 32).(r0 := call.exit)
            && forall b :: !InRam(call.svc, b) && b != c.msp - 32 ==> Rd(e.mem, b) == Rd(AtStart(c)[w := v], b)
  {
    hide WrFrame, WrWords, Rd, LaunchOf, StageMailbox, Started, Ended, RunActs, AtStart;
    StagedIsLaunched(c, call);
    LaunchStaysInRam(lay, c, call);
    var l, top := LaunchOf(c, call).value, c.msp - 32;
    StackIsApart(lay, call.svc, l.frame, top);
    var start := Started(l.cpu, call, l.frame, l.arg);
    StartedIs(l.cpu, call, l.frame, l.arg);
    OneStore(start, w, v);
    var done, was := start.(mem := start.mem[w := v]), AtStart(c)[w := v];
    EndedIs(done, call.exit);
    forall b | !InRam(call.svc, b) ensures Rd(done.mem, b) == Rd(was, b) {
      StoreReads(start.mem, w, v, b);
      StoreReads(AtStart(c), w, v, b);
      AtStartReads(l.cpu, c, b);
    }
    forall b | top <= b < top + 32 ensures Rd(done.mem, b) == Rd(was, b) {
      assert InRam(call.svc, b) ==> !InMain(lay, b);
    }
    FrameIsKept(was, done.mem, top);
  }

  lemma AtStartReads(c: Cpu, d: Cpu, b: int)
    requires c.regs == d.regs && c.msp == d.msp && Rd(c.mem, b) == Rd(d.mem, b)
    ensures Rd(WrFrame(c.mem, c.msp - 32, c.regs), b) == Rd(AtStart(d), b)
  {
    FrameReadsAt(c.mem, d.mem, c.msp - 32, c.regs, b);
  }

  /** A word of a frame, other than the first, that is overwritten with something else. */
  lemma FrameChanges(m: Mem, a: int, w: int, v: int, r0: int)
    requires a + 4 <= w < a + 32 && (w - a) % 4 == 0 && v != Rd(m, w)
    ensures RdFrame(m[w := v], a).(r0 := r0) != RdFrame(m, a).(r0 := r0)
  {
    assert w == a + 4 || w == a + 8 || w == a + 12 || w == a + 16 || w == a + 20 || w == a + 24 || w == a + 28;
  }

  /** In the upper half of the caller's frame, what is returned in the lower half does not make up
      for it. */
  lemma UpperHalfChanges(c: Cpu, m: Mem, w: int, v: int, q: Quad)
    requires Saved(c, m) && v != Rd(m, w)
    requires CallerFrame(c) + 16 <= w < CallerFrame(c) + 32 && (w - CallerFrame(c)) % 4 == 0
    ensures WithResults(RdFrame(m[w := v], CallerFrame(c)), q) != WithResults(c.regs, q)
  {
    var f := CallerFrame(c);
    assert WithResults(RdFrame(m, f), q) == WithResults(c.regs, q);
    assert w == f + 16 || w == f + 20 || w == f + 24 || w == f + 28;
  }

  /** The word that waits at an address when the service starts. */
  function WaitingWord(c: Cpu, spill: seq<int>, w: int): int {
    Rd(AtStart(InThunk(ThunkOf(c), spill)), w)
  }

  lemma WaitingOutsideRam(lay: Layout, c: Cpu, svc: ServiceVectors, n: nat, active: set<ServiceVectors>)
    requires LayoutOk(lay) && Caller(lay, c, active) && svc in lay.services && svc !in active
    requires lay.mainLo <= Base(c) - 80 - 4 * n
    ensures forall w :: w in Waiting(c, n) ==> !InRam(svc, w)
  {
    forall w | w in Waiting(c, n) ensures !InRam(svc, w) {
      if Between(Base(c) - 76 - 4 * n, w, Base(c)) {
        assert InMain(lay, w);
      } else {
        assert Between(CallerFrame(c) + 16, w, CallerFrame(c) + 32);
        assert if c.spsel then InSomeRam(active, w) else InMain(lay, w);
      }
    }
  }

  /** A waiting word is in one of three places: on the SPM's part of the main stack, in the SPM's own
      frame, or in the upper half of the caller's frame. */
  lemma WaitingPlaces(c: Cpu, n: nat, w: int)
    ensures w in Waiting(c, n) <==>
            || Base(c) - 48 - 4 * n <= w < Base(c)
            || Base(c) - 76 - 4 * n <= w < Base(c) - 48 - 4 * n
            || CallerFrame(c) + 16 <= w < CallerFrame(c) + 32
  {
    assert Between(Base(c) - 76 - 4 * n, w, Base(c)) <==> Base(c) - 76 - 4 * n <= w < Base(c);
    assert Between(CallerFrame(c) + 16, w, CallerFrame(c) + 32) <==> CallerFrame(c) + 16 <= w < CallerFrame(c) + 32;
  }

  /** The SPM's state when it starts the service. */
  lemma InsideIs(lay: Layout, c: Cpu, spill: seq<int>, active: set<ServiceVectors>)
    requires LayoutOk(lay) && Caller(lay, c, active) && lay.mainLo <= Base(c) - 80 - 4 * |spill|
    ensures var inside := InThunk(ThunkOf(c), spill);
            && Privileged(lay, inside) && inside.msp == Base(c) - 48 - 4 * |spill|
            && RdFrame(AtStart(inside), inside.msp - 32) == inside.regs
            && (forall b :: !(inside.msp - 32 <= b < inside.msp) ==> Rd(AtStart(inside), b) == Rd(inside.mem, b))
  {
    hide Rd, WrFrame;
    CallerFrameApart(lay, c, active, 4 * |spill|);
    CallEntrySaves(c);
    ThunkStaysBelow(ThunkOf(c), spill);
    hide InThunk, ThunkOf;
    var inside := InThunk(ThunkOf(c), spill);
    FrameReadsBack(inside.mem, inside.msp - 32, inside.regs);
  }

  /** The SPM's state after a service has stored one waiting word. */
  lemma StoreLeaves(lay: Layout, c: Cpu, spill: seq<int>, svc: ServiceVectors, open: set<int>, w: int, v: int,
                    active: set<ServiceVectors>)
    requires LayoutOk(lay) && Caller(lay, c, active) && Callable(lay, c, svc, |spill|, active)
    requires w in Waiting(c, |spill|)
    ensures var inside := InThunk(ThunkOf(c), spill);
            var inner := RunAnswer(inside, CallOf(spill, svc, open, [Store(w, v)]).answer);
            && inner.msp == inside.msp && !inner.spsel
            && inner.regs == RdFrame(AtStart(inside)[w := v], inside.msp - 32).(r0 := 0)
            && (forall b :: b in Waiting(c, |spill|) ==> Rd(inner.mem, b) == Rd(AtStart(inside)[w := v], b))
  {
    hide Rd, StageMailbox, InThunk, ThunkOf, RunActivation, Waiting, AtStart, RdFrame, Caller, LayoutOk, InRam;
    var inside, call := InThunk(ThunkOf(c), spill), CallOf(spill, svc, open, [Store(w, v)]).answer.call;
    InsideIs(lay, c, spill, active);
    WaitingOutsideRam(lay, c, svc, |spill|, active);
    OrphanWordIsFree(lay, c, active, |spill|);
    ServiceStores(lay, inside, call, w, v);
  }

  /** The r0 of the SPM's own frame does not wait for anything. */
  lemma OrphanWordIsFree(lay: Layout, c: Cpu, active: set<ServiceVectors>, n: nat)
    requires LayoutOk(lay) && Caller(lay, c, active) && lay.mainLo <= Base(c) - 80 - 4 * n
    ensures Base(c) - 80 - 4 * n !in Waiting(c, n)
  {
    var w := Base(c) - 80 - 4 * n;
    WaitingPlaces(c, n, w);
    if CallerFrame(c) + 16 <= w < CallerFrame(c) + 32 {
      FrameIsHigher(lay, c, active, 80 + 4 * n, w);
    }
  }

  /** The caller's frame is not where the handler and the SPM work. */
  lemma FrameIsHigher(lay: Layout, c: Cpu, active: set<ServiceVectors>, n: nat, b: int)
    requires LayoutOk(lay) && Caller(lay, c, active) && lay.mainLo <= Base(c) - n
    requires CallerFrame(c) <= b < CallerFrame(c) + 32
    ensures !(Base(c) - n <= b < Base(c))
  {
    if c.spsel {
      assert InSomeRam(active, b);
      assert !InMain(lay, b);
    }
  }

  /** A service that overwrites any one waiting word breaks the call. */
  lemma WaitingStoreBreaks(lay: Layout, c: Cpu, spill: seq<int>, svc: ServiceVectors, open: set<int>, w: int, v: int,
                           active: set<ServiceVectors>)
    requires LayoutOk(lay) && Caller(lay, c, active) && Callable(lay, c, svc, |spill|, active)
    requires w in Waiting(c, |spill|) && w % 4 == 0 && v != WaitingWord(c, spill, w)
    ensures !Restores(c, CallOf(spill, svc, open, [Store(w, v)]))
  {
    hide WrFrame, WrWords, Rd, StageMailbox, Waiting, RunAnswer, RunAct, InThunk, ThunkOf, AtStart, Callable;
    var inside := InThunk(ThunkOf(c), spill);
    var inner := RunAnswer(inside, CallOf(spill, svc, open, [Store(w, v)]).answer);
    WordAligned(lay, c, svc, |spill|, active, w);
    WaitingPlaces(c, |spill|, w);
    InsideIs(lay, c, spill, active);
    StoreLeaves(lay, c, spill, svc, open, w, v, active);
    StoreReads(AtStart(inside), w, v, w);
    if inside.msp <= w < Base(c) {
      assert Rd(inner.mem, w) == v && Rd(inside.mem, w) == WaitingWord(c, spill, w);
    } else if inside.msp - 28 <= w < inside.msp {
      FrameChanges(AtStart(inside), inside.msp - 32, w, v, 0);
    } else {
      FrameStoreBreaks(lay, c, spill, svc, open, w, v, active);
    }
  }

  lemma WordAligned(lay: Layout, c: Cpu, svc: ServiceVectors, n: nat, active: set<ServiceVectors>, w: int)
    requires Callable(lay, c, svc, n, active) && w % 4 == 0
    ensures (w - (Base(c) - 80 - 4 * n)) % 4 == 0 && (w - CallerFrame(c)) % 4 == 0
    ensures lay.mainLo <= Base(c) - 80 - 4 * n
  {
    hide StageMailbox;
    WholeWords(w, c.msp, 20 + n);
    WholeWords(w, c.msp, 28 + n);
    WholeWords(w, c.msp, 8);
    WholeWords(w, c.psp, 8);
  }

  lemma WholeWords(w: int, sp: int, n: int)
    requires w % 4 == 0 && sp % 8 == 0
    ensures (w - (sp - 4 * n)) % 4 == 0
  {
    assert w == 4 * (w / 4) && sp == 8 * (sp / 8);
    assert w - (sp - 4 * n) == 4 * (w / 4 - 2 * (sp / 8) + n);
  }

  /** The return from the thunk when one word of the upper half of the caller's frame is new. */
  lemma ReturnIsBroken(c: Cpu, thunk: Mem, out: Cpu, w: int, v: int, q: Quad)
    requires FrameApart(c) && Saved(c, thunk) && out.msp == Base(c) - 16 && !out.spsel && ArgsOf(out.regs) == q
    requires CallerFrame(c) + 16 <= w < CallerFrame(c) + 32 && (w - CallerFrame(c)) % 4 == 0
    requires !(Base(c) - 16 <= w < Base(c)) && v != Rd(thunk, w)
    requires forall b :: Base(c) - 16 <= b < Base(c) || CallerFrame(c) + 16 <= b < CallerFrame(c) + 32 ==>
                           Rd(out.mem, b) == if b == w then v else Rd(thunk, b)
    ensures ExceptionReturn(PsaCallReturn(ExceptionEntry(out))).regs != WithResults(c.regs, q)
  {
    hide Rd, ExceptionEntry, ExceptionReturn, PsaCallReturn, RdFrame, Saved;
    SavedWithWord(c, thunk, out.mem, w, v);
    CallReturnRestores(c.(regs := WithResults(RdFrame(thunk[w := v], CallerFrame(c)), ArgsOf(c.regs))), out);
    UpperHalfChanges(c, thunk, w, v, q);
  }

  /** In the caller's own frame: the caller comes back with the wrong r12, lr, pc or xpsr. */
  lemma FrameStoreBreaks(lay: Layout, c: Cpu, spill: seq<int>, svc: ServiceVectors, open: set<int>, w: int, v: int,
                         active: set<ServiceVectors>)
    requires LayoutOk(lay) && Caller(lay, c, active) && Callable(lay, c, svc, |spill|, active)
    requires CallerFrame(c) + 16 <= w < CallerFrame(c) + 32 && w % 4 == 0 && v != WaitingWord(c, spill, w)
    ensures RunAct(c, CallOf(spill, svc, open, [Store(w, v)])).regs
            != WithResults(c.regs, Results(ArgsOf(c.regs), AnswerStatus(CallOf(spill, svc, open, [Store(w, v)]).answer)))
  {
    hide WrFrame, WrWords, Rd, ExceptionEntry, ExceptionReturn, PsaCallEntry, PsaCallReturn;
    hide InThunk, OutOfThunk, RunAnswer, Results, AnswerStatus, StatusOf, WaitingWord, Waiting, Caller, LayoutOk, RdFrame, Saved;
    hide Callable, StageMailbox;
    var n, a := |spill|, CallOf(spill, svc, open, [Store(w, v)]);
    WordAligned(lay, c, svc, n, active, w);
    FrameIsHigher(lay, c, active, 80 + 4 * n, w);
    CallerFrameApart(lay, c, active, 4 * n);
    CallEntrySaves(c);
    var thunk := ThunkOf(c);
    var inner := RunAnswer(InThunk(thunk, spill), a.answer);
    var status := StatusOf(inner, a.answer);
    var out := OutOfThunk(inner, n, status);
    ServiceLeavesThunk(lay, c, spill, svc, open, w, v, active, status);
    StatusIsExit(inner, a.answer);
    ReturnIsBroken(c, thunk.mem, out, w, v, Results(ArgsOf(c.regs), AnswerStatus(a.answer)));
  }

  lemma StatusIsExit(c: Cpu, answer: Answer)
    requires answer.Service? && c.regs.r0 == answer.call.exit
    ensures StatusOf(c, answer) == AnswerStatus(answer)
  {
    hide StageMailbox, CheckSvcResult;
    assert Wrap(answer.call.exit) == answer.call.exit;
  }

  /** Behind the thunk everything is as when the call was made, but for the one word. */
  lemma ServiceLeavesThunk(lay: Layout, c: Cpu, spill: seq<int>, svc: ServiceVectors, open: set<int>, w: int, v: int,
                           active: set<ServiceVectors>, status: Result<(), StatusCode>)
    requires LayoutOk(lay) && Caller(lay, c, active) && Callable(lay, c, svc, |spill|, active)
    requires CallerFrame(c) + 16 <= w < CallerFrame(c) + 32
    ensures var thunk := ThunkOf(c);
            var inner := RunAnswer(InThunk(thunk, spill), CallOf(spill, svc, open, [Store(w, v)]).answer);
            var out := OutOfThunk(inner, |spill|, status);
            && WaitingWord(c, spill, w) == Rd(thunk.mem, w)
            && inner.regs.r0 == 0
            && out.msp == Base(c) - 16 && !out.spsel && ArgsOf(out.regs) == Results(ArgsOf(c.regs), status)
            && (forall b :: Base(c) - 16 <= b < Base(c) || CallerFrame(c) + 16 <= b < CallerFrame(c) + 32 ==>
                  Rd(out.mem, b) == if b == w then v else Rd(thunk.mem, b))
  {
    hide WrFrame, WrWords, Rd, ThunkOf, InThunk, OutOfThunk, RunAnswer, Results, AtStart, Waiting, Caller, LayoutOk, RdFrame;
    var n, thunk := |spill|, ThunkOf(c);
    WaitingPlaces(c, n, w);
    StoreLeaves(lay, c, spill, svc, open, w, v, active);
    InsideIs(lay, c, spill, active);
    ThunkStaysBelow(thunk, spill);
    ThunkHoldsArgs(thunk, spill);
    var inside := InThunk(thunk, spill);
    var inner := RunAnswer(inside, CallOf(spill, svc, open, [Store(w, v)]).answer);
    forall b | CallerFrame(c) + 16 <= b < CallerFrame(c) + 32 || Base(c) - 48 - 4 * n <= b < Base(c)
      ensures Rd(inner.mem, b) == if b == w then v else Rd(inside.mem, b)
    {
      WaitingPlaces(c, n, b);
      StoreReads(AtStart(inside), w, v, b);
      if CallerFrame(c) + 16 <= b < CallerFrame(c) + 32 {
        FrameIsHigher(lay, c, active, 80 + 4 * n, b);
      }
    }
    FrameIsHigher(lay, c, active, 80 + 4 * n, w);
    assert ArgsOf(thunk.regs) == ArgsOf(c.regs) by {
      CallerFrameApart(lay, c, active, 4 * n);
      CallEntrySaves(c);
    }
    ThunkLoadsResults(inner, n, status, ArgsOf(thunk.regs));
    forall b | CallerFrame(c) + 16 <= b < CallerFrame(c) + 32
      ensures Rd(OutOfThunk(inner, n, status).mem, b) == if b == w then v else Rd(thunk.mem, b)
    {
      FrameIsHigher(lay, c, active, 80 + 4 * n, b);
    }
  }

  lemma SavedWithWord(c: Cpu, m: Mem, n: Mem, w: int, v: int)
    requires Saved(c, m) && CallerFrame(c) + 16 <= w < CallerFrame(c) + 32 && !(Base(c) - 16 <= w < Base(c))
    requires forall b :: Base(c) - 16 <= b < Base(c) || CallerFrame(c) + 16 <= b < CallerFrame(c) + 32 ==>
                           Rd(n, b) == if b == w then v else Rd(m, b)
    ensures Saved(c.(regs := WithResults(RdFrame(m[w := v], CallerFrame(c)), ArgsOf(c.regs))), n)
  {
    var f, o := CallerFrame(c), m[w := v];
    forall b | f + 16 <= b < f + 32 ensures Rd(n, b) == Rd(o, b) {
      StoreReads(m, w, v, b);
    }
    hide Rd;
    assert WithResults(RdFrame(n, f), ArgsOf(c.regs)) == WithResults(RdFrame(o, f), ArgsOf(c.regs));
  }

  /** Every permitted behaviour of a service that can be called restores its caller if and only if no word
      that waits is open to the service. The lower half of the caller's frame, and the main stack above
      the call, may be open. */
  lemma CallRestoresExactly(lay: Layout, c: Cpu, spill: seq<int>, svc: ServiceVectors, open: set<int>,
                            active: set<ServiceVectors>)
    requires LayoutOk(lay) && Caller(lay, c, active) && Callable(lay, c, svc, |spill|, active)
    ensures (forall a :: Permitted(lay, c, a, spill, svc, open, active) ==> Restores(c, a))
            <==> OpenClear(open, Waiting(c, |spill|))
  {
    hide Restores, FitsCall, Waiting, Callable;
    if OpenClear(open, Waiting(c, |spill|)) {
      forall a | Permitted(lay, c, a, spill, svc, open, active) ensures Restores(c, a) {
        assert {} + Waiting(c, |spill|) == Waiting(c, |spill|);
        assert Guarded(lay, c.msp, active, {});
        PsaCallRestores(lay, c, a, active, {});
      }
    } else {
      var w :| w in open && w % 4 == 0 && w in Waiting(c, |spill|);
      var v := WaitingWord(c, spill, w) + 1;
      var a := CallOf(spill, svc, open, [Store(w, v)]);
      StoreIsPermitted(lay, c, spill, svc, open, w, v, active);
      WaitingStoreBreaks(lay, c, spill, svc, open, w, v, active);
      assert Permitted(lay, c, a, spill, svc, open, active) && !Restores(c, a);
    }
  }
}
