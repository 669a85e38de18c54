/** Registers, stacks and memory under the hand-written supervisor-call handler (api.rs, svc_call.rs,
    process.rs): starting a process, leaving it, and calling a service from inside one. Addresses and
    words are integers; memory is a map from word addresses. The hardware stacks eight words on the
    active stack on exception entry and records which stack that was in bit 2 of EXC_RETURN. */
module SvcMachines {
  import opened Basics
  import opened Processes

  type Mem = map<int, int>

  function Rd(m: Mem, a: int): int {
    if a in m then m[a] else 0
  }

  /** The eight words of an exception frame. */
  datatype Regs = Regs(r0: int, r1: int, r2: int, r3: int, r12: int, lr: int, pc: int, xpsr: int)

  function WrFrame(m: Mem, a: int, f: Regs): Mem {
    m[a := f.r0][a + 4 := f.r1][a + 8 := f.r2][a + 12 := f.r3]
    [a + 16 := f.r12][a + 20 := f.lr][a + 24 := f.pc][a + 28 := f.xpsr]
  }

  function RdFrame(m: Mem, a: int): Regs {
    Regs(Rd(m, a), Rd(m, a + 4), Rd(m, a + 8), Rd(m, a + 12),
         Rd(m, a + 16), Rd(m, a + 20), Rd(m, a + 24), Rd(m, a + 28))
  }

  /** Write consecutive words from address a upwards. */
  function WrWords(m: Mem, a: int, ws: seq<int>): Mem
    decreases |ws|
  {
    if ws == [] then m else WrWords(m[a := ws[0]], a + 4, ws[1..])
  }

  /** Thread mode: stack pointers, PSPLIM, the two CONTROL bits, the stacked registers, memory. */
  datatype Cpu = Cpu(regs: Regs, msp: int, psp: int, psplim: int, npriv: bool, spsel: bool, mem: Mem)

  /** Handler mode: the thread's registers are on its stack, LR holds EXC_RETURN. */
  datatype Handler = Handler(msp: int, psp: int, psplim: int, npriv: bool, excReturn: int, mem: Mem)

  const EXC_RETURN_MSP: int := 0xFFFF_FFF9
  const EXC_RETURN_PSP: int := 0xFFFF_FFFD
  const DUMMY_LR: int := 0xFFFF_FFFF
  const THUMB_BIT_XPSR: int := 0x0100_0000
  const PSA_CALL_THUNK: int := 0x1000_0001

  predicate OnPsp(excReturn: int) {
    excReturn / 4 % 2 == 1
  }

  function SetPspBit(excReturn: int): int {
    if OnPsp(excReturn) then excReturn else excReturn + 4
  }

  function ClearPspBit(excReturn: int): int {
    if OnPsp(excReturn) then excReturn - 4 else excReturn
  }

  lemma PspBits(excReturn: int)
    ensures OnPsp(SetPspBit(excReturn)) && !OnPsp(ClearPspBit(excReturn))
  {
  }

  // ----- Hardware --------------------------------------------------------------------------

  function ExceptionEntry(c: Cpu): Handler {
    if c.spsel then
      Handler(c.msp, c.psp - 32, c.psplim, c.npriv, EXC_RETURN_PSP, WrFrame(c.mem, c.psp - 32, c.regs))
    else
      Handler(c.msp - 32, c.psp, c.psplim, c.npriv, EXC_RETURN_MSP, WrFrame(c.mem, c.msp - 32, c.regs))
  }

  function ExceptionReturn(h: Handler): Cpu {
    if OnPsp(h.excReturn) then
      Cpu(RdFrame(h.mem, h.psp), h.msp, h.psp + 32, h.psplim, h.npriv, true, h.mem)
    else
      Cpu(RdFrame(h.mem, h.msp), h.msp + 32, h.psp, h.psplim, h.npriv, false, h.mem)
  }

  function FramePtr(h: Handler): int {
    if OnPsp(h.excReturn) then h.psp else h.msp
  }

  // ----- The handler branches --------------------------------------------------------------

  function StartProcess(h: Handler): Handler {
    h.(npriv := true, excReturn := SetPspBit(h.excReturn))
  }

  function ProcessExit(h: Handler): Handler {
    h.(mem := h.mem[h.msp := Rd(h.mem, FramePtr(h))], npriv := false, excReturn := ClearPspBit(h.excReturn))
  }

  function ControlWord(npriv: bool): int {
    if npriv then 1 else 0
  }

  /** Save frame pointer, CONTROL, PSPLIM and EXC_RETURN on the main stack, and below them a frame
      that makes the exception return into the thunk with the caller's r0-r3. */
  function PsaCallEntry(h: Handler): Handler {
    var f := FramePtr(h);
    var saved := WrWords(h.mem, h.msp - 16, [f, ControlWord(h.npriv), h.psplim, h.excReturn]);
    var args := RdFrame(h.mem, f);
    Handler(h.msp - 48, h.psp, h.psplim, false, EXC_RETURN_MSP,
            WrFrame(saved, h.msp - 48, Regs(args.r0, args.r1, args.r2, args.r3, 0, 0, PSA_CALL_THUNK, THUMB_BIT_XPSR)))
  }

  function PsaCallReturn(h: Handler): Handler {
    var f := Rd(h.mem, h.msp + 32);
    var exc := Rd(h.mem, h.msp + 44);
    Handler(h.msp + 48, if OnPsp(exc) then f else h.psp, Rd(h.mem, h.msp + 40),
            Rd(h.mem, h.msp + 36) % 2 == 1, exc,
            WrWords(h.mem, f, [Rd(h.mem, h.msp), Rd(h.mem, h.msp + 4), Rd(h.mem, h.msp + 8), Rd(h.mem, h.msp + 12)]))
  }

  /** The frame that starts a process: argument, entry point, and a return address that faults. */
  function StartFrame(entry: int, arg: int): Regs {
    Regs(arg, 0, 0, 0, 0, DUMMY_LR, entry, THUMB_BIT_XPSR)
  }

  /** The machine as an object: the handler branches as the instruction sequences they are. */
  class Core {
    var msp: int
    var psp: int
    var psplim: int
    var npriv: bool
    var excReturn: int
    var mem: Mem

    ghost function View(): Handler
      reads this
    {
      Handler(msp, psp, psplim, npriv, excReturn, mem)
    }

    constructor (h: Handler)
      ensures View() == h
    {
      msp, psp, psplim, npriv, excReturn, mem := h.msp, h.psp, h.psplim, h.npriv, h.excReturn, h.mem;
    }

    /** The exception return resumes, unprivileged and with nothing else changed, whatever frame the
        process stack holds. */
    method SvcStartProcess()
      modifies this
      ensures View() == StartProcess(old(View()))
      ensures ExceptionReturn(View()) ==
              Cpu(RdFrame(old(mem), old(psp)), old(msp), old(psp) + 32, old(psplim), true, true, old(mem))
    {
      hide OnPsp, SetPspBit, RdFrame;
      PspBits(excReturn);
      npriv := true;
      excReturn := SetPspBit(excReturn);
    }

    /** The exception return resumes the frame at the main stack pointer, privileged, with the r0 of the
        frame that made the call; no other word changes. */
    method SvcProcessExit()
      modifies this
      ensures View() == ProcessExit(old(View()))
      ensures var h, t := old(View()), ExceptionReturn(View());
              && t == Cpu(RdFrame(h.mem, h.msp).(r0 := Rd(h.mem, FramePtr(h))), h.msp + 32, h.psp, h.psplim,
                          false, false, t.mem)
              && forall b :: b != h.msp ==> Rd(t.mem, b) == Rd(h.mem, b)
    {
      hide OnPsp, ClearPspBit;
      PspBits(excReturn);
      var r0 := if OnPsp(excReturn) then psp else msp;
      var r2 := Rd(mem, r0);
      var r1 := msp;
      mem := mem[r1 := r2];
      npriv := false;
      excReturn := ClearPspBit(excReturn);
    }

    /** Saves four words on the main stack and returns into the thunk; only the 48 bytes below the main
        stack pointer change. The argument words are read after the saved words were stored: they are
        the caller's if its frame is on another stack or above the main stack pointer. */
    method SvcPsaCall()
      modifies this
      ensures var h, f := old(View()), FramePtr(old(View()));
              && View() == PsaCallEntry(h).(mem := mem)
              && Rd(mem, h.msp - 16) == f && Rd(mem, h.msp - 12) == ControlWord(h.npriv)
              && Rd(mem, h.msp - 8) == h.psplim && Rd(mem, h.msp - 4) == h.excReturn
              && (forall b :: !(h.msp - 48 <= b < h.msp) ==> Rd(mem, b) == Rd(h.mem, b))
              && (f + 16 <= h.msp - 48 || h.msp <= f ==> View() == PsaCallEntry(h))
    {
      hide Rd, WrWords;
      var r0 := if OnPsp(excReturn) then psp else msp;
      var r2 := msp;
      var r3 := ControlWord(npriv);
      var r12 := psplim;
      var m := mem;
      r2 := r2 - 16;
      m := m[r2 := r0];
      m := m[r2 + 4 := r3];
      m := m[r2 + 8 := r12];
      m := m[r2 + 12 := excReturn];
      SavedWords(mem, r2, r0, r3, r12, excReturn);
      FourApart(mem, r2, r0, r3, r12, excReturn, r0);
      FourApart(mem, r2, r0, r3, r12, excReturn, r0 + 4);
      FourApart(mem, r2, r0, r3, r12, excReturn, r0 + 8);
      FourApart(mem, r2, r0, r3, r12, excReturn, r0 + 12);
      ghost var saved := m;
      r2 := r2 - 32;
      ghost var v0 := Rd(m, r0);
      m := m[r2 := Rd(m, r0)];
      OneApart(saved, r2, Rd(saved, r0), r0 + 4);
      ghost var v1 := Rd(m, r0 + 4);
      m := m[r2 + 4 := Rd(m, r0 + 4)];
      TwoApart(saved, r2, Rd(saved, r0), Rd(saved, r0 + 4), r0 + 8);
      ghost var v2 := Rd(m, r0 + 8);
      m := m[r2 + 8 := Rd(m, r0 + 8)];
      ThreeApart(saved, r2, Rd(saved, r0), Rd(saved, r0 + 4), Rd(saved, r0 + 8), r0 + 12);
      ghost var v3 := Rd(m, r0 + 12);
      m := m[r2 + 12 := Rd(m, r0 + 12)];
      m := m[r2 + 16 := 0];
      m := m[r2 + 20 := 0];
      m := m[r2 + 24 := PSA_CALL_THUNK];
      m := m[r2 + 28 := THUMB_BIT_XPSR];
      FrameIs(saved, m, r2, Regs(v0, v1, v2, v3, 0, 0, PSA_CALL_THUNK, THUMB_BIT_XPSR));
      FourRead(mem, msp - 16, r0, ControlWord(npriv), psplim, excReturn);
      mem := m;
      msp := r2;
      npriv := false;
      excReturn := EXC_RETURN_MSP;
    }

    /** Copies four results into the frame whose address was saved, drops 48 bytes of the main stack and
        changes no other word. The results are copied one by one before the saved words are read: they
        and the saved words are as they were if the frame lies elsewhere. */
    method SvcPsaCallReturn()
      modifies this
      ensures var h, f := old(View()), Rd(old(mem), old(msp) + 32);
              && msp == h.msp + 48
              && (forall b :: !(f <= b < f + 16) ==> Rd(mem, b) == Rd(h.mem, b))
              && (f + 16 <= h.msp || h.msp + 48 <= f ==> View() == PsaCallReturn(h))
    {
      hide Rd, WrWords;
      var r2 := msp;
      var r0 := Rd(mem, r2 + 32);
      ghost var w0, w1, w2, w3 := Rd(mem, r2), Rd(mem, r2 + 4), Rd(mem, r2 + 8), Rd(mem, r2 + 12);
      SavedWords(mem, r0, w0, w1, w2, w3);
      var m := mem;
      var r1 := Rd(m, r2);
      ghost var v0 := r1;
      m := m[r0 := r1];
      OneApart(mem, r0, w0, r2 + 4);
      r1 := Rd(m, r2 + 4);
      ghost var v1 := r1;
      m := m[r0 + 4 := r1];
      TwoApart(mem, r0, w0, w1, r2 + 8);
      r1 := Rd(m, r2 + 8);
      ghost var v2 := r1;
      m := m[r0 + 8 := r1];
      ThreeApart(mem, r0, w0, w1, w2, r2 + 12);
      r1 := Rd(m, r2 + 12);
      ghost var v3 := r1;
      m := m[r0 + 12 := r1];
      FourRead(mem, r0, v0, v1, v2, v3);
      FourApart(mem, r0, w0, w1, w2, w3, r2 + 36);
      FourApart(mem, r0, w0, w1, w2, w3, r2 + 40);
      FourApart(mem, r0, w0, w1, w2, w3, r2 + 44);
      var r3 := Rd(m, r2 + 36);
      r1 := Rd(m, r2 + 40);
      excReturn := Rd(m, r2 + 44);
      mem := m;
      r2 := r2 + 48;
      msp := r2;
      psplim := r1;
      if OnPsp(excReturn) {
        psp := r0;
      }
      npriv := r3 % 2 == 1;
    }

    /** The part of `svc_call_unpriv` before its supervisor call: bounds check, fake frame, PSPLIM
        and PSP. Says whether the call may be issued. */
    method PrepareUnpriv(entry: int, arg: int, stackLimit: Word, stackTop: Word) returns (ok: bool)
      modifies this
      ensures ok <==> UnprivFrame(stackLimit, stackTop).Some?
      ensures ok <==> stackTop - 32 >= 0 && stackLimit <= stackTop - 32
      ensures ok ==> var frame := stackTop - 32;
                     && View() == old(View()).(psplim := stackLimit, psp := frame,
                                               mem := WrFrame(old(mem), frame, StartFrame(entry, arg)))
                     && RdFrame(mem, frame) == Regs(arg, 0, 0, 0, 0, 0xFFFF_FFFF, entry, 0x0100_0000)
                     && forall b :: !(frame <= b < stackTop) ==> Rd(mem, b) == Rd(old(mem), b)
      ensures !ok ==> View() == old(View())
    {
      hide Rd, RdFrame;
      if stackTop < FRAME_SIZE {
        return false;
      }
      var frame := stackTop - FRAME_SIZE;
      if frame < stackLimit {
        return false;
      }
      mem := mem[frame := arg];
      mem := mem[frame + 4 := 0];
      mem := mem[frame + 8 := 0];
      mem := mem[frame + 12 := 0];
      mem := mem[frame + 16 := 0];
      mem := mem[frame + 20 := DUMMY_LR];
      mem := mem[frame + 24 := entry];
      mem := mem[frame + 28 := THUMB_BIT_XPSR];
      FrameIs(old(mem), mem, frame, StartFrame(entry, arg));
      psplim := stackLimit;
      psp := frame;
      return true;
    }

    /** Stage the message words at the top of the service stack, if they fit. */
    method StageMsgMailbox(v: ServiceVectors, words: seq<int>) returns (r: Result<Word, StatusCode>)
      modifies this`mem
      ensures r == StageMailbox(v)
      ensures mem == if r.Ok? then WrWords(old(mem), r.value, words) else old(mem)
    {
      if v.stackTop < MSG_SIZE {
        return Err(InsufficientMemory);
      }
      var subTop := v.stackTop - MSG_SIZE;
      var mailbox := AlignDown(subTop, MSG_ALIGN);
      if mailbox < FRAME_SIZE {
        return Err(InsufficientMemory);
      }
      var frameBase := mailbox - FRAME_SIZE;
      if frameBase < v.stackLimit {
        return Err(InsufficientMemory);
      }
      if mailbox < v.ramStart || mailbox + MSG_SIZE > v.ramLimit {
        return Err(ProgrammerError);
      }
      for i := 0 to |words|
        invariant WrWords(mem, mailbox + 4 * i, words[i..]) == WrWords(old(mem), mailbox, words)
      {
        assert words[i..][1..] == words[i + 1..];
        mem := mem[mailbox + 4 * i := words[i]];
      }
      return Ok(mailbox);
    }
  }

  // A word outside the words just stored reads as before.

  lemma OneApart(m: Mem, a: int, v: int, b: int)
    ensures b != a ==> Rd(m[a := v], b) == Rd(m, b)
  {
  }

  lemma TwoApart(m: Mem, a: int, v: int, w: int, b: int)
    ensures b != a && b != a + 4 ==> Rd(m[a := v][a + 4 := w], b) == Rd(m, b)
  {
  }

  lemma ThreeApart(m: Mem, a: int, v: int, w: int, x: int, b: int)
    ensures b != a && b != a + 4 && b != a + 8 ==> Rd(m[a := v][a + 4 := w][a + 8 := x], b) == Rd(m, b)
  {
  }

  lemma FourApart(m: Mem, a: int, v: int, w: int, x: int, y: int, b: int)
    ensures b != a && b != a + 4 && b != a + 8 && b != a + 12 ==> Rd(m[a := v][a + 4 := w][a + 8 := x][a + 12 := y], b) == Rd(m, b)
  {
  }

  lemma FourRead(m: Mem, a: int, w0: int, w1: int, w2: int, w3: int)
    ensures var n := m[a := w0][a + 4 := w1][a + 8 := w2][a + 12 := w3];
            && Rd(n, a) == w0 && Rd(n, a + 4) == w1 && Rd(n, a + 8) == w2 && Rd(n, a + 12) == w3
            && forall b :: b != a && b != a + 4 && b != a + 8 && b != a + 12 ==> Rd(n, b) == Rd(m, b)
  {
  }

  /** A memory that differs from another in one frame only, which reads back. */
  lemma FrameIs(m: Mem, n: Mem, a: int, f: Regs)
    requires n == WrFrame(m, a, f)
    ensures RdFrame(n, a) == f
    ensures forall b :: !(a <= b < a + 32) ==> Rd(n, b) == Rd(m, b)
  {
  }

  lemma SavedWords(m: Mem, a: int, w0: int, w1: int, w2: int, w3: int)
    ensures WrWords(m, a, [w0, w1, w2, w3]) == m[a := w0][a + 4 := w1][a + 8 := w2][a + 12 := w3]
  {
    assert [w0, w1, w2, w3][1..] == [w1, w2, w3];
    assert [w1, w2, w3][1..] == [w2, w3];
    assert [w2, w3][1..] == [w3];
    assert [w3][1..] == [];
    calc {
      WrWords(m, a, [w0, w1, w2, w3]);
      WrWords(m[a := w0], a + 4, [w1, w2, w3]);
      WrWords(m[a := w0][a + 4 := w1], a + 8, [w2, w3]);
      WrWords(m[a := w0][a + 4 := w1][a + 8 := w2], a + 12, [w3]);
      WrWords(m[a := w0][a + 4 := w1][a + 8 := w2][a + 12 := w3], a + 16, []);
    }
  }
}
