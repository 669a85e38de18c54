/** The registers and memory with which a service process begins (svc_call.rs, process.rs). */
module ProcessStarts {
  import opened Basics
  import opened Processes
  import opened SvcMachines
  import opened SvcRuns

  lemma {:induction false} WordsReadBack(m: Mem, a: int, ws: seq<int>, i: nat)
    requires i < |ws|
    ensures Rd(WrWords(m, a, ws), a + 4 * i) == ws[i]
    decreases |ws|
  {
    if i == 0 {
      WordsStayInside(m[a := ws[0]], a + 4, ws[1..], a);
    } else {
      WordsReadBack(m[a := ws[0]], a + 4, ws[1..], i - 1);
    }
  }

  /** The message words are where r0 will point, and the frame lies right below them. */
  lemma StagedWords(c: Cpu, a: Activation)
    requires a.message.Some? && LaunchOf(c, a).Some?
    ensures var l := LaunchOf(c, a).value;
            && StageMailbox(a.svc) == Ok(l.frame + 32) && l.arg == l.frame + 32 && l.arg % 8 == 0
            && forall i :: 0 <= i < |a.message.value| ==> Rd(l.cpu.mem, l.arg + 4 * i) == a.message.value[i]
  {
    var l := LaunchOf(c, a).value;
    StagingLeavesRoom(a.svc);
    forall i | 0 <= i < |a.message.value| ensures Rd(l.cpu.mem, l.arg + 4 * i) == a.message.value[i] {
      WordsReadBack(c.mem, l.arg, a.message.value, i);
    }
  }

  /** When a process begins, it runs at its entry point for this purpose, unprivileged on its own stack and bounded by its
      limit, with a return address that faults. For a call r0 points to the message, which lies at the stack
      pointer word by word; for initialisation r0 is zero and the stack is empty. */
  lemma ServiceBegins(lay: Layout, c: Cpu, a: Activation)
    requires LayoutOk(lay) && Privileged(lay, c) && lay.mainLo <= c.msp - 32
    requires a.svc in lay.services && (a.message.Some? ==> 4 * |a.message.value| == 44)
    requires LaunchOf(c, a).Some?
    ensures var l := LaunchOf(c, a).value;
            var s := Started(l.cpu, a, l.frame, l.arg);
            && s.regs.pc == (if a.message.Some? then a.svc.callEntry else a.svc.initEntry)
            && s.regs.lr == 0xFFFF_FFFF && s.regs.xpsr == 0x0100_0000
            && s.regs.r1 == 0 && s.regs.r2 == 0 && s.regs.r3 == 0 && s.regs.r12 == 0
            && s.npriv && s.spsel && s.psplim == a.svc.stackLimit && s.msp == c.msp - 32
            && (a.message.None? ==> s.regs.r0 == 0 && s.psp == a.svc.stackTop)
            && (a.message.Some? ==>
                  && StageMailbox(a.svc) == Ok(s.regs.r0) && s.psp == s.regs.r0
                  && forall i :: 0 <= i < 11 ==> Rd(s.mem, s.regs.r0 + 4 * i) == a.message.value[i])
  {
    hide WrFrame, Rd, Started, StageMailbox, LaunchOf, LayoutOk;
    LaunchStaysInRam(lay, c, a);
    var l := LaunchOf(c, a).value;
    StackIsApart(lay, a.svc, l.frame, c.msp - 32);
    StartedIs(l.cpu, a, l.frame, l.arg);
    var s := Started(l.cpu, a, l.frame, l.arg);
    if a.message.Some? {
      StagedWords(c, a);
      forall i | 0 <= i < 11 ensures Rd(s.mem, l.arg + 4 * i) == a.message.value[i] {
        MailboxIsApart(lay, a.svc, l.arg, i, c.msp);
        FrameReadsBack(l.cpu.mem, c.msp - 32, c.regs);
      }
    } else {
      InitFrame(c, a);
    }
  }

  lemma InitFrame(c: Cpu, a: Activation)
    requires a.message.None? && LaunchOf(c, a).Some?
    ensures LaunchOf(c, a).value == Launch(c, a.svc.stackTop - 32, 0)
  {
  }

  /** The staged words are in the RAM of the service, so not where the SPM's own frame goes. */
  lemma MailboxIsApart(lay: Layout, svc: ServiceVectors, mailbox: int, i: nat, msp: int)
    requires LayoutOk(lay) && svc in lay.services && StageMailbox(svc) == Ok(mailbox) && i < 11
    requires lay.mainLo <= msp - 32 && msp <= lay.mainHi
    ensures !(msp - 32 <= mailbox + 4 * i < msp)
  {
    StagingLeavesRoom(svc);
    hide StageMailbox;
    assert InRam(svc, mailbox + 4 * i);
    assert !InMain(lay, mailbox + 4 * i);
  }
}
