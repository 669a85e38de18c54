/** What the two vector paths do to the connection record, field by field (svc.rs, connection.rs), and what
    a service is lent of the vectors its client passed. */
module VectorRecords {
  import opened Basics
  import opened Connections
  import opened VectorPaths

  // ----- Whose connection it is ------------------------------------------------------------

  /** An access that names another service's connection changes nothing, lends nothing and is told so, on
      both paths; with the connection's own handle it never is. */
  lemma ForeignHandleIsRefused(c: Connection, h: ServiceHandle, isOut: bool, i: Word, written: Word, req: Request, f: Closure)
    ensures c.msg.handle != h ==>
              && SvcTake(c, h, isOut, i) == (c, Err(InvalidHandle))
              && SvcGive(c, h, isOut, i, written) == (c, Err(InvalidHandle))
              && DirectAccess(c, h, req, f) == (c, Outcome(Err(InvalidHandle), []))
              && SvcAccess(c, h, req, f) == (c, Outcome(Err(InvalidHandle), []))
    ensures c.msg.handle == h ==>
              && SvcTake(c, h, isOut, i).1 != Err(InvalidHandle)
              && SvcGive(c, h, isOut, i, written).1 != Err(InvalidHandle)
              && DirectAccess(c, h, req, f).1.result != Err(InvalidHandle)
  {
    hide SvcTake, SvcGive, DirectRead, DirectWrite, DirectReadWrite;
    TakeIsTransparent(c, h, isOut, i);
    GiveIsTransparent(c, h, isOut, i, written);
    match req
    case ReadIn(k) => TakeIsTransparent(c, h, false, k); DirectErrors(c, k, 0, f);
    case WriteOut(o) => TakeIsTransparent(c, h, true, o); DirectErrors(c, 0, o, f);
    case ReadWrite(k, o) => TakeIsTransparent(c, h, false, k); DirectErrors(c, k, o, f);
  }

  /** A direct access that is not refused ends in success or as the programmer's error. */
  lemma DirectErrors(c: Connection, i: Word, o: Word, f: Closure)
    ensures forall e :: e == ProgrammerError || (
              && DirectRead(c, i, f).1.result != Err(e)
              && DirectWrite(c, o, f).1.result != Err(e)
              && DirectReadWrite(c, i, o, f).1.result != Err(e))
  {
  }

  // ----- Supervisor calls ------------------------------------------------------------------

  /** Taking an input: the handle and a request are asked for, a valid index, and that the input is neither
      mapped nor accessed; then it is mapped and not released, and lent as it lies, empty without a base. */
  lemma TakeInput(c: Connection, h: ServiceHandle, i: Word)
    ensures SvcTake(c, h, false, i) ==
            if c.msg.handle != h then (c, Err(InvalidHandle))
            else if c.msg.msgType < 0 || i >= 4 || c.invecMapped[i] || c.invecAccessed[i] != 0 then
              (c, Err(ProgrammerError))
            else
              var n := c.msg.inSize[i].raw;
              (c.(invecMapped := c.invecMapped[i := true], invecUnmapped := c.invecUnmapped[i := false]),
               Ok(if n == 0 || n == 0xFFFF_FFFF then RawVec(0, 0) else RawVec(c.invecBase[i], n)))
  {
    TakeIsTransparent(c, h, false, i);
  }

  /** Taking an output: likewise, for one that is neither mapped nor written. */
  lemma TakeOutput(c: Connection, h: ServiceHandle, o: Word)
    ensures SvcTake(c, h, true, o) ==
            if c.msg.handle != h then (c, Err(InvalidHandle))
            else if c.msg.msgType < 0 || o >= 4 || c.outvecMapped[o] || c.outvecWritten[o] != 0 then
              (c, Err(ProgrammerError))
            else
              var n := c.msg.outSize[o].raw;
              (c.(outvecMapped := c.outvecMapped[o := true], outvecUnmapped := c.outvecUnmapped[o := false]),
               Ok(if n == 0 || n == 0xFFFF_FFFF then RawVec(0, 0) else RawVec(c.outvecBase[o], n)))
  {
    TakeIsTransparent(c, h, true, o);
  }

  /** Releasing an input: once, mapped or not; the length is ignored. */
  lemma GiveInput(c: Connection, h: ServiceHandle, i: Word, written: Word)
    ensures SvcGive(c, h, false, i, written) ==
            if c.msg.handle != h then (c, Err(InvalidHandle))
            else if c.msg.msgType < 0 || i >= 4 || c.invecUnmapped[i] then (c, Err(ProgrammerError))
            else
              (c.(invecMapped := c.invecMapped[i := false], invecUnmapped := c.invecUnmapped[i := true]), Ok(()))
  {
    GiveIsTransparent(c, h, false, i, written);
  }

  /** Releasing an output: once, with a length within the one on record, which it replaces. */
  lemma GiveOutput(c: Connection, h: ServiceHandle, o: Word, written: Word)
    ensures SvcGive(c, h, true, o, written) ==
            if c.msg.handle != h then (c, Err(InvalidHandle))
            else if c.msg.msgType < 0 || o >= 4 || c.outvecUnmapped[o]
                    || written > (if c.msg.outSize[o].raw == 0xFFFF_FFFF then 0 else c.msg.outSize[o].raw) then
              (c, Err(ProgrammerError))
            else
              (c.(outvecMapped := c.outvecMapped[o := false], outvecUnmapped := c.outvecUnmapped[o := true],
                  outvecWritten := c.outvecWritten[o := written],
                  msg := c.msg.(outSize := c.msg.outSize[o := MaybeUsize(written)])), Ok(()))
  {
    GiveIsTransparent(c, h, true, o, written);
  }

  // ----- Direct closures -------------------------------------------------------------------

  /** Reading an input directly: mapped before the closure sees it, released after. */
  lemma ReadDirectly(c: Connection, h: ServiceHandle, i: Word, f: Closure)
    ensures DirectAccess(c, h, ReadIn(i), f) ==
            if c.msg.handle != h then (c, Outcome(Err(InvalidHandle), []))
            else if c.msg.msgType < 0 || i >= 4 || c.invecMapped[i] || c.invecAccessed[i] != 0 then
              (c, Outcome(Err(ProgrammerError), []))
            else
              var n := c.msg.inSize[i].raw;
              var v := if n == 0 || n == 0xFFFF_FFFF then RawVec(0, 0) else RawVec(c.invecBase[i], n);
              var mapped := c.(invecMapped := c.invecMapped[i := true]);
              if c.invecUnmapped[i] then (mapped, Outcome(Err(ProgrammerError), [Loan(false, i, v)]))
              else (mapped.(invecUnmapped := c.invecUnmapped[i := true]), Outcome(Ok(f(v, RawVec(0, 0)).0), [Loan(false, i, v)]))
  {
  }

  /** Writing an output directly: what the closure reports as written is committed, unless it is more than
      was lent. */
  lemma WriteDirectly(c: Connection, h: ServiceHandle, o: Word, f: Closure)
    ensures DirectAccess(c, h, WriteOut(o), f) ==
            if c.msg.handle != h then (c, Outcome(Err(InvalidHandle), []))
            else if c.msg.msgType < 0 || o >= 4 || c.outvecMapped[o] || c.outvecWritten[o] != 0 then
              (c, Outcome(Err(ProgrammerError), []))
            else
              var n := if c.msg.outSize[o].raw == 0xFFFF_FFFF then 0 else c.msg.outSize[o].raw;
              var v := if n == 0 then RawVec(0, 0) else RawVec(c.outvecBase[o], n);
              var (result, written) := f(RawVec(0, 0), v);
              var mapped := c.(outvecMapped := c.outvecMapped[o := true]);
              if c.outvecUnmapped[o] || written > n then (mapped, Outcome(Err(ProgrammerError), [Loan(true, o, v)]))
              else
                (mapped.(outvecUnmapped := c.outvecUnmapped[o := true], outvecWritten := c.outvecWritten[o := written],
                         msg := c.msg.(outSize := c.msg.outSize[o := MaybeUsize(written)])),
                 Outcome(Ok(result), [Loan(true, o, v)]))
  {
  }

  /** Both at once: the input is mapped first and released last, and what has been done before a failure
      stays done. */
  lemma ReadWriteDirectly(c: Connection, h: ServiceHandle, i: Word, o: Word, f: Closure)
    ensures DirectAccess(c, h, ReadWrite(i, o), f) ==
            if c.msg.handle != h then (c, Outcome(Err(InvalidHandle), []))
            else if c.msg.msgType < 0 || i >= 4 || c.invecMapped[i] || c.invecAccessed[i] != 0 then
              (c, Outcome(Err(ProgrammerError), []))
            else if o >= 4 || c.outvecMapped[o] || c.outvecWritten[o] != 0 then
              (c.(invecMapped := c.invecMapped[i := true]), Outcome(Err(ProgrammerError), []))
            else
              var k, n := c.msg.inSize[i].raw, if c.msg.outSize[o].raw == 0xFFFF_FFFF then 0 else c.msg.outSize[o].raw;
              var v := if k == 0 || k == 0xFFFF_FFFF then RawVec(0, 0) else RawVec(c.invecBase[i], k);
              var w := if n == 0 then RawVec(0, 0) else RawVec(c.outvecBase[o], n);
              var (result, written) := f(v, w);
              var mapped := c.(invecMapped := c.invecMapped[i := true], outvecMapped := c.outvecMapped[o := true]);
              var done := mapped.(outvecUnmapped := c.outvecUnmapped[o := true], outvecWritten := c.outvecWritten[o := written],
                                  msg := c.msg.(outSize := c.msg.outSize[o := MaybeUsize(written)]));
              var loans := [Loan(false, i, v), Loan(true, o, w)];
              if c.outvecUnmapped[o] || written > n then (mapped, Outcome(Err(ProgrammerError), loans))
              else if c.invecUnmapped[i] then (done, Outcome(Err(ProgrammerError), loans))
              else (done.(invecUnmapped := c.invecUnmapped[i := true]), Outcome(Ok(result), loans))
  {
  }

  // ----- What a service is lent ------------------------------------------------------------

  /** A service is lent exactly the vectors its client passed, each at its index, an empty one at every
      index the client left out, and nothing at indices from four on; on both paths. */
  lemma LentAsPassed(c: Connection, h: ServiceHandle, p: CtrlParam, inVecs: seq<FFVec>, outVecs: seq<FFVec>,
                     caller: CallerAttributes, i: Word, f: Closure)
    requires BuiltFrom(c, h, p, inVecs, outVecs, caller)
    ensures var v := if i < |inVecs| && 0 < inVecs[i].len < 0xFFFF_FFFF then RawVec(inVecs[i].base, inVecs[i].len) else RawVec(0, 0);
            && SvcTake(c, h, false, i).1 == (if i < 4 then Ok(v) else Err(ProgrammerError))
            && DirectAccess(c, h, ReadIn(i), f).1 ==
               (if i < 4 then Outcome(Ok(f(v, RawVec(0, 0)).0), [Loan(false, i, v)]) else Outcome(Err(ProgrammerError), []))
    ensures var v := if i < |outVecs| && 0 < outVecs[i].len < 0xFFFF_FFFF then RawVec(outVecs[i].base, outVecs[i].len) else RawVec(0, 0);
            && SvcTake(c, h, true, i).1 == (if i < 4 then Ok(v) else Err(ProgrammerError))
            && DirectAccess(c, h, WriteOut(i), f).1.loans == (if i < 4 then [Loan(true, i, v)] else [])
  {
    TakeInput(c, h, i);
    TakeOutput(c, h, i);
    ReadDirectly(c, h, i, f);
    WriteDirectly(c, h, i, f);
    hide SvcTake, DirectAccess;
  }

  /** A vector is not lent again by a supervisor call before it is released, and not released twice; in
      between the slice is the same. */
  lemma TakeAndGiveAlternate(c: Connection, h: ServiceHandle, isOut: bool, i: Word, written: Word)
    requires SvcTake(c, h, isOut, i).1.Ok?
    ensures var taken := SvcTake(c, h, isOut, i).0;
            && SvcTake(taken, h, isOut, i) == (taken, Err(ProgrammerError))
            && var (given, r) := SvcGive(taken, h, isOut, i, written);
               && (r.Ok? <==> !isOut || written <= SvcTake(c, h, isOut, i).1.value.len)
               && (r.Ok? ==> SvcGive(given, h, isOut, i, written) == (given, Err(ProgrammerError)))
               && (r.Err? ==> given == taken && r == Err(ProgrammerError))
  {
    hide SvcTake, SvcGive;
    var taken := SvcTake(c, h, isOut, i).0;
    if isOut {
      TakeOutput(c, h, i);
      TakeOutput(taken, h, i);
      GiveOutput(taken, h, i, written);
      GiveOutput(SvcGive(taken, h, isOut, i, written).0, h, i, written);
    } else {
      TakeInput(c, h, i);
      TakeInput(taken, h, i);
      GiveInput(taken, h, i, written);
      GiveInput(SvcGive(taken, h, isOut, i, written).0, h, i, written);
    }
  }
}
