/** Service processes: their vector tables and the staging of a message on the service stack
    (process.rs, and the bounds check of svc_call.rs). */
module Processes {
  import opened Basics
  import opened Connections

  datatype ServiceVectors = ServiceVectors(
    version: Word,
    initEntry: Word,
    callEntry: Word,
    romStart: Word,
    romLimit: Word,
    ramStart: Word,
    ramLimit: Word,
    stackLimit: Word,
    stackTop: Word)

  datatype Process = Process(handle: ServiceHandle, vectors: ServiceVectors)

  /** Position of the first process with this handle. */
  function FindProcess(ps: seq<Process>, h: ServiceHandle): (r: Option<nat>)
    ensures r.Some? ==> r.value < |ps| && ps[r.value].handle == h
    ensures r.Some? ==> forall i :: 0 <= i < r.value ==> ps[i].handle != h
    ensures r.None? ==> forall i :: 0 <= i < |ps| ==> ps[i].handle != h
  {
    if ps == [] then None
    else if ps[0].handle == h then Some(0)
    else match FindProcess(ps[1..], h)
      case None => None
      case Some(i) => Some(i + 1)
  }

  /** Size of a message on the 32-bit target, and of the eight words the hardware stacks. */
  const MSG_SIZE: Word := 44
  const MSG_ALIGN: Word := 8
  const FRAME_SIZE: Word := 32

  function AlignDown(address: Word, align: Word): Word
    requires align > 0
  {
    address - address % align
  }

  /** Where the message goes, or why it does not fit. */
  function StageMailbox(v: ServiceVectors): Result<Word, StatusCode> {
    if v.stackTop < MSG_SIZE then Err(InsufficientMemory)
    else
      var mailbox := AlignDown(v.stackTop - MSG_SIZE, MSG_ALIGN);
      if mailbox < FRAME_SIZE then Err(InsufficientMemory)
      else if mailbox - FRAME_SIZE < v.stackLimit then Err(InsufficientMemory)
      else if mailbox < v.ramStart || mailbox + MSG_SIZE > v.ramLimit then Err(ProgrammerError)
      else Ok(mailbox)
  }

  /** What calling a service reports: why its message could not be staged, or the status it exited
      with. */
  function ServiceStatus(v: ServiceVectors, exit: Word): Result<(), StatusCode> {
    match StageMailbox(v)
    case Err(e) => Err(e)
    case Ok(_) => CheckSvcResult(exit)
  }

  /** Where `svc_call_unpriv` builds its exception frame, unless the stack has no room for it. */
  function UnprivFrame(stackLimit: Word, stackTop: Word): Option<Word> {
    if stackTop < FRAME_SIZE then None
    else if stackTop - FRAME_SIZE < stackLimit then None
    else Some(stackTop - FRAME_SIZE)
  }

  /** Staging discharges everything the unprivileged call asks of its stack: room for the frame
      above the limit, alignment, a message inside RAM and below the stack top, apart from the frame. */
  lemma StagingLeavesRoom(v: ServiceVectors)
    requires StageMailbox(v).Ok?
    ensures var mailbox := StageMailbox(v).value;
            && UnprivFrame(v.stackLimit, mailbox) == Some(mailbox - FRAME_SIZE)
            && mailbox % MSG_ALIGN == 0 && (mailbox - FRAME_SIZE) % MSG_ALIGN == 0
            && v.stackLimit <= mailbox - FRAME_SIZE
            && v.ramStart <= mailbox && mailbox + MSG_SIZE <= v.ramLimit
            && mailbox + MSG_SIZE <= v.stackTop < mailbox + MSG_SIZE + MSG_ALIGN
  {
  }

  /** An aligned place in RAM, at most seven bytes below the highest one under the stack top, with
      a frame's room above the stack limit. */
  ghost predicate MailboxFits(v: ServiceVectors, mailbox: Word) {
    && mailbox % 8 == 0
    && mailbox + 44 <= v.stackTop < mailbox + 44 + 8
    && v.stackLimit + 32 <= mailbox
    && v.ramStart <= mailbox && mailbox + 44 <= v.ramLimit
  }

  /** Staging finds such a place whenever there is one, and there is never more than one. */
  lemma StagingIsExact(v: ServiceVectors, mailbox: Word)
    ensures StageMailbox(v) == Ok(mailbox) <==> MailboxFits(v, mailbox)
  {
    if StageMailbox(v).Ok? {
      StagingLeavesRoom(v);
    }
    if MailboxFits(v, mailbox) {
      assert AlignDown(v.stackTop - MSG_SIZE, MSG_ALIGN) == mailbox;
    }
  }

  /** There is room on the stack for a message of 44 bytes, aligned to eight, and a frame below it. */
  ghost predicate StackHasRoom(v: ServiceVectors) {
    exists mailbox: Word ::
      Aligned8(mailbox) && mailbox + 44 <= v.stackTop < mailbox + 44 + 8 && v.stackLimit + 32 <= mailbox
  }

  predicate Aligned8(address: Word) {
    address % 8 == 0
  }

  lemma AlignedBelow(address: Word)
    ensures Aligned8(AlignDown(address, 8)) && AlignDown(address, 8) <= address < AlignDown(address, 8) + 8
  {
  }

  lemma OnlyOneAligned(a: Word, b: Word, top: int)
    requires Aligned8(a) && Aligned8(b) && a <= top < a + 8 && b <= top < b + 8
    ensures a == b
  {
    assert a == 8 * (a / 8) && b == 8 * (b / 8);
  }

  /** Why staging fails: the stack is too small, or the place for the message is not in the RAM. */
  lemma StagingErrorIs(v: ServiceVectors)
    ensures StageMailbox(v) == Err(InsufficientMemory) <==> !StackHasRoom(v)
    ensures StageMailbox(v).Err? ==> StageMailbox(v).error in {InsufficientMemory, ProgrammerError}
  {
    if v.stackTop >= 44 {
      var place := AlignDown(v.stackTop - 44, 8);
      AlignedBelow(v.stackTop - 44);
      hide Aligned8, AlignDown;
      assert place + 44 <= v.stackTop < place + 44 + 8;
      forall mailbox: Word | Aligned8(mailbox) && mailbox + 44 <= v.stackTop < mailbox + 44 + 8
        ensures mailbox == place
      {
        OnlyOneAligned(mailbox, place, v.stackTop - 44);
      }
    }
  }
}
