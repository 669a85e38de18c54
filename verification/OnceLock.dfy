/** The write-once cell (once_lock.rs) as interleaved atomic steps of any number of threads. The
    value is several words, written and read one at a time, so that a torn value would show. */
module OnceLocks {
  import opened Basics

  datatype LockState = Uninitialized | Initializing | Initialized

  /** A thread inside `try_set` after winning the exchange, or inside `try_get` after seeing the
      value announced; all other threads are idle. */
  datatype Activity = Writing(value: seq<int>, written: nat) | Reading(got: seq<int>)

  /** What a finished call reported. */
  datatype Event =
    | SetDone(value: seq<int>)
    | SetRefused(value: seq<int>)
    | Got(value: seq<int>)
    | NotReady(seen: LockState)

  /** `winner` records the value of the thread that won the exchange. */
  datatype State = State(
    lock: LockState,
    cell: seq<int>,
    busy: map<nat, Activity>,
    winner: Option<seq<int>>,
    events: seq<Event>)

  datatype Step =
    | CompareExchange(t: nat, value: seq<int>)
    | WriteWord(t: nat)
    | Publish(t: nat)
    | Load(t: nat)
    | ReadWord(t: nat)
    | FinishGet(t: nat)

  /** A fresh lock over a cell of arbitrary content. */
  function New(cell: seq<int>): State {
    State(Uninitialized, cell, map[], None, [])
  }

  function Log(s: State, e: Event): State {
    s.(events := s.events + [e])
  }

  /** One atomic step; a step that its thread cannot take changes nothing. */
  function Next(s: State, step: Step): State {
    match step
    case CompareExchange(t, value) =>
      if t in s.busy || |value| != |s.cell| then s
      else if s.lock == Uninitialized then
        s.(lock := Initializing, busy := s.busy[t := Writing(value, 0)], winner := Some(value))
      else Log(s, SetRefused(value))
    case WriteWord(t) =>
      if t in s.busy && s.busy[t].Writing? && s.busy[t].written < |s.cell| && |s.busy[t].value| == |s.cell| then
        var a := s.busy[t];
        s.(cell := s.cell[a.written := a.value[a.written]], busy := s.busy[t := a.(written := a.written + 1)])
      else s
    case Publish(t) =>
      if t in s.busy && s.busy[t].Writing? && s.busy[t].written == |s.cell| then
        Log(s.(lock := Initialized, busy := s.busy - {t}), SetDone(s.busy[t].value))
      else s
    case Load(t) =>
      if t in s.busy then s
      else if s.lock == Initialized then s.(busy := s.busy[t := Reading([])])
      else Log(s, NotReady(s.lock))
    case ReadWord(t) =>
      if t in s.busy && s.busy[t].Reading? && |s.busy[t].got| < |s.cell| then
        var a := s.busy[t];
        s.(busy := s.busy[t := Reading(a.got + [s.cell[|a.got|]])])
      else s
    case FinishGet(t) =>
      if t in s.busy && s.busy[t].Reading? && |s.busy[t].got| == |s.cell| then
        Log(s.(busy := s.busy - {t}), Got(s.busy[t].got))
      else s
  }

  function After(s: State, steps: seq<Step>): State
    decreases |steps|
  {
    if steps == [] then s else After(Next(s, steps[0]), steps[1..])
  }

  // ----- What every interleaving keeps -----------------------------------------------------

  /** The one thread that writes has written a prefix of the winner's value. */
  ghost predicate WriterOk(s: State, t: nat)
    requires t in s.busy && s.busy[t].Writing?
  {
    var a := s.busy[t];
    && s.lock == Initializing && s.winner == Some(a.value)
    && |a.value| == |s.cell| && a.written <= |s.cell|
    && s.cell[..a.written] == a.value[..a.written]
  }

  /** A reader holds a prefix of the winner's value, and that value is complete. */
  ghost predicate ReaderOk(s: State, t: nat)
    requires t in s.busy && s.busy[t].Reading?
  {
    s.lock == Initialized && s.busy[t].got <= s.cell
  }

  ghost predicate EventOk(s: State, e: Event) {
    match e
    case SetDone(v) => s.lock == Initialized && s.winner == Some(v)
    case SetRefused(_) => s.lock != Uninitialized
    case Got(v) => s.lock == Initialized && s.winner == Some(v)
    case NotReady(seen) => seen != Initialized
  }

  /** What holds of the cell and of the threads inside a call. */
  ghost predicate Threads(s: State) {
    && (s.winner.Some? <==> s.lock != Uninitialized)
    && (s.lock == Initialized ==> s.winner == Some(s.cell))
    && (forall t :: t in s.busy && s.busy[t].Writing? ==> WriterOk(s, t))
    && (forall t, u :: t in s.busy && u in s.busy && s.busy[t].Writing? && s.busy[u].Writing? ==> t == u)
    && (forall t :: t in s.busy && s.busy[t].Reading? ==> ReaderOk(s, t))
  }

  /** What the finished calls reported: one `try_set` at most won, and whatever a `try_get` returned
      is the value that `try_set` had already announced. */
  ghost predicate History(s: State) {
    && (forall e :: e in s.events ==> EventOk(s, e))
    && (forall i, j :: 0 <= i < j < |s.events| && s.events[i].SetDone? ==> !s.events[j].SetDone?)
    && (s.lock == Initialized <==> exists i :: 0 <= i < |s.events| && s.events[i].SetDone?)
    && (forall j :: 0 <= j < |s.events| && s.events[j].Got? ==> Announced(s.events, j))
  }

  ghost predicate Announced(events: seq<Event>, j: nat)
    requires j < |events| && events[j].Got?
  {
    exists i :: 0 <= i < j && events[i] == SetDone(events[j].value)
  }

  ghost predicate Safe(s: State) {
    Threads(s) && History(s)
  }

  function Rank(l: LockState): nat {
    match l
    case Uninitialized => 0
    case Initializing => 1
    case Initialized => 2
  }

  /** Once announced the value never changes again; the state only moves forward. */
  ghost predicate Forward(s: State, n: State) {
    && Rank(s.lock) <= Rank(n.lock)
    && (s.lock == Initialized ==> n.cell == s.cell)
    && (s.winner.Some? ==> n.winner == s.winner)
  }

  lemma WritingStep(s: State, t: nat)
    requires Threads(s)
    ensures Threads(Next(s, WriteWord(t))) && Forward(s, Next(s, WriteWord(t)))
  {
    var n := Next(s, WriteWord(t));
    if n != s {
      var a := s.busy[t];
      assert WriterOk(s, t);
      assert n.cell[..a.written + 1] == a.value[..a.written + 1];
    }
  }

  lemma ThreadsStep(s: State, step: Step)
    requires Threads(s)
    ensures Threads(Next(s, step)) && Forward(s, Next(s, step))
  {
    var n := Next(s, step);
    match step
    case CompareExchange(t, value) =>
    case WriteWord(t) => WritingStep(s, t);
    case Publish(t) =>
      if n != s {
        assert WriterOk(s, t);
        assert s.cell[..|s.cell|] == s.cell && s.busy[t].value[..|s.cell|] == s.busy[t].value;
      }
    case Load(t) =>
    case ReadWord(t) =>
      if n != s {
        assert ReaderOk(s, t);
        assert n.busy[t].got <= s.cell;
      }
    case FinishGet(t) =>
  }

  lemma HistoryUnlogged(s: State, n: State)
    requires Safe(s) && n.events == s.events
    requires (n.lock == s.lock && n.winner == s.winner) || (s.lock == Uninitialized && n.lock == Initializing)
    ensures History(n)
  {
    forall e | e in n.events ensures EventOk(n, e) {
      assert EventOk(s, e);
    }
  }

  lemma HistoryLogged(s: State, n: State, e: Event)
    requires Safe(s) && n.events == s.events + [e] && n.winner == s.winner
    requires if e.SetDone? then s.lock == Initializing && n.lock == Initialized else n.lock == s.lock
    requires EventOk(n, e)
    ensures History(n)
  {
    var k := |s.events|;
    assert forall i :: 0 <= i < k ==> n.events[i] == s.events[i] && s.events[i] in s.events;
    forall x | x in n.events ensures EventOk(n, x) {
      if x in s.events {
        assert EventOk(s, x);
      }
    }
    assert s.lock == Initialized ==> exists i :: 0 <= i < k && n.events[i].SetDone?;
    forall j | 0 <= j < |n.events| && n.events[j].Got? ensures Announced(n.events, j) {
      if j < k {
        assert Announced(s.events, j);
        var i :| 0 <= i < j && s.events[i] == SetDone(s.events[j].value);
        assert n.events[i] == s.events[i];
      } else {
        var i :| 0 <= i < k && s.events[i].SetDone?;
        assert EventOk(s, s.events[i]);
        assert n.events[i] == SetDone(e.value);
      }
    }
    if e.SetDone? {
      assert n.events[k].SetDone?;
      assert forall i :: 0 <= i < k ==> EventOk(s, s.events[i]);
    }
  }

  lemma StepIsSafe(s: State, step: Step)
    requires Safe(s)
    ensures Safe(Next(s, step)) && Forward(s, Next(s, step))
  {
    var n := Next(s, step);
    ThreadsStep(s, step);
    if |n.events| == |s.events| {
      HistoryUnlogged(s, n);
    } else {
      var e := Last(n.events);
      assert EventOk(n, e) by {
        match step
        case CompareExchange(t, value) =>
        case Publish(t) => assert WriterOk(s, t);
        case Load(t) =>
        case FinishGet(t) => assert ReaderOk(s, t) && s.busy[t].got == s.cell;
        case WriteWord(t) =>
        case ReadWord(t) =>
      }
      hide Threads;
      HistoryLogged(s, n, e);
    }
  }

  lemma {:induction false} StepsAreSafe(s: State, steps: seq<Step>)
    requires Safe(s)
    ensures Safe(After(s, steps)) && Forward(s, After(s, steps))
    decreases |steps|
  {
    if steps != [] {
      StepIsSafe(s, steps[0]);
      StepsAreSafe(Next(s, steps[0]), steps[1..]);
    }
  }

  lemma NewIsSafe(cell: seq<int>)
    ensures Safe(New(cell))
  {
  }

  /** Over every interleaving of any number of threads on a new lock at most one `try_set` wins, every
      successful `try_get` returns the winner's complete value after it was announced, and from any
      point on the state only moves forward. */
  lemma EveryInterleavingIsSafe(cell: seq<int>, before: seq<Step>, steps: seq<Step>)
    ensures var s := After(New(cell), before);
            Safe(s) && Safe(After(s, steps)) && Forward(s, After(s, steps))
  {
    NewIsSafe(cell);
    StepsAreSafe(New(cell), before);
    StepsAreSafe(After(New(cell), before), steps);
  }

  // ----- Calls get through -----------------------------------------------------------------

  /** What is left of a `try_set` with k words to write, and of a `try_get` with k words to read. */
  function WritesLeft(t: nat, k: nat): seq<Step> {
    if k == 0 then [Publish(t)] else [WriteWord(t)] + WritesLeft(t, k - 1)
  }

  function ReadsLeft(t: nat, k: nat): seq<Step> {
    if k == 0 then [FinishGet(t)] else [ReadWord(t)] + ReadsLeft(t, k - 1)
  }

  /** The winner can always finish, whoever else is inside: then its value is in the cell and announced. */
  lemma {:induction false} WriterFinishes(s: State, t: nat)
    requires Safe(s) && t in s.busy && s.busy[t].Writing?
    ensures var a := s.busy[t];
            After(s, WritesLeft(t, |s.cell| - a.written))
            == State(Initialized, a.value, s.busy - {t}, s.winner, s.events + [SetDone(a.value)])
    decreases |s.cell| - s.busy[t].written
  {
    var a := s.busy[t];
    assert WriterOk(s, t);
    if a.written == |s.cell| {
      assert [Publish(t)][1..] == [];
      assert a.value == s.cell by {
        assert s.cell[..a.written] == s.cell && a.value[..a.written] == a.value;
      }
    } else {
      var n := Next(s, WriteWord(t));
      StepIsSafe(s, WriteWord(t));
      assert WritesLeft(t, |s.cell| - a.written)[1..] == WritesLeft(t, |n.cell| - n.busy[t].written);
      WriterFinishes(n, t);
      assert n.busy - {t} == s.busy - {t};
    }
  }

  /** A reader can always finish, with the cell's value. */
  lemma {:induction false} ReaderFinishes(s: State, t: nat)
    requires Safe(s) && t in s.busy && s.busy[t].Reading?
    ensures After(s, ReadsLeft(t, |s.cell| - |s.busy[t].got|))
            == s.(busy := s.busy - {t}, events := s.events + [Got(s.cell)])
    decreases |s.cell| - |s.busy[t].got|
  {
    var a := s.busy[t];
    assert ReaderOk(s, t);
    if |a.got| == |s.cell| {
      assert a.got == s.cell;
      assert [FinishGet(t)][1..] == [];
    } else {
      var n := Next(s, ReadWord(t));
      StepIsSafe(s, ReadWord(t));
      assert ReadsLeft(t, |s.cell| - |a.got|)[1..] == ReadsLeft(t, |n.cell| - |n.busy[t].got|);
      ReaderFinishes(n, t);
      assert n.busy - {t} == s.busy - {t};
    }
  }

  /** A `try_set` on a lock nobody has set goes through with its value; on any other it is refused at once
      and leaves everything else as it is. */
  lemma FirstSetGoesThrough(s: State, t: nat, value: seq<int>)
    requires Safe(s) && t !in s.busy && |value| == |s.cell|
    ensures s.lock == Uninitialized ==>
              After(s, [CompareExchange(t, value)] + WritesLeft(t, |s.cell|))
              == State(Initialized, value, s.busy, Some(value), s.events + [SetDone(value)])
    ensures s.lock != Uninitialized ==>
              Next(s, CompareExchange(t, value)) == s.(events := s.events + [SetRefused(value)])
  {
    if s.lock == Uninitialized {
      var n := Next(s, CompareExchange(t, value));
      StepIsSafe(s, CompareExchange(t, value));
      WriterFinishes(n, t);
      assert ([CompareExchange(t, value)] + WritesLeft(t, |s.cell|))[1..] == WritesLeft(t, |n.cell|);
      assert n.busy - {t} == s.busy;
      assert s.events + [SetDone(value)] == n.events + [SetDone(value)];
    }
  }

  /** A `try_get` returns the announced value; before there is one it says so at once and leaves everything
      else as it is. */
  lemma GetAfterSetGoesThrough(s: State, t: nat)
    requires Safe(s) && t !in s.busy
    ensures s.lock == Initialized ==>
              After(s, [Load(t)] + ReadsLeft(t, |s.cell|)) == s.(events := s.events + [Got(s.cell)])
    ensures s.lock != Initialized ==> Next(s, Load(t)) == s.(events := s.events + [NotReady(s.lock)])
  {
    if s.lock == Initialized {
      var n := Next(s, Load(t));
      StepIsSafe(s, Load(t));
      ReaderFinishes(n, t);
      assert ([Load(t)] + ReadsLeft(t, |s.cell|))[1..] == ReadsLeft(t, |n.cell|);
      assert n.busy - {t} == s.busy;
    }
  }
}
