/** The function-call SPM (spm_fn.rs). A service is described by what it does: accesses to its
    active connection, during which anything may run, and calls of other services. */
module SpmFns {
  import opened Basics
  import opened Connections
  import opened ConnectionStacks

  /** A step of a service. `Access` runs a closure on the leased connection: it may change the
      connection before and after the steps that run while the lease is out. `CallService` calls a
      service that goes through `body` and returns `status`. */
  datatype Action =
    | Access(before: Connection -> Connection, inner: seq<Action>, after: Connection -> Connection)
    | CallService(connection: Connection, body: seq<Action>, status: Result<(), StatusCode>)

  /** The stack, the slots leased out at this moment, and whether a restore ever failed. */
  datatype State = State(stack: Stack, leased: set<nat>, corrupted: bool)

  const INITIAL := State(EMPTY_STACK, {}, false)

  function Leased(s: State): State
    requires Take(s.stack).Ok?
  {
    var lease := Take(s.stack).value;
    s.(stack := lease.stack, leased := s.leased + {lease.index})
  }

  function Returned(s: State, index: nat, c: Connection): State {
    match Restore(s.stack, index, c)
    case Ok(stack) => s.(stack := stack, leased := s.leased - {index})
    case Err(_) => s.(corrupted := true)
  }

  /** The states one step goes through, the first being the one it starts from. */
  function StepStates(s: State, a: Action): (states: seq<State>)
    ensures |states| > 0
    decreases a
  {
    match a
    case Access(before, inner, after) =>
      (match Take(s.stack)
       case Err(_) => [s]
       case Ok(lease) =>
         var run := RunStates(Leased(s), inner);
         [s] + run + [Returned(Last(run), lease.index, after(before(lease.connection)))])
    case CallService(c, body, _) =>
      match Add(s.stack, c)
      case Err(_) => [s]
      case Ok(pushed) =>
        var run := RunStates(s.(stack := pushed), body);
        [s] + run + [Last(run).(stack := Pop(Last(run).stack))]
  }

  function RunStates(s: State, actions: seq<Action>): (states: seq<State>)
    ensures |states| > 0
    decreases actions
  {
    if actions == [] then [s]
    else
      var first := StepStates(s, actions[0]);
      first + RunStates(Last(first), actions[1..])
  }

  // ----- What every run keeps --------------------------------------------------------------

  ghost predicate Sound(s: State) {
    !s.corrupted && Consistent(s.stack, s.leased)
  }

  /** Every visited state is sound, at least as high as `from`, and agrees with it below n. */
  ghost predicate AllSound(states: seq<State>, from: State, n: int) {
    forall v :: v in states ==> Sound(v) && from.stack.top <= v.stack.top && SameBelow(v.stack, from.stack, n)
  }

  /** One step keeps the height, the leases and everything below the active slot. A call, however
      deeply it nests, even gives back exactly the state it found, and never touches its caller's
      connection on the way. */
  lemma {:induction false} StepKeeps(s: State, a: Action)
    requires Sound(s)
    ensures AllSound(StepStates(s, a), s, s.stack.top - (if a.Access? then 1 else 0))
    ensures Last(StepStates(s, a)).stack.top == s.stack.top
    ensures Last(StepStates(s, a)).leased == s.leased
    ensures a.CallService? ==> Last(StepStates(s, a)) == s
    decreases a, 1
  {
    if a.Access? {
      if Take(s.stack).Ok? {
        LeaseKeeps(s, a);
      }
    } else if Add(s.stack, a.connection).Ok? {
      CallKeeps(s, a);
    }
  }

  lemma {:induction false} LeaseKeeps(s: State, a: Action)
    requires Sound(s) && a.Access? && Take(s.stack).Ok?
    ensures AllSound(StepStates(s, a), s, s.stack.top - 1)
    ensures Last(StepStates(s, a)).stack.top == s.stack.top
    ensures Last(StepStates(s, a)).leased == s.leased
    decreases a, 0
  {
    RunKeeps(Leased(s), a.inner);
    var end := Last(RunStates(Leased(s), a.inner));
    assert end in RunStates(Leased(s), a.inner);
    assert end.leased - {s.stack.top - 1} == s.leased;
  }

  lemma {:induction false} CallKeeps(s: State, a: Action)
    requires Sound(s) && a.CallService? && Add(s.stack, a.connection).Ok?
    ensures AllSound(StepStates(s, a), s, s.stack.top)
    ensures Last(StepStates(s, a)) == s
    decreases a, 0
  {
    var entered := s.(stack := Add(s.stack, a.connection).value);
    RunKeeps(entered, a.body);
    var end := Last(RunStates(entered, a.body));
    assert end in RunStates(entered, a.body);
    assert Pop(end.stack).slots == s.stack.slots;
  }

  lemma {:induction false} RunKeeps(s: State, actions: seq<Action>)
    requires Sound(s)
    ensures AllSound(RunStates(s, actions), s, s.stack.top - 1)
    ensures Last(RunStates(s, actions)).stack.top == s.stack.top
    ensures Last(RunStates(s, actions)).leased == s.leased
    decreases actions
  {
    if actions != [] {
      StepKeeps(s, actions[0]);
      var mid := Last(StepStates(s, actions[0]));
      assert mid in StepStates(s, actions[0]);
      RunKeeps(mid, actions[1..]);
    }
  }

  /** Over every run from the empty stack, calls made inside an access included: a slot is present
      exactly when it is below the top and not leased out, no restore ever fails, and the run ends
      with the stack empty again. */
  lemma EveryRunIsSound(actions: seq<Action>)
    ensures forall v :: v in RunStates(INITIAL, actions) ==> Sound(v)
    ensures Last(RunStates(INITIAL, actions)) == INITIAL
  {
    RunKeeps(INITIAL, actions);
    var end := Last(RunStates(INITIAL, actions));
    assert end in RunStates(INITIAL, actions);
    assert end.stack.slots == EMPTY_STACK.slots;
  }

  /** With four connections open a further call is refused before anything changes, and only then. */
  lemma FullStackRefuses(s: State, a: Action)
    requires Sound(s) && a.CallService?
    ensures s.stack.top == MAX_CONNECTIONS <==> StepStates(s, a) == [s]
  {
  }

  /** A second access while the first one's lease is out is refused and changes nothing. */
  lemma NestedAccessIsRefused(s: State, a: Action)
    requires Sound(s) && a.Access?
    ensures s.stack.top == 0 || s.stack.top - 1 in s.leased <==> StepStates(s, a) == [s]
  {
  }

  /** A called service runs, with its connection as the active one, before its caller goes on. */
  lemma CalledServiceRuns(s: State, a: Action)
    requires Sound(s) && a.CallService? && s.stack.top < 4
    ensures var entered := s.(stack := Stack(s.stack.slots[s.stack.top := Some(a.connection)], s.stack.top + 1));
            && Peek(entered.stack) == Ok(a.connection)
            && forall v :: v in RunStates(entered, a.body) ==> v in StepStates(s, a)
  {
  }

  /** An access that is not refused leaves the connection as its closure does, and nothing else changed; the
      steps made inside it find the connection leased out. */
  lemma AccessActsOnActive(s: State, a: Action)
    requires Sound(s) && a.Access? && Peek(s.stack).Ok?
    ensures var c, top := Peek(s.stack).value, s.stack.top;
            var out := s.(stack := Stack(s.stack.slots[top - 1 := None], top), leased := s.leased + {top - 1});
            && (forall v :: v in RunStates(out, a.inner) ==> v in StepStates(s, a))
            && Last(StepStates(s, a)) ==
               s.(stack := Stack(Last(RunStates(out, a.inner)).stack.slots[top - 1 := Some(a.after(a.before(c)))], top))
            && SameBelow(Last(StepStates(s, a)).stack, s.stack, top - 1)
  {
    LeaseKeeps(s, a);
    RunKeeps(Leased(s), a.inner);
    var end := Last(RunStates(Leased(s), a.inner));
    assert end in RunStates(Leased(s), a.inner);
    assert end.leased - {s.stack.top - 1} == s.leased;
  }

  /** Steps are taken in order, each from where the one before ended. */
  lemma {:induction false} StepsInOrder(s: State, first: seq<Action>, next: seq<Action>)
    ensures Last(RunStates(s, first + next)) == Last(RunStates(Last(RunStates(s, first)), next))
    decreases |first|
  {
    if first == [] {
      assert first + next == next;
    } else {
      assert (first + next)[1..] == first[1..] + next;
      StepsInOrder(Last(StepStates(s, first[0])), first[1..], next);
    }
  }

  /** What an access reports: the failed take, or the outcome of the restore. */
  function AccessResult(s: State, a: Action): Result<(), SpmError>
    requires a.Access?
  {
    match Take(s.stack)
    case Err(e) => Err(e)
    case Ok(lease) =>
      match Restore(Last(RunStates(Leased(s), a.inner)).stack, lease.index, a.after(a.before(lease.connection)))
      case Err(e) => Err(e)
      case Ok(_) => Ok(())
  }

  /** The slot an access took is still its own, and empty, when the lease comes back. */
  lemma LeaseComesBack(s: State, a: Action)
    requires Sound(s) && a.Access?
    ensures AccessResult(s, a).Ok? <==> s.stack.top > 0 && s.stack.top - 1 !in s.leased
  {
    if Take(s.stack).Ok? {
      RunKeeps(Leased(s), a.inner);
      assert Last(RunStates(Leased(s), a.inner)) in RunStates(Leased(s), a.inner);
    }
  }

  class SpmFn {
    const connections: ConnectionArray
    ghost var leased: set<nat>
    ghost var corrupted: bool

    ghost predicate Valid()
      reads this, connections
    {
      connections.Valid()
    }

    ghost function View(): State
      requires Valid()
      reads this, connections, connections.connections, connections.present
    {
      State(connections.View(), leased, corrupted)
    }

    constructor ()
      ensures Valid() && View() == INITIAL
      ensures fresh(connections) && fresh(connections.connections) && fresh(connections.present)
    {
      connections := new ConnectionArray();
      leased, corrupted := {}, false;
    }

    method Call(c: Connection, body: seq<Action>, status: Result<(), StatusCode>)
      returns (r: Result<(), StatusCode>)
      requires Valid()
      modifies this, connections, connections.connections, connections.present
      ensures Valid()
      ensures View() == Last(StepStates(old(View()), CallService(c, body, status)))
      ensures r == if old(View()).stack.top < MAX_CONNECTIONS then status else Err(ConnectionBusy)
      decreases body, 1
    {
      var added := connections.AddConnection(c);
      if added.Err? {
        return Err(ConnectionBusy);
      }
      RunService(body);
      connections.PopConnection();
      return status;
    }

    method WithActiveConnection(before: Connection -> Connection, inner: seq<Action>,
                                after: Connection -> Connection)
      returns (r: Result<(), SpmError>)
      requires Valid()
      modifies this, connections, connections.connections, connections.present
      ensures Valid()
      ensures View() == Last(StepStates(old(View()), Access(before, inner, after)))
      ensures r == AccessResult(old(View()), Access(before, inner, after))
      decreases inner, 1
    {
      var taken := connections.TakeActiveConnection();
      if taken.Err? {
        return Err(taken.error);
      }
      var (index, connection) := taken.value;
      leased := leased + {index};
      connection := before(connection);
      RunService(inner);
      connection := after(connection);
      r := connections.RestoreActiveConnection(index, connection);
      if r.Ok? {
        leased := leased - {index};
      } else {
        corrupted := true;
      }
    }

    method RunService(actions: seq<Action>)
      requires Valid()
      modifies this, connections, connections.connections, connections.present
      ensures Valid()
      ensures View() == Last(RunStates(old(View()), actions))
      decreases actions, 0
    {
      if actions == [] {
        return;
      }
      ghost var start := View();
      match actions[0] {
        case Access(before, inner, after) =>
          var _ := WithActiveConnection(before, inner, after);
        case CallService(c, body, status) =>
          var _ := Call(c, body, status);
      }
      assert View() == Last(StepStates(start, actions[0]));
      RunService(actions[1..]);
    }
  }
}
