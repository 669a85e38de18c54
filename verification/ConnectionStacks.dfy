/** The bounded stack of connections and the leasing of its active one (spm.rs). */
module ConnectionStacks {
  import opened Basics
  import opened Connections

  const MAX_CONNECTIONS: nat := 4

  datatype SpmError =
    | MutexBusy
    | ConnectionStackFull
    | EmptyConnectionStack
    | NoActiveConnection
    | CorruptedConnectionStack

  /** The abstract stack: a slot holds a connection exactly when it is marked present. */
  datatype RawStack = Stack(slots: seq<Option<Connection>>, top: nat)

  type Stack = s: RawStack | |s.slots| == MAX_CONNECTIONS && s.top <= MAX_CONNECTIONS
    witness EMPTY_STACK

  const EMPTY_STACK: RawStack := Stack([None, None, None, None], 0)

  function Add(s: Stack, c: Connection): Result<Stack, SpmError> {
    if s.top >= MAX_CONNECTIONS then Err(ConnectionStackFull)
    else Ok(Stack(s.slots[s.top := Some(c)], s.top + 1))
  }

  datatype Lease = Lease(index: nat, connection: Connection, stack: Stack)

  function Take(s: Stack): Result<Lease, SpmError> {
    if s.top == 0 then Err(NoActiveConnection)
    else if s.slots[s.top - 1].None? then Err(CorruptedConnectionStack)
    else Ok(Lease(s.top - 1, s.slots[s.top - 1].value, Stack(s.slots[s.top - 1 := None], s.top)))
  }

  function Restore(s: Stack, index: nat, c: Connection): Result<Stack, SpmError> {
    if index >= MAX_CONNECTIONS || s.slots[index].Some? then Err(CorruptedConnectionStack)
    else Ok(Stack(s.slots[index := Some(c)], s.top))
  }

  function Pop(s: Stack): Stack {
    if s.top == 0 then s else Stack(s.slots[s.top - 1 := None], s.top - 1)
  }

  function Peek(s: Stack): Result<Connection, SpmError> {
    if s.top == 0 then Err(EmptyConnectionStack)
    else if s.slots[s.top - 1].None? then Err(CorruptedConnectionStack)
    else Ok(s.slots[s.top - 1].value)
  }

  /** Slot i is present exactly when it lies below the top and is not leased out. */
  ghost predicate Consistent(s: Stack, leased: set<nat>) {
    && (forall i :: i in leased ==> i < s.top)
    && (forall i :: 0 <= i < MAX_CONNECTIONS ==> (s.slots[i].Some? <==> i < s.top && i !in leased))
  }

  /** Slots below n hold what they held. */
  ghost predicate SameBelow(a: Stack, b: Stack, n: int) {
    forall i :: 0 <= i < n && i < MAX_CONNECTIONS ==> a.slots[i] == b.slots[i]
  }

  /** Taking the active connection and putting any value back is always possible, and touches
      only the active slot. */
  lemma TakeThenRestore(s: Stack, c: Connection)
    requires Take(s).Ok?
    ensures var l := Take(s).value;
            && Restore(l.stack, l.index, c) == Ok(Stack(s.slots[s.top - 1 := Some(c)], s.top))
            && Restore(l.stack, l.index, l.connection) == Ok(s)
  {
    var l := Take(s).value;
    assert l.stack.slots[l.index := Some(l.connection)] == s.slots;
    assert l.stack.slots[l.index := Some(c)] == s.slots[s.top - 1 := Some(c)];
  }

  /** Last in, first out: what has been added is the active connection and what a pop removes; up to four
      connections can be open, and only an empty stack has no top. */
  lemma LastInFirstOut(s: Stack, c: Connection)
    requires Consistent(s, {})
    ensures Add(s, c).Ok? <==> s.top < 4
    ensures Add(s, c).Err? ==> Add(s, c) == Err(ConnectionStackFull)
    ensures Add(s, c).Ok? ==> Peek(Add(s, c).value) == Ok(c) && Pop(Add(s, c).value) == s
    ensures Peek(s).Err? <==> s.top == 0
    ensures s.top == 0 ==> Peek(s) == Err(EmptyConnectionStack) && Take(s) == Err(NoActiveConnection) && Pop(s) == s
    ensures s.top > 0 ==> Take(s).Ok? && Ok(Take(s).value.connection) == Peek(s)
                          && Peek(Take(s).value.stack) == Err(CorruptedConnectionStack)
                          && Take(Take(s).value.stack) == Err(CorruptedConnectionStack)
  {
    if s.top < 4 {
      assert s.slots[s.top := Some(c)][s.top := None] == s.slots;
    }
  }

  class ConnectionArray {
    const connections: array<Connection>
    const present: array<bool>
    var topConnection: nat

    ghost predicate Valid()
      reads this
    {
      connections.Length == MAX_CONNECTIONS && present.Length == MAX_CONNECTIONS && topConnection <= MAX_CONNECTIONS
    }

    ghost function View(): Stack
      requires Valid()
      reads this, connections, present
    {
      Stack(seq(MAX_CONNECTIONS, i requires 0 <= i < MAX_CONNECTIONS reads this, connections, present =>
        if present[i] then Some(connections[i]) else None), topConnection)
    }

    constructor ()
      ensures Valid() && fresh(connections) && fresh(present)
      ensures View() == EMPTY_STACK
    {
      connections := new Connection[MAX_CONNECTIONS];
      present := new bool[MAX_CONNECTIONS](i => false);
      topConnection := 0;
    }

    method AddConnection(c: Connection) returns (r: Result<(), SpmError>)
      requires Valid()
      modifies this, connections, present
      ensures Valid()
      ensures match Add(old(View()), c)
              case Ok(s) => r == Ok(()) && View() == s
              case Err(e) => r == Err(e) && View() == old(View())
    {
      if topConnection >= MAX_CONNECTIONS {
        return Err(ConnectionStackFull);
      }
      connections[topConnection] := c;
      present[topConnection] := true;
      topConnection := topConnection + 1;
      assert View().slots == old(View()).slots[old(topConnection) := Some(c)];
      return Ok(());
    }

    method TakeActiveConnection() returns (r: Result<(nat, Connection), SpmError>)
      requires Valid()
      modifies this, connections, present
      ensures Valid()
      ensures match Take(old(View()))
              case Ok(l) => r == Ok((l.index, l.connection)) && View() == l.stack
              case Err(e) => r == Err(e) && View() == old(View())
    {
      if topConnection == 0 {
        return Err(NoActiveConnection);
      }
      var index := topConnection - 1;
      if !present[index] {
        return Err(CorruptedConnectionStack);
      }
      var connection := connections[index];
      present[index] := false;
      assert View().slots == old(View()).slots[index := None];
      return Ok((index, connection));
    }

    method RestoreActiveConnection(index: nat, c: Connection) returns (r: Result<(), SpmError>)
      requires Valid()
      modifies this, connections, present
      ensures Valid()
      ensures match Restore(old(View()), index, c)
              case Ok(s) => r == Ok(()) && View() == s
              case Err(e) => r == Err(e) && View() == old(View())
    {
      if index >= MAX_CONNECTIONS {
        return Err(CorruptedConnectionStack);
      }
      if present[index] {
        return Err(CorruptedConnectionStack);
      }
      connections[index] := c;
      present[index] := true;
      assert View().slots == old(View()).slots[index := Some(c)];
      return Ok(());
    }

    method PopConnection()
      requires Valid()
      modifies this, connections, present
      ensures Valid() && View() == Pop(old(View()))
    {
      if topConnection > 0 {
        topConnection := topConnection - 1;
        var index := topConnection;
        if present[index] {
          present[index] := false;
        }
        assert View().slots == old(View()).slots[index := None];
      }
    }

    method PeekActiveConnection() returns (r: Result<Connection, SpmError>)
      requires Valid()
      ensures r == Peek(View())
    {
      if topConnection == 0 {
        return Err(EmptyConnectionStack);
      }
      var index := topConnection - 1;
      if present[index] {
        return Ok(connections[index]);
      }
      return Err(CorruptedConnectionStack);
    }
  }
}
