/** The non-blocking mutex (mutex.rs) as interleaved atomic steps of any number of threads. A closure
    is a sequence of atomic updates of the value, so other threads may run in the middle of it. */
module Mutexes {
  import opened Basics

  type Closure<!V> = seq<V -> V>

  /** A closure under way, and how many of its updates have been made. */
  datatype Run<!V> = Run(closure: Closure<V>, made: nat)

  /** `inside` are the threads between a successful exchange and the release; `done` are the closures
      of the calls that succeeded, in the order they finished. */
  datatype State<!V> = State(locked: bool, value: V, inside: map<nat, Run<V>>, done: seq<Closure<V>>)

  datatype Step<!V> =
    | TryLock(t: nat, closure: Closure<V>)
    | Update(t: nat)
    | Release(t: nat)

  function New<V>(value: V): State<V> {
    State(false, value, map[], [])
  }

  /** One atomic step; a failed `try_lock` and a step its thread cannot take change nothing. */
  function Next<V>(s: State<V>, step: Step<V>): State<V> {
    match step
    case TryLock(t, closure) =>
      if t in s.inside || s.locked then s
      else s.(locked := true, inside := s.inside[t := Run(closure, 0)])
    case Update(t) =>
      if t in s.inside && s.inside[t].made < |s.inside[t].closure| then
        var r := s.inside[t];
        s.(value := r.closure[r.made](s.value), inside := s.inside[t := Run(r.closure, r.made + 1)])
      else s
    case Release(t) =>
      if t in s.inside && s.inside[t].made >= |s.inside[t].closure| then
        s.(locked := false, inside := s.inside - {t}, done := s.done + [s.inside[t].closure])
      else s
  }

  function After<V>(s: State<V>, steps: seq<Step<V>>): State<V>
    decreases |steps|
  {
    if steps == [] then s else After(Next(s, steps[0]), steps[1..])
  }

  /** The effect of a closure that runs alone. */
  function Apply<V>(closure: Closure<V>, v: V): V
    decreases |closure|
  {
    if |closure| == 0 then v else Last(closure)(Apply(closure[..|closure| - 1], v))
  }

  /** The effect of closures one after the other. */
  function Fold<V>(closures: seq<Closure<V>>, v: V): V
    decreases |closures|
  {
    if |closures| == 0 then v else Apply(Last(closures), Fold(closures[..|closures| - 1], v))
  }

  // ----- What every interleaving keeps -----------------------------------------------------

  /** At most one thread is inside, exactly while the flag is set, and the value is what the finished
      closures in sequence and the updates made so far by the one inside give. */
  ghost predicate Serial<V>(initial: V, s: State<V>) {
    && (forall t, u :: t in s.inside && u in s.inside ==> t == u)
    && (s.locked <==> s.inside != map[])
    && (!s.locked ==> s.value == Fold(s.done, initial))
    && (forall t :: t in s.inside ==>
          var r := s.inside[t];
          r.made <= |r.closure| && s.value == Apply(r.closure[..r.made], Fold(s.done, initial)))
  }

  lemma StepIsSerial<V>(initial: V, s: State<V>, step: Step<V>)
    requires Serial(initial, s)
    ensures Serial(initial, Next(s, step))
  {
    match step
    case TryLock(t, closure) =>
      if t !in s.inside && !s.locked {
        assert Next(s, step).inside.Keys == {t};
      }
    case Update(t) =>
      if t in s.inside && s.inside[t].made < |s.inside[t].closure| {
        var r := s.inside[t];
        assert r.closure[..r.made + 1][..r.made] == r.closure[..r.made];
      }
    case Release(t) =>
      if t in s.inside && s.inside[t].made >= |s.inside[t].closure| {
        var r, n := s.inside[t], Next(s, step);
        assert r.closure[..r.made] == r.closure;
        assert n.done[..|n.done| - 1] == s.done;
        assert n.inside == map[];
      }
  }

  lemma {:induction false} StepsAreSerial<V>(initial: V, s: State<V>, steps: seq<Step<V>>)
    requires Serial(initial, s)
    ensures Serial(initial, After(s, steps))
    decreases |steps|
  {
    if |steps| > 0 {
      StepIsSerial(initial, s, steps[0]);
      StepsAreSerial(initial, Next(s, steps[0]), steps[1..]);
    }
  }

  lemma NewIsSerial<V>(value: V)
    ensures Serial(value, New(value))
  {
  }

  /** Over every interleaving of any number of threads on a new mutex at most one closure runs at a
      time, and whenever none does the value is a sequential fold of the successful closures. */
  lemma EveryInterleavingIsSerial<V>(initial: V, steps: seq<Step<V>>)
    ensures var s := After(New(initial), steps);
            && (forall t, u :: t in s.inside && u in s.inside ==> t == u)
            && (s.inside == map[] ==> s.value == Fold(s.done, initial))
            && Serial(initial, s)
  {
    NewIsSerial(initial);
    StepsAreSerial(initial, New(initial), steps);
  }

  // ----- Calls get through -----------------------------------------------------------------

  /** What is left of a call with k updates to make. */
  function Remainder<V>(t: nat, k: nat): seq<Step<V>> {
    if k == 0 then [Release(t)] else [Update(t)] + Remainder(t, k - 1)
  }

  /** The thread inside can always finish: its remaining steps set the mutex free, with the value of its
      whole closure and its call among the successful ones. */
  lemma {:induction false} HolderFinishes<V>(initial: V, s: State<V>, t: nat)
    requires Serial(initial, s) && t in s.inside
    ensures var r := s.inside[t];
            After(s, Remainder(t, |r.closure| - r.made))
            == State(false, Apply(r.closure, Fold(s.done, initial)), map[], s.done + [r.closure])
    decreases |s.inside[t].closure| - s.inside[t].made
  {
    var r := s.inside[t];
    if r.made == |r.closure| {
      assert r.closure[..r.made] == r.closure;
      assert s.inside - {t} == map[];
      var last: seq<Step<V>> := [Release(t)];
      assert last[1..] == [];
    } else {
      var n := Next(s, Update(t));
      StepIsSerial(initial, s, Update(t));
      assert Remainder<V>(t, |r.closure| - r.made)[1..] == Remainder<V>(t, |r.closure| - r.made - 1);
      HolderFinishes(initial, n, t);
    }
  }

  /** A free mutex is taken by whichever thread tries first; a held one refuses, and nothing changes. */
  lemma FreeMutexIsTaken<V>(initial: V, s: State<V>, t: nat, closure: Closure<V>)
    requires Serial(initial, s)
    ensures !s.locked ==>
              After(s, [TryLock(t, closure)] + Remainder(t, |closure|))
              == State(false, Apply(closure, s.value), map[], s.done + [closure])
    ensures s.locked ==> Next(s, TryLock(t, closure)) == s
  {
    if !s.locked {
      var n := Next(s, TryLock(t, closure));
      StepIsSerial(initial, s, TryLock(t, closure));
      HolderFinishes(initial, n, t);
      assert ([TryLock(t, closure)] + Remainder(t, |closure|))[1..] == Remainder<V>(t, |closure|);
    }
  }
}
