/** Runs of a state machine: its step function folded over the events, the last one outermost. */
module Runs {

  function Fold<S, E>(step: (S, E) -> S, s: S, events: seq<E>): S
  {
    if events == [] then s else step(Fold(step, s, events[..|events| - 1]), events[|events| - 1])
  }

  /** A run can be cut anywhere. */
  lemma {:induction false} Concat<S, E>(step: (S, E) -> S, s: S, a: seq<E>, b: seq<E>)
    ensures Fold(step, s, a + b) == Fold(step, Fold(step, s, a), b)
  {
    if b == [] {
      assert a + b == a;
    } else {
      assert (a + b)[..|a + b| - 1] == a + b[..|b| - 1];
      Concat(step, s, a, b[..|b| - 1]);
    }
  }

  /** A run given state by state. */
  lemma {:induction false} Play<S, E>(step: (S, E) -> S, s: S, events: seq<E>, states: seq<S>)
    requires |states| == |events| + 1 && states[0] == s
    requires forall i: nat | i < |events| :: states[i + 1] == step(states[i], events[i])
    ensures Fold(step, s, events) == states[|events|]
  {
    if events != [] {
      Play(step, s, events[..|events| - 1], states[..|events|]);
    }
  }

  /** Every event of the run is allowed in the state it finds. */
  ghost predicate Throughout<S, E>(step: (S, E) -> S, allowed: (S, E) -> bool, s: S, events: seq<E>)
  {
    events != [] ==>
      var before := events[..|events| - 1];
      Throughout(step, allowed, s, before) && allowed(Fold(step, s, before), events[|events| - 1])
  }

  lemma {:induction false} ThroughoutConcat<S, E>(step: (S, E) -> S, allowed: (S, E) -> bool, s: S, a: seq<E>,
      b: seq<E>)
    ensures Throughout(step, allowed, s, a + b) <==>
      Throughout(step, allowed, s, a) && Throughout(step, allowed, Fold(step, s, a), b)
    ensures Fold(step, s, a + b) == Fold(step, Fold(step, s, a), b)
  {
    Concat(step, s, a, b);
    if b == [] {
      assert a + b == a;
    } else {
      var most := b[..|b| - 1];
      assert (a + b)[..|a + b| - 1] == a + most;
      ThroughoutConcat(step, allowed, s, a, most);
    }
  }

  /** A run of allowed events, given state by state. */
  lemma {:induction false} PlayAllowed<S, E>(step: (S, E) -> S, allowed: (S, E) -> bool, s: S, events: seq<E>,
      states: seq<S>)
    requires |states| == |events| + 1 && states[0] == s
    requires forall i: nat | i < |events| ::
      states[i + 1] == step(states[i], events[i]) && allowed(states[i], events[i])
    ensures Throughout(step, allowed, s, events) && Fold(step, s, events) == states[|events|]
  {
    if events != [] {
      PlayAllowed(step, allowed, s, events[..|events| - 1], states[..|events|]);
    }
  }
}
