/** No call to the cache and its singleflight gets stuck: each can return, whatever the others are doing. */
module FlightProgress {
  import opened Runs
  import opened Text
  import opened MemoCache
  import opened Flight

  /** How many steps a caller has before it. */
  function Rank<V>(pc: Pc<V>): nat
  {
    match pc
    case Asking => 9
    case Missed => 8
    case Waiting(_) => 7
    case Leading => 6
    case Ready => 5
    case Computing => 4
    case Storing(_) => 3
    case Publishing(_) => 2
    case Unmapping(_) => 1
    case Returned(_) => 0
  }

  /** A step moves its caller forward, unless it waits for a flight that has yet to publish, and no other one. */
  lemma StepAdvances<V>(c: Config, s: State<V>, w: Id, outcome: Res<V>)
    requires w in c.keys && w in s.callers && !s.callers[w].Returned?
    requires s.callers[w].Waiting? ==> s.callers[w].leader in s.done
    ensures var s' := Step(c, s, Go(w, outcome));
      && w in s'.callers && Rank(s'.callers[w]) < Rank(s.callers[w])
      && s'.callers == s.callers[w := s'.callers[w]]
  {
  }

  /** A leader returns by its own steps. */
  lemma {:induction false} LeaderReturns<V>(c: Config, events: seq<Event<V>>, l: Id, outcome: Res<V>)
    returns (more: seq<Event<V>>)
    requires l in c.keys && l in Exec(c, Init(c), events).callers
    requires var pc := Exec(c, Init(c), events).callers[l]; Leads(pc) || pc.Returned?
    ensures forall e <- more :: e == Go(l, outcome)
    ensures var s, s' := Exec(c, Init(c), events), Exec(c, Init(c), events + more);
      && s'.callers.Keys == s.callers.Keys && s'.callers[l].Returned?
      && forall v <- s.callers :: v != l ==> s'.callers[v] == s.callers[v]
    decreases Rank(Exec(c, Init(c), events).callers[l])
  {
    var s := Exec(c, Init(c), events);
    if s.callers[l].Returned? {
      more := [];
      assert events + more == events;
    } else {
      StepAdvances(c, s, l, outcome);
      assert (events + [Go(l, outcome)])[..|events|] == events;
      var rest := LeaderReturns(c, events + [Go(l, outcome)], l, outcome);
      more := [Go(l, outcome)] + rest;
      assert events + more == events + [Go(l, outcome)] + rest;
    }
  }

  /** Whoever is waited for has published or is still leading. */
  lemma WaitsForLeader<V>(c: Config, events: seq<Event<V>>, w: Id)
    requires w in c.keys && w in Exec(c, Init<V>(c), events).callers
    requires Exec(c, Init<V>(c), events).callers[w].Waiting?
    ensures var s := Exec(c, Init<V>(c), events);
      var l := s.callers[w].leader;
      l in c.keys && l in s.callers && (l in s.done || Leads(s.callers[l]))
  {
    ExecKeepsInv<V>(c, events);
    assert CallerOk(c, Exec(c, Init<V>(c), events), w);
  }

  /** Brings whatever a caller waits for to its end. */
  lemma Unblocked<V>(c: Config, events: seq<Event<V>>, w: Id, outcome: Res<V>) returns (more: seq<Event<V>>)
    requires w in c.keys && w in Exec(c, Init(c), events).callers
    ensures var s, s' := Exec(c, Init(c), events), Exec(c, Init(c), events + more);
      && w in s'.callers && s'.callers[w] == s.callers[w] && (s.callers[w].Waiting? ==> s.callers[w].leader in s'.done)
  {
    var s := Exec(c, Init(c), events);
    more := [];
    assert events + more == events;
    if s.callers[w].Waiting? && s.callers[w].leader !in s.done {
      WaitsForLeader(c, events, w);
      more := LeaderReturns(c, events, s.callers[w].leader, outcome);
      WaitsForLeader(c, events + more, w);
    }
  }

  /** From any point of any run every call can return, by its own steps and those of the flight it waits for. */
  lemma {:induction false} CallsReturn<V>(c: Config, events: seq<Event<V>>, w: Id, outcome: Res<V>)
    returns (more: seq<Event<V>>)
    requires w in c.keys && w in Exec(c, Init(c), events).callers
    ensures var s' := Exec(c, Init(c), events + more); w in s'.callers && s'.callers[w].Returned?
    decreases Rank(Exec(c, Init(c), events).callers[w])
  {
    if Exec(c, Init(c), events).callers[w].Returned? {
      more := [];
      assert events + more == events;
    } else {
      var first := Unblocked(c, events, w, outcome);
      StepAdvances(c, Exec(c, Init(c), events + first), w, outcome);
      var next := events + first + [Go(w, outcome)];
      assert next[..|next| - 1] == events + first;
      var rest := CallsReturn(c, next, w, outcome);
      more := first + [Go(w, outcome)] + rest;
      assert events + more == next + rest;
    }
  }

  // ---- What the record says of lost entries ----

  /** The step records the loss of a key's entry if and only if it takes one from the cache. */
  ghost predicate LosesTruly<V>(s: State<V>, s': State<V>, key: Str)
  {
    s'.log == s.log + [Lost(key)] <==> Get(s.cache, key).Some? && Get(s'.cache, key).None?
  }

  lemma LookLoses<V>(s: State<V>, looked: Str, key: Str)
    requires DistinctKeys(s.cache)
    ensures LosesTruly(s, Look(s, looked).0, key)
  {
    var s', i := Look(s, looked).0, IndexOf(s.cache, looked);
    GetAt(s.cache, looked);
    if key != looked {
      WithoutOther(s.cache, looked, key);
      if i < |s.cache| { Pushed(Without(s.cache, looked), s.cache[i], key); }
      assert (s.log + [Lost(looked)])[|s.log|] != Lost(key);
    } else if i < |s.cache| && s.now > s.cache[i].expiry {
      WithoutIsSmaller(s.cache, looked);
      GetAt(Without(s.cache, looked), looked);
    }
  }

  lemma LastGone<V>(es: seq<Entry<V>>, e: Entry<V>)
    requires DistinctKeys(es) && es != [] && Get(es, e.key).None?
    ensures var key := es[|es| - 1].key; Get(es, key).Some? && Get(([e] + es)[..|es|], key).None?
  {
    var last := |es| - 1;
    UniqueIndex(es, last);
    GetAt(es, e.key);
    GetAt(es, es[last].key);
    Pushed(es, e, es[last].key);
    NotInPrefix([e] + es, |es|, es[last].key);
  }

  lemma KeepEvicts<V>(c: Config, s: State<V>, stored: Str, v: V)
    requires DistinctKeys(s.cache) && c.cap > 0 && |s.cache| <= c.cap && Evicts(c, s, stored)
    ensures var key := s.cache[|s.cache| - 1].key;
      Get(s.cache, key).Some? && Get(Keep(c, s, stored, v).cache, key).None?
  {
    var e := Entry(stored, v, s.now + c.ttl);
    GetAt(s.cache, stored);
    WithoutAbsent(s.cache, stored);
    LastGone(s.cache, e);
    assert |[e] + s.cache| == c.cap + 1;
    assert Keep(c, s, stored, v).cache == ([e] + s.cache)[..c.cap];
  }

  lemma KeepLoses<V>(c: Config, s: State<V>, stored: Str, v: V, key: Str)
    requires DistinctKeys(s.cache) && (c.cap > 0 ==> |s.cache| <= c.cap)
    ensures LosesTruly(s, Keep(c, s, stored, v), key)
  {
    var last := |s.cache| - 1;
    GetAt(s.cache, stored);
    if Evicts(c, s, stored) {
      assert (s.log + [Lost(s.cache[last].key)])[|s.log|] == Lost(s.cache[last].key);
      if key == s.cache[last].key {
        KeepEvicts(c, s, stored, v);
      } else if key != stored {
        KeepOthers(c, s, stored, v, key);
      }
    } else if key != stored {
      KeepOthers(c, s, stored, v, key);
    } else {
      KeepWhole(c, s, stored, v);
    }
  }

  /** A step records the loss of an entry if and only if it takes one from the cache: an expired one that it looks
      up, or the oldest of a full cache when it stores under another key. */
  lemma LossesAreTrue<V>(c: Config, events: seq<Event<V>>, e: Event<V>, key: Str)
    ensures var s: State<V> := Exec(c, Init(c), events); LosesTruly(s, Step(c, s, e), key)
  {
    ExecKeepsInv<V>(c, events);
    var s: State<V> := Exec(c, Init(c), events);
    if e.Go? && e.w in c.keys && (s.callers[e.w].Asking? || s.callers[e.w].Leading?) {
      LookLoses(s, c.keys[e.w], key);
    } else if e.Go? && e.w in c.keys && s.callers[e.w].Storing? {
      KeepLoses(c, s, c.keys[e.w], s.callers[e.w].v, key);
    } else {
      OtherStepsLoseNothing(c, s, e, key);
    }
  }

  lemma OtherStepsLoseNothing<V>(c: Config, s: State<V>, e: Event<V>, key: Str)
    requires s.callers.Keys == c.keys.Keys
    requires e.Go? && e.w in c.keys ==>
      !s.callers[e.w].Asking? && !s.callers[e.w].Leading? && !s.callers[e.w].Storing?
    ensures LosesTruly(s, Step(c, s, e), key)
  {
    var s' := Step(c, s, e);
    assert s'.cache == s.cache;
    assert s'.log == s.log || !s'.log[|s.log|].Lost?;
  }
}
