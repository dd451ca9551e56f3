/** The cache and its singleflight together: any number of callers ask for keys at any time, each of them
    looking the key up, joining or leading a flight, computing, storing and publishing. */
module Flight {
  import opened Runs
  import opened Text
  import opened MemoCache

  type Id = nat

  datatype Res<V> = Ok(v: V) | Err

  /** Where a caller stands. From Leading to Unmapping it leads the flight of its key, under its own id. */
  datatype Pc<V> =
    | Asking
    | Missed
    | Waiting(leader: Id)
    | Leading
    | Ready
    | Computing
    | Storing(v: V)
    | Publishing(r: Res<V>)
    | Unmapping(r: Res<V>)
    | Returned(r: Res<V>)

  /** What happened, for the record: computations beginning and ending, and entries leaving the cache by
      expiry or eviction. */
  datatype Happened<V> = Began(key: Str) | Ended(key: Str, r: Res<V>) | Lost(key: Str)

  datatype State<V> = State(cache: seq<Entry<V>>, now: int, flights: map<Str, Id>, done: map<Id, Res<V>>,
                            callers: map<Id, Pc<V>>, log: seq<Happened<V>>)

  datatype Config = Config(keys: map<Id, Str>, ttl: int, cap: int)

  datatype Event<V> = Tick(d: nat) | Go(w: Id, outcome: Res<V>)

  function Init<V>(c: Config): State<V>
  {
    State([], 0, map[], map[], map w | w in c.keys :: Asking, [])
  }

  function At<V>(s: State<V>, w: Id, pc: Pc<V>): State<V>
  {
    s.(callers := s.callers[w := pc])
  }

  /** A lookup under the cache lock, recording an expiry. */
  function Look<V>(s: State<V>, key: Str): (State<V>, Option<V>)
  {
    var (es, hit) := Peek(s.cache, key, s.now);
    (s.(cache := es, log := if hit.None? && Has(s.cache, key) then s.log + [Lost(key)] else s.log), hit)
  }

  /** A store under the cache lock, recording an eviction. */
  function Keep<V>(c: Config, s: State<V>, key: Str, v: V): State<V>
  {
    var full := !Has(s.cache, key) && 0 < c.cap <= |s.cache|;
    s.(cache := Store(s.cache, key, v, s.now, c.ttl, c.cap),
       log := if full then s.log + [Lost(s.cache[|s.cache| - 1].key)] else s.log)
  }

  function StepCaller<V>(c: Config, s: State<V>, w: Id, outcome: Res<V>): State<V>
    requires w in c.keys && w in s.callers
  {
    var key := c.keys[w];
    match s.callers[w]
    case Asking =>
      var (s', hit) := Look(s, key);
      At(s', w, if hit.Some? then Returned(Ok(hit.value)) else Missed)
    case Missed =>
      if key in s.flights then At(s, w, Waiting(s.flights[key]))
      else At(s.(flights := s.flights[key := w]), w, Leading)
    case Waiting(l) => if l in s.done then At(s, w, Returned(s.done[l])) else s
    case Leading =>
      var (s', hit) := Look(s, key);
      At(s', w, if hit.Some? then Publishing(Ok(hit.value)) else Ready)
    case Ready => At(s.(log := s.log + [Began(key)]), w, Computing)
    case Computing =>
      At(s.(log := s.log + [Ended(key, outcome)]), w, if outcome.Ok? then Storing(outcome.v) else Publishing(Err))
    case Storing(v) => At(Keep(c, s, key, v), w, Publishing(Ok(v)))
    case Publishing(r) => At(s.(done := s.done[w := r]), w, Unmapping(r))
    case Unmapping(r) => At(s.(flights := s.flights - {key}), w, Returned(r))
    case Returned(_) => s
  }

  function Step<V>(c: Config, s: State<V>, e: Event<V>): State<V>
  {
    match e
    case Tick(d) => s.(now := s.now + d)
    case Go(w, outcome) => if w in c.keys && w in s.callers then StepCaller(c, s, w, outcome) else s
  }

  function Steps<V>(c: Config): (State<V>, Event<V>) -> State<V>
  {
    (s, e) => Step(c, s, e)
  }

  function Exec<V>(c: Config, s: State<V>, events: seq<Event<V>>): State<V>
  {
    Fold(Steps(c), s, events)
  }

  predicate Leads<V>(pc: Pc<V>)
  {
    pc.Leading? || pc.Ready? || pc.Computing? || pc.Storing? || pc.Publishing? || pc.Unmapping?
  }

  /** The key's last successful computation has not lost its entry since. */
  predicate Alive<V>(log: seq<Happened<V>>, key: Str)
  {
    log != [] &&
    var last := log[|log| - 1];
    if last == Lost(key) then false
    else if last.Ended? && last.key == key && last.r.Ok? then true
    else Alive(log[..|log| - 1], key)
  }

  ghost predicate Computed<V>(log: seq<Happened<V>>, key: Str, r: Res<V>)
  {
    Ended(key, r) in log
  }

  // ---- The invariant ----

  ghost predicate CallerOk<V>(c: Config, s: State<V>, w: Id)
    requires w in c.keys && w in s.callers
  {
    var key, pc := c.keys[w], s.callers[w];
    && (Leads(pc) ==> key in s.flights && s.flights[key] == w)
    && (w in s.done ==> pc.Unmapping? || pc.Returned?)
    && match pc
       case Waiting(l) => l in c.keys && c.keys[l] == key && (l in s.done || (key in s.flights && s.flights[key] == l))
       case Ready => !Alive(s.log, key)
       case Computing => !Alive(s.log, key)
       case Storing(v) => Computed(s.log, key, Ok(v))
       case Publishing(r) => Computed(s.log, key, r)
       case Unmapping(r) => Computed(s.log, key, r) && w in s.done
       case Returned(r) => Computed(s.log, key, r)
       case _ => true
  }

  ghost predicate FlightsOk<V>(c: Config, s: State<V>)
  {
    && s.callers.Keys == c.keys.Keys
    && (forall k <- s.flights :: s.flights[k] in c.keys && c.keys[s.flights[k]] == k && Leads(s.callers[s.flights[k]]))
    && (forall w <- s.done :: w in c.keys && Computed(s.log, c.keys[w], s.done[w]))
    && (forall w <- c.keys :: CallerOk(c, s, w))
  }

  ghost predicate CacheOk<V>(c: Config, cache: seq<Entry<V>>, log: seq<Happened<V>>)
  {
    && DistinctKeys(cache) && (c.cap > 0 ==> |cache| <= c.cap)
    && (forall i :: 0 <= i < |cache| ==> Computed(log, cache[i].key, Ok(cache[i].val)))
  }

  predicate StoringKey<V>(s: State<V>, key: Str)
  {
    key in s.flights && s.flights[key] in s.callers && s.callers[s.flights[key]].Storing?
  }

  /** A live computation's entry is in the cache, or on its way there. */
  ghost predicate AliveOk<V>(s: State<V>)
  {
    forall key :: Alive(s.log, key) ==> Get(s.cache, key).Some? || StoringKey(s, key)
  }

  /** Every computation began when no earlier successful one of its key still had its entry. */
  ghost predicate BeganOk<V>(log: seq<Happened<V>>)
  {
    forall i :: 0 <= i < |log| && log[i].Began? ==> !Alive(log[..i], log[i].key)
  }

  ghost predicate Inv<V>(c: Config, s: State<V>)
  {
    FlightsOk(c, s) && CacheOk(c, s.cache, s.log) && AliveOk(s) && BeganOk(s.log)
  }

  lemma BeganSnoc<V>(log: seq<Happened<V>>, h: Happened<V>)
    requires BeganOk(log) && (h.Began? ==> !Alive(log, h.key))
    ensures BeganOk(log + [h])
  {
    var more := log + [h];
    forall i | 0 <= i < |more| && more[i].Began? ensures !Alive(more[..i], more[i].key) {
      assert more[..i] == log[..i];
      if i == |log| { assert log[..i] == log; }
    }
  }

  /** A lookup keeps what the invariant says of cache and log; a miss leaves no live entry behind. */
  lemma LookKeeps<V>(c: Config, s: State<V>, key: Str)
    requires CacheOk(c, s.cache, s.log) && AliveOk(s) && BeganOk(s.log)
    ensures var (s', hit) := Look(s, key);
      && CacheOk(c, s'.cache, s'.log) && AliveOk(s') && BeganOk(s'.log)
      && (forall k :: Alive(s'.log, k) ==> Alive(s.log, k))
      && (forall k, r :: Computed(s.log, k, r) ==> Computed(s'.log, k, r))
      && (hit.Some? ==> Computed(s'.log, key, Ok(hit.value)))
      && (hit.None? && !StoringKey(s, key) ==> !Alive(s'.log, key))
  {
    var (s', hit) := Look(s, key);
    var i := IndexOf(s.cache, key);
    GetAt(s.cache, key);
    AfterKeepsBound(s.cache, Lookup(key, s.now), c.ttl, c.cap);
    WithoutIsSmaller(s.cache, key);
    if s'.log != s.log { BeganSnoc(s.log, Lost(key)); }
    forall k ensures Alive(s'.log, k) ==> Alive(s.log, k) && (Get(s'.cache, k).Some? || StoringKey(s', k)) {
      if k != key {
        WithoutOther(s.cache, key, k);
        if i < |s.cache| { Pushed(Without(s.cache, key), s.cache[i], k); }
      }
    }
  }

  /** The key a store evicts. */
  predicate Evicts<V>(c: Config, s: State<V>, key: Str)
  {
    !Has(s.cache, key) && 0 < c.cap <= |s.cache|
  }

  lemma KeepCacheOk<V>(c: Config, s: State<V>, key: Str, v: V)
    requires CacheOk(c, s.cache, s.log) && Computed(s.log, key, Ok(v))
    ensures var s' := Keep(c, s, key, v); CacheOk(c, s'.cache, s'.log) && Get(s'.cache, key).Some?
  {
    var s' := Keep(c, s, key, v);
    var w := Without(s.cache, key);
    AfterKeepsBound(s.cache, Save(key, v, s.now), c.ttl, c.cap);
    WithoutIsSmaller(s.cache, key);
    assert s'.cache[0] == Entry(key, v, s.now + c.ttl);
    forall i | 0 <= i < |s'.cache| ensures Computed(s'.log, s'.cache[i].key, Ok(s'.cache[i].val)) {
      if i > 0 {
        assert s'.cache[i] == w[i - 1] && w[i - 1] in s.cache;
        var j :| 0 <= j < |s.cache| && s.cache[j] == w[i - 1];
      }
    }
  }

  lemma KeepLog<V>(c: Config, s: State<V>, key: Str, v: V, k: Str)
    requires BeganOk(s.log)
    ensures var s' := Keep(c, s, key, v);
      && BeganOk(s'.log)
      && (Alive(s'.log, k) ==> Alive(s.log, k) && (Evicts(c, s, key) ==> s.cache[|s.cache| - 1].key != k))
      && (forall r :: Computed(s.log, k, r) ==> Computed(s'.log, k, r))
  {
    if Evicts(c, s, key) {
      BeganSnoc(s.log, Lost(s.cache[|s.cache| - 1].key));
    }
  }

  lemma KeepOthers<V>(c: Config, s: State<V>, key: Str, v: V, k: Str)
    requires DistinctKeys(s.cache) && k != key && (Evicts(c, s, key) ==> s.cache[|s.cache| - 1].key != k)
    requires c.cap > 0 ==> |s.cache| <= c.cap
    ensures Get(Keep(c, s, key, v).cache, k).Some? <==> Get(s.cache, k).Some?
  {
    GetAt(s.cache, key);
    if Evicts(c, s, key) {
      WithoutAbsent(s.cache, key);
      assert |[Entry(key, v, s.now + c.ttl)] + s.cache| > c.cap == |s.cache|;
      LastOnlyLost(s.cache, Entry(key, v, s.now + c.ttl), k);
    } else {
      KeepWhole(c, s, key, v);
      WithoutOther(s.cache, key, k);
      Pushed(Without(s.cache, key), Entry(key, v, s.now + c.ttl), k);
    }
  }

  lemma KeepWhole<V>(c: Config, s: State<V>, key: Str, v: V)
    requires DistinctKeys(s.cache) && !Evicts(c, s, key)
    ensures Keep(c, s, key, v).cache == [Entry(key, v, s.now + c.ttl)] + Without(s.cache, key)
  {
    GetAt(s.cache, key);
    WithoutIsSmaller(s.cache, key);
  }

  lemma KeepKeeps<V>(c: Config, s: State<V>, key: Str, v: V)
    requires CacheOk(c, s.cache, s.log) && BeganOk(s.log) && Computed(s.log, key, Ok(v))
    requires forall k :: k != key && Alive(s.log, k) ==> Get(s.cache, k).Some? || StoringKey(s, k)
    ensures var s' := Keep(c, s, key, v);
      && CacheOk(c, s'.cache, s'.log) && BeganOk(s'.log)
      && (forall k :: Alive(s'.log, k) ==> Alive(s.log, k))
      && (forall k, r :: Computed(s.log, k, r) ==> Computed(s'.log, k, r))
      && Get(s'.cache, key).Some?
      && (forall k :: k != key && Alive(s'.log, k) ==> Get(s'.cache, k).Some? || StoringKey(s, k))
  {
    var s' := Keep(c, s, key, v);
    KeepCacheOk(c, s, key, v);
    forall k ensures BeganOk(s'.log) && (forall r :: Computed(s.log, k, r) ==> Computed(s'.log, k, r))
      ensures Alive(s'.log, k) ==> Alive(s.log, k) && (k != key ==> Get(s'.cache, k).Some? || StoringKey(s, k))
    {
      KeepLog(c, s, key, v, k);
      if k != key && Alive(s'.log, k) { KeepOthers(c, s, key, v, k); }
    }
  }

  /** Evicting the last of a full cache loses only that key. */
  lemma LastOnlyLost<V>(es: seq<Entry<V>>, e: Entry<V>, k: Str)
    requires DistinctKeys(es) && es != [] && k != e.key && k != es[|es| - 1].key
    ensures Get(([e] + es)[..|es|], k).Some? <==> Get(es, k).Some?
  {
    Pushed(es, e, k);
    GetAt([e] + es, k);
    GetAt(es, k);
    if Get(es, k).Some? {
      PrefixSame([e] + es, |es|, k);
    } else {
      PrefixGone([e] + es, k);
    }
  }

  /** Moving one caller between states of equal flight leadership. */
  lemma MoveKeeps<V>(c: Config, s: State<V>, s': State<V>, w: Id)
    requires FlightsOk(c, s) && w in c.keys
    requires s'.callers.Keys == s.callers.Keys && (forall v <- s.callers :: v != w ==> s'.callers[v] == s.callers[v])
    requires s'.flights == s.flights && s'.done == s.done && (Leads(s.callers[w]) <==> Leads(s'.callers[w]))
    requires forall k, r :: Computed(s.log, k, r) ==> Computed(s'.log, k, r)
    requires forall v <- c.keys ::
      v != w && (s.callers[v].Ready? || s.callers[v].Computing?) && Alive(s'.log, c.keys[v]) ==> Alive(s.log, c.keys[v])
    requires CallerOk(c, s', w)
    ensures FlightsOk(c, s')
  {
    forall v <- c.keys ensures CallerOk(c, s', v) {
      if v != w { assert CallerOk(c, s, v); }
    }
  }

  lemma LookStep<V>(c: Config, s: State<V>, w: Id, outcome: Res<V>)
    requires Inv(c, s) && w in c.keys && (s.callers[w].Asking? || s.callers[w].Leading?)
    ensures Inv(c, StepCaller(c, s, w, outcome))
  {
    var s' := StepCaller(c, s, w, outcome);
    assert CallerOk(c, s, w);
    LookKeeps(c, s, c.keys[w]);
    MoveKeeps(c, s, s', w);
    forall k ensures StoringKey(s', k) <==> StoringKey(s, k) {
      if k in s.flights { assert s.flights[k] in c.keys; }
    }
    assert AliveOk(s');
  }

  /** A missing caller joins the flight of its key, or a waiting one takes its result. */
  lemma WaitStep<V>(c: Config, s: State<V>, w: Id, outcome: Res<V>)
    requires Inv(c, s) && w in c.keys && ((s.callers[w].Missed? && c.keys[w] in s.flights) || s.callers[w].Waiting?)
    ensures Inv(c, StepCaller(c, s, w, outcome))
  {
    var s' := StepCaller(c, s, w, outcome);
    assert CallerOk(c, s, w);
    if s' != s {
      MoveKeeps(c, s, s', w);
    }
  }

  /** A missing caller finds no flight of its key and starts one. */
  lemma LeadStep<V>(c: Config, s: State<V>, w: Id, outcome: Res<V>)
    requires Inv(c, s) && w in c.keys && s.callers[w].Missed? && c.keys[w] !in s.flights
    ensures Inv(c, StepCaller(c, s, w, outcome))
  {
    var s' := StepCaller(c, s, w, outcome);
    assert CallerOk(c, s, w);
    forall v <- c.keys ensures CallerOk(c, s', v) {
      assert CallerOk(c, s, v);
    }
  }

  lemma ComputeStep<V>(c: Config, s: State<V>, w: Id, outcome: Res<V>)
    requires Inv(c, s) && w in c.keys && (s.callers[w].Ready? || s.callers[w].Computing?)
    ensures Inv(c, StepCaller(c, s, w, outcome))
  {
    var s' := StepCaller(c, s, w, outcome);
    var h, key := s'.log[|s.log|], c.keys[w];
    assert CallerOk(c, s, w);
    assert s'.log == s.log + [h];
    BeganSnoc(s.log, h);
    forall k ensures Alive(s'.log, k) ==> Alive(s.log, k) || (k == key && s'.callers[w].Storing?) {
    }
    forall v <- c.keys ensures v != w && (s.callers[v].Ready? || s.callers[v].Computing?) ==> c.keys[v] != key {
      assert CallerOk(c, s, v);
    }
    MoveKeeps(c, s, s', w);
    forall k ensures StoringKey(s, k) ==> StoringKey(s', k) {
      if k in s.flights { assert s.flights[k] in c.keys; }
    }
    assert AliveOk(s');
  }

  lemma StoreStep<V>(c: Config, s: State<V>, w: Id, outcome: Res<V>)
    requires Inv(c, s) && w in c.keys && s.callers[w].Storing?
    ensures Inv(c, StepCaller(c, s, w, outcome))
  {
    var s' := StepCaller(c, s, w, outcome);
    var key := c.keys[w];
    assert CallerOk(c, s, w);
    KeepKeeps(c, s, key, s.callers[w].v);
    MoveKeeps(c, s, s', w);
    forall k ensures k != key && StoringKey(s, k) ==> StoringKey(s', k) {
      if k in s.flights { assert s.flights[k] in c.keys; }
    }
    assert AliveOk(s');
  }

  lemma PublishStep<V>(c: Config, s: State<V>, w: Id, outcome: Res<V>)
    requires Inv(c, s) && w in c.keys && s.callers[w].Publishing?
    ensures Inv(c, StepCaller(c, s, w, outcome))
  {
    var s' := StepCaller(c, s, w, outcome);
    assert CallerOk(c, s, w);
    forall v <- c.keys ensures CallerOk(c, s', v) {
      assert CallerOk(c, s, v);
    }
  }

  lemma UnmapStep<V>(c: Config, s: State<V>, w: Id, outcome: Res<V>)
    requires Inv(c, s) && w in c.keys && s.callers[w].Unmapping?
    ensures Inv(c, StepCaller(c, s, w, outcome))
  {
    var s' := StepCaller(c, s, w, outcome);
    assert CallerOk(c, s, w);
    forall v <- c.keys ensures CallerOk(c, s', v) {
      assert CallerOk(c, s, v);
    }
  }

  lemma StepKeepsInv<V>(c: Config, s: State<V>, e: Event<V>)
    requires Inv(c, s)
    ensures Inv(c, Step(c, s, e))
  {
    match e
    case Tick(d) =>
      forall v <- c.keys ensures CallerOk(c, Step(c, s, e), v) { assert CallerOk(c, s, v); }
    case Go(w, outcome) =>
      if w in c.keys {
        match s.callers[w]
        case Asking => LookStep(c, s, w, outcome);
        case Leading => LookStep(c, s, w, outcome);
        case Missed => if c.keys[w] in s.flights { WaitStep(c, s, w, outcome); } else { LeadStep(c, s, w, outcome); }
        case Waiting(_) => WaitStep(c, s, w, outcome);
        case Ready => ComputeStep(c, s, w, outcome);
        case Computing => ComputeStep(c, s, w, outcome);
        case Storing(_) => StoreStep(c, s, w, outcome);
        case Publishing(_) => PublishStep(c, s, w, outcome);
        case Unmapping(_) => UnmapStep(c, s, w, outcome);
        case Returned(_) =>
      }
  }

  lemma {:induction false} ExecKeepsInv<V>(c: Config, events: seq<Event<V>>)
    ensures Inv(c, Exec(c, Init(c), events))
  {
    if events != [] {
      ExecKeepsInv(c, events[..|events| - 1]);
      StepKeepsInv(c, Exec(c, Init(c), events[..|events| - 1]), events[|events| - 1]);
    }
  }

  // ---- What every run guarantees ----

  /** At most one computation per key runs at a time. */
  lemma OneComputationPerKey<V>(c: Config, events: seq<Event<V>>, w: Id, v: Id)
    requires var s := Exec(c, Init(c), events);
      w in s.callers && v in s.callers && s.callers[w].Computing? && s.callers[v].Computing?
    ensures w in c.keys && v in c.keys && (c.keys[w] == c.keys[v] ==> w == v)
  {
    var s := Exec(c, Init(c), events);
    ExecKeepsInv(c, events);
    assert CallerOk(c, s, w) && CallerOk(c, s, v);
  }

  /** Every caller that returns got the result of a finished computation of its own key, and every waiting
      caller waits for a flight of its key that is still led or has published. */
  lemma ResultsAreOwn<V>(c: Config, events: seq<Event<V>>, w: Id)
    requires w in c.keys
    ensures var s := Exec(c, Init(c), events);
      && w in s.callers
      && (s.callers[w].Returned? ==> Ended(c.keys[w], s.callers[w].r) in s.log)
      && (s.callers[w].Waiting? ==>
            var l := s.callers[w].leader;
            l in c.keys && c.keys[l] == c.keys[w] && (l in s.done || (l in s.callers && Leads(s.callers[l]))))
  {
    var s := Exec(c, Init(c), events);
    ExecKeepsInv(c, events);
    assert CallerOk(c, s, w);
  }

  lemma {:induction false} NotAliveMeansLost<V>(log: seq<Happened<V>>, key: Str, i: nat)
    requires i < |log| && log[i].Ended? && log[i].key == key && log[i].r.Ok? && !Alive(log, key)
    ensures exists m :: i < m < |log| && log[m] == Lost(key)
  {
    var n := |log| - 1;
    if log[n] != Lost(key) {
      assert i < n;
      NotAliveMeansLost(log[..n], key, i);
      var m :| i < m < n && log[..n][m] == Lost(key);
      assert log[m] == Lost(key);
    }
  }

  /** Between a successful computation and any later one of the same key, the key's entry expired or was
      evicted. */
  lemma ComputationsAreSeparated<V>(c: Config, events: seq<Event<V>>, i: nat, j: nat)
    requires var log := Exec(c, Init(c), events).log;
      i < j < |log| && log[i].Ended? && log[i].r.Ok? && log[j] == Began(log[i].key)
    ensures var log := Exec(c, Init(c), events).log;
      exists m :: i < m < j && log[m] == Lost(log[i].key)
  {
    var log := Exec(c, Init(c), events).log;
    ExecKeepsInv(c, events);
    assert !Alive(log[..j], log[j].key);
    NotAliveMeansLost(log[..j], log[i].key, i);
    var m :| i < m < j && log[..j][m] == Lost(log[i].key);
    assert log[m] == Lost(log[i].key);
  }
}
