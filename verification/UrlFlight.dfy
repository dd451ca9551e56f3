/** Signed URLs through the cache and its singleflight: when every URL that a call returns, from the cache, from
    its own computation or from a flight it joined, is still valid as it is returned. */
module UrlFlight {
  import opened Runs
  import opened Text
  import opened MemoCache
  import F = Flight

  type Id = F.Id
  type Pc = F.Pc<SignedUrl>
  type Event = F.Event<SignedUrl>
  type Res = F.Res<SignedUrl>

  /** A run of the singleflight, with the time at which each call began. */
  datatype Urls = Urls(flight: F.State<SignedUrl>, since: map<Id, int>)

  datatype Config = Config(calls: F.Config, urlTTL: int)

  predicate Begins(s: Urls, e: Event)
  {
    e.Go? && e.w in s.flight.callers && s.flight.callers[e.w].Asking?
  }

  function Step(c: Config, s: Urls, e: Event): Urls
  {
    Urls(F.Step(c.calls, s.flight, e), if Begins(s, e) then s.since[e.w := s.flight.now] else s.since)
  }

  function Init(c: Config): Urls
  {
    Urls(F.Init(c.calls), map w | w in c.calls.keys :: 0)
  }

  function Steps(c: Config): (Urls, Event) -> Urls
  {
    (s, e) => Step(c, s, e)
  }

  function Exec(c: Config, s: Urls, events: seq<Event>): Urls
  {
    Fold(Steps(c), s, events)
  }

  lemma {:induction false} RunIsAFlightRun(c: Config, events: seq<Event>)
    ensures Exec(c, Init(c), events).flight == F.Exec(c.calls, F.Init(c.calls), events)
  {
    if events != [] {
      RunIsAFlightRun(c, events[..|events| - 1]);
    }
  }

  function SignedAt(c: Config, u: SignedUrl): int
  {
    u.validUntil - c.urlTTL
  }

  predicate Busy(pc: Pc)
  {
    !pc.Asking? && !pc.Returned?
  }

  /** Time passes only while every call under way is no older than delta, and a computation signs a URL at some
      time between the beginning of its call and its own end. */
  predicate InTime(c: Config, delta: nat, s: Urls, e: Event)
  {
    match e
    case Tick(d) =>
      forall w <- s.flight.callers :: Busy(s.flight.callers[w]) ==>
        w in s.since && s.flight.now + d <= s.since[w] + delta
    case Go(w, outcome) =>
      w in s.flight.callers && s.flight.callers[w].Computing? && outcome.Ok? ==>
        w in s.since && s.since[w] <= SignedAt(c, outcome.v) <= s.flight.now
  }

  function Timed(c: Config, delta: nat): (Urls, Event) -> bool
  {
    (s, e) => InTime(c, delta, s, e)
  }

  /** No call of the run takes longer than delta. */
  ghost predicate Brisk(c: Config, delta: nat, events: seq<Event>)
  {
    Throughout(Steps(c), Timed(c, delta), Init(c), events)
  }

  // ---- The invariant ----

  ghost predicate EntryOk(c: Config, delta: nat, e: Option<Entry<SignedUrl>>)
  {
    e.Some? ==> e.value.expiry <= SignedAt(c, e.value.val) + delta + c.calls.ttl
  }

  /** A result signed at most delta before its call began. */
  ghost predicate ResultOk(c: Config, delta: nat, since: int, r: Res)
  {
    r.Ok? ==> since <= SignedAt(c, r.v) + delta
  }

  /** An entry that a call may still find was stored after the call missed. */
  ghost predicate FindsOk(c: Config, delta: nat, since: int, found: Option<Entry<SignedUrl>>)
  {
    found.Some? ==> since <= SignedAt(c, found.value.val) + delta
  }

  /** One call, given what the cache has for its key. */
  ghost predicate CallOk(c: Config, delta: nat, now: int, since: map<Id, int>, found: Option<Entry<SignedUrl>>, w: Id,
      pc: Pc)
    requires w in since
  {
    && since[w] <= now && (Busy(pc) ==> now <= since[w] + delta)
    && match pc
       case Missed => FindsOk(c, delta, since[w], found)
       case Leading => FindsOk(c, delta, since[w], found)
       case Storing(u) => since[w] <= SignedAt(c, u)
       case Publishing(r) => ResultOk(c, delta, since[w], r)
       case Unmapping(r) => ResultOk(c, delta, since[w], r)
       case Waiting(l) => l in since && since[w] <= since[l] + delta
       case _ => true
  }

  ghost predicate CallsOk(c: Config, delta: nat, s: Urls)
  {
    && s.flight.callers.Keys == c.calls.keys.Keys == s.since.Keys
    && forall w <- c.calls.keys ::
         CallOk(c, delta, s.flight.now, s.since, Get(s.flight.cache, c.calls.keys[w]), w, s.flight.callers[w])
  }

  ghost predicate DoneOk(c: Config, delta: nat, s: Urls)
  {
    forall l <- s.flight.done :: l in s.since && ResultOk(c, delta, s.since[l], s.flight.done[l])
  }

  ghost predicate EntriesOk(c: Config, delta: nat, cache: seq<Entry<SignedUrl>>)
  {
    forall key :: EntryOk(c, delta, Get(cache, key))
  }

  ghost predicate UrlInv(c: Config, delta: nat, s: Urls)
  {
    EntriesOk(c, delta, s.flight.cache) && CallsOk(c, delta, s) && DoneOk(c, delta, s)
  }

  /** A lookup leaves every other entry as it is, and none of its own key when it misses. */
  lemma Looked(s: F.State<SignedUrl>, key: Str, k: Str)
    requires DistinctKeys(s.cache)
    ensures var (s', hit) := F.Look(s, key);
      && (Get(s'.cache, k).Some? ==> Get(s'.cache, k) == Get(s.cache, k))
      && (hit.None? ==> Get(s'.cache, key).None?)
      && (hit.Some? ==> Get(s.cache, key).Some? && hit.value == Get(s.cache, key).value.val
                        && s.now <= Get(s.cache, key).value.expiry)
  {
    GetAfter(s.cache, Lookup(key, s.now), 0, 0, k);
    GetAt(s.cache, key);
    WithoutIsSmaller(s.cache, key);
    GetAt(Without(s.cache, key), key);
  }

  /** One caller moves: the others are as they were, if what they may find is no worse. */
  lemma Moves(c: Config, delta: nat, s: Urls, s': Urls, w: Id)
    requires CallsOk(c, delta, s) && w in c.calls.keys && s'.flight.now == s.flight.now
    requires s'.flight.callers.Keys == s.flight.callers.Keys && s'.since.Keys == s.since.Keys
    requires forall v <- c.calls.keys :: v != w ==>
      s'.flight.callers[v] == s.flight.callers[v] && s'.since[v] == s.since[v]
    requires s'.since[w] >= s.since[w] || s'.since == s.since
    requires forall v <- c.calls.keys :: v != w && s.since[v] <= s.flight.now ==>
      var was, found := Get(s.flight.cache, c.calls.keys[v]), Get(s'.flight.cache, c.calls.keys[v]);
      found == was || FindsOk(c, delta, s.since[v], found)
    requires CallOk(c, delta, s'.flight.now, s'.since, Get(s'.flight.cache, c.calls.keys[w]), w, s'.flight.callers[w])
    ensures CallsOk(c, delta, s')
  {
    forall v <- c.calls.keys
      ensures CallOk(c, delta, s'.flight.now, s'.since, Get(s'.flight.cache, c.calls.keys[v]), v, s'.flight.callers[v])
    {
      if v != w {
        assert CallOk(c, delta, s.flight.now, s.since, Get(s.flight.cache, c.calls.keys[v]), v, s.flight.callers[v]);
      }
    }
  }

  function Found(c: Config, s: Urls, w: Id): Option<Entry<SignedUrl>>
    requires w in c.calls.keys
  {
    Get(s.flight.cache, c.calls.keys[w])
  }

  ghost predicate Sound(c: Config, delta: nat, s: Urls)
  {
    F.Inv(c.calls, s.flight) && UrlInv(c, delta, s)
  }

  /** What a look of call w leaves in the cache. */
  ghost predicate LooksOnly(c: Config, s: Urls, s': Urls, w: Id)
    requires w in c.calls.keys
  {
    && (forall k :: Get(s'.flight.cache, k).Some? ==> Get(s'.flight.cache, k) == Get(s.flight.cache, k))
    && w in s'.flight.callers && (s'.flight.callers[w].Missed? ==> Found(c, s', w).None?)
    && (s'.flight.callers[w].Publishing? ==>
      s'.flight.callers[w].r.Ok? && Found(c, s, w).Some? && s'.flight.callers[w].r.v == Found(c, s, w).value.val)
  }

  lemma LookLooksOnly(c: Config, s: Urls, w: Id, outcome: Res)
    requires w in c.calls.keys && DistinctKeys(s.flight.cache) && w in s.flight.callers
    requires s.flight.callers[w].Asking? || s.flight.callers[w].Leading?
    ensures LooksOnly(c, s, Step(c, s, F.Go(w, outcome)), w)
  {
    var s' := Step(c, s, F.Go(w, outcome));
    Looked(s.flight, c.calls.keys[w], c.calls.keys[w]);
    forall k ensures Get(s'.flight.cache, k).Some? ==> Get(s'.flight.cache, k) == Get(s.flight.cache, k) {
      Looked(s.flight, c.calls.keys[w], k);
    }
  }

  lemma LookStep(c: Config, delta: nat, s: Urls, w: Id, outcome: Res)
    requires Sound(c, delta, s) && w in c.calls.keys && (s.flight.callers[w].Asking? || s.flight.callers[w].Leading?)
    ensures UrlInv(c, delta, Step(c, s, F.Go(w, outcome)))
  {
    var s' := Step(c, s, F.Go(w, outcome));
    LookLooksOnly(c, s, w, outcome);
    assert CallOk(c, delta, s.flight.now, s.since, Found(c, s, w), w, s.flight.callers[w]);
    Moves(c, delta, s, s', w);
    DoneStays(c, delta, s, s', w);
  }

  /** A call that begins has published nothing yet. */
  lemma DoneStays(c: Config, delta: nat, s: Urls, s': Urls, w: Id)
    requires Sound(c, delta, s) && w in c.calls.keys && s'.flight.done == s.flight.done
    requires s'.since.Keys == s.since.Keys && forall v <- s.since :: v != w ==> s'.since[v] == s.since[v]
    requires s'.since == s.since || s.flight.callers[w].Asking?
    ensures DoneOk(c, delta, s')
  {
    assert F.CallerOk(c.calls, s.flight, w);
  }

  /** A call that missed joins the flight of its key, or starts one. */
  lemma EnterStep(c: Config, delta: nat, s: Urls, w: Id, outcome: Res)
    requires Sound(c, delta, s) && w in c.calls.keys && s.flight.callers[w].Missed?
    ensures UrlInv(c, delta, Step(c, s, F.Go(w, outcome)))
  {
    assert CallOk(c, delta, s.flight.now, s.since, Found(c, s, w), w, s.flight.callers[w]);
    if c.calls.keys[w] in s.flight.flights {
      var l := s.flight.flights[c.calls.keys[w]];
      assert CallOk(c, delta, s.flight.now, s.since, Found(c, s, l), l, s.flight.callers[l]);
    }
    Moves(c, delta, s, Step(c, s, F.Go(w, outcome)), w);
  }

  lemma ComputeStep(c: Config, delta: nat, s: Urls, w: Id, outcome: Res)
    requires Sound(c, delta, s) && w in c.calls.keys && InTime(c, delta, s, F.Go(w, outcome))
    requires s.flight.callers[w].Ready? || s.flight.callers[w].Computing?
    ensures UrlInv(c, delta, Step(c, s, F.Go(w, outcome)))
  {
    assert CallOk(c, delta, s.flight.now, s.since, Found(c, s, w), w, s.flight.callers[w]);
    Moves(c, delta, s, Step(c, s, F.Go(w, outcome)), w);
  }

  lemma EndStep(c: Config, delta: nat, s: Urls, w: Id, outcome: Res)
    requires Sound(c, delta, s) && w in c.calls.keys && (s.flight.callers[w].Waiting? || s.flight.callers[w].Unmapping?)
    ensures UrlInv(c, delta, Step(c, s, F.Go(w, outcome)))
  {
    assert CallOk(c, delta, s.flight.now, s.since, Found(c, s, w), w, s.flight.callers[w]);
    Moves(c, delta, s, Step(c, s, F.Go(w, outcome)), w);
  }

  lemma Stores(c: Config, s: Urls, w: Id, outcome: Res, k: Str)
    requires w in c.calls.keys && DistinctKeys(s.flight.cache) && w in s.flight.callers && s.flight.callers[w].Storing?
    ensures var found, key := Get(Step(c, s, F.Go(w, outcome)).flight.cache, k), c.calls.keys[w];
      found.None? || found == if k == key
        then Some(Entry(key, s.flight.callers[w].v, s.flight.now + c.calls.ttl)) else Get(s.flight.cache, k)
  {
    var call := Save(c.calls.keys[w], s.flight.callers[w].v, s.flight.now);
    GetAfter(s.flight.cache, call, c.calls.ttl, c.calls.cap, k);
  }

  lemma StoreStep(c: Config, delta: nat, s: Urls, w: Id, outcome: Res)
    requires Sound(c, delta, s) && w in c.calls.keys && s.flight.callers[w].Storing?
    ensures UrlInv(c, delta, Step(c, s, F.Go(w, outcome)))
  {
    var s' := Step(c, s, F.Go(w, outcome));
    assert CallOk(c, delta, s.flight.now, s.since, Found(c, s, w), w, s.flight.callers[w]);
    forall k
      ensures EntryOk(c, delta, Get(s'.flight.cache, k))
      ensures Get(s'.flight.cache, k) == Get(s.flight.cache, k)
        || FindsOk(c, delta, s.flight.now, Get(s'.flight.cache, k))
    {
      Stores(c, s, w, outcome, k);
      assert EntryOk(c, delta, Get(s.flight.cache, k));
    }
    Moves(c, delta, s, s', w);
  }

  lemma PublishStep(c: Config, delta: nat, s: Urls, w: Id, outcome: Res)
    requires Sound(c, delta, s) && w in c.calls.keys && s.flight.callers[w].Publishing?
    ensures UrlInv(c, delta, Step(c, s, F.Go(w, outcome)))
  {
    assert CallOk(c, delta, s.flight.now, s.since, Found(c, s, w), w, s.flight.callers[w]);
    Moves(c, delta, s, Step(c, s, F.Go(w, outcome)), w);
  }

  lemma TickStep(c: Config, delta: nat, s: Urls, d: nat)
    requires Sound(c, delta, s) && InTime(c, delta, s, F.Tick(d))
    ensures UrlInv(c, delta, Step(c, s, F.Tick(d)))
  {
    var s' := Step(c, s, F.Tick(d));
    forall v <- c.calls.keys
      ensures CallOk(c, delta, s'.flight.now, s'.since, Found(c, s', v), v, s'.flight.callers[v])
    {
      assert CallOk(c, delta, s.flight.now, s.since, Found(c, s, v), v, s.flight.callers[v]);
    }
  }

  lemma StepKeepsInv(c: Config, delta: nat, s: Urls, e: Event)
    requires Sound(c, delta, s) && InTime(c, delta, s, e)
    ensures Sound(c, delta, Step(c, s, e))
  {
    F.StepKeepsInv(c.calls, s.flight, e);
    match e
    case Tick(d) => TickStep(c, delta, s, d);
    case Go(w, outcome) =>
      if w in c.calls.keys {
        match s.flight.callers[w]
        case Asking => LookStep(c, delta, s, w, outcome);
        case Leading => LookStep(c, delta, s, w, outcome);
        case Storing(_) => StoreStep(c, delta, s, w, outcome);
        case Publishing(_) => PublishStep(c, delta, s, w, outcome);
        case Missed => EnterStep(c, delta, s, w, outcome);
        case Waiting(_) => EndStep(c, delta, s, w, outcome);
        case Unmapping(_) => EndStep(c, delta, s, w, outcome);
        case Returned(_) =>
        case _ => ComputeStep(c, delta, s, w, outcome);
      }
  }

  lemma {:induction false} ExecKeepsInv(c: Config, delta: nat, events: seq<Event>)
    requires Brisk(c, delta, events)
    ensures Sound(c, delta, Exec(c, Init(c), events))
  {
    if events == [] {
      F.ExecKeepsInv<SignedUrl>(c.calls, []);
    } else {
      var before := events[..|events| - 1];
      ExecKeepsInv(c, delta, before);
      StepKeepsInv(c, delta, Exec(c, Init(c), before), events[|events| - 1]);
    }
  }

  // ---- What calls return ----

  /** This step makes a call return a URL that has expired by then. */
  ghost predicate Expired(c: Config, s: Urls, e: Event, w: Id)
  {
    var s' := Step(c, s, e).flight;
    && w in s.flight.callers && !s.flight.callers[w].Returned? && w in s'.callers && s'.callers[w].Returned?
    && s'.callers[w].r.Ok? && s'.now > s'.callers[w].r.v.validUntil
  }

  /** The last event of a brisk run does. */
  ghost predicate ReturnsExpired(c: Config, delta: nat, before: seq<Event>, e: Event, w: Id)
  {
    Brisk(c, delta, before + [e]) && Expired(c, Exec(c, Init(c), before), e, w)
  }

  ghost predicate WithinMargin(c: Config, delta: nat)
  {
    c.urlTTL > 0 && c.calls.ttl == ClampCacheTTL(c.urlTTL) && delta <= Margin(c.urlTTL)
  }

  lemma HitIsValid(c: Config, delta: nat, s: Urls, w: Id, outcome: Res)
    requires WithinMargin(c, delta) && Sound(c, delta, s) && w in c.calls.keys && s.flight.callers[w].Asking?
    ensures !Expired(c, s, F.Go(w, outcome), w)
  {
    Looked(s.flight, c.calls.keys[w], c.calls.keys[w]);
    assert EntryOk(c, delta, Found(c, s, w));
  }

  lemma HandedIsValid(c: Config, delta: nat, s: Urls, w: Id, outcome: Res)
    requires WithinMargin(c, delta) && Sound(c, delta, s) && w in c.calls.keys && !s.flight.callers[w].Asking?
    ensures !Expired(c, s, F.Go(w, outcome), w)
  {
    assert CallOk(c, delta, s.flight.now, s.since, Found(c, s, w), w, s.flight.callers[w]);
  }

  lemma ExpiredReturns(c: Config, s: Urls, e: Event, w: Id)
    requires Expired(c, s, e, w)
    ensures e.Go? && e.w == w
  {
  }

  /** A URL cached for the clamped lifetime is valid whenever a call returns it, if calls take no longer than the
      margin: found in the cache, just computed, or handed over by a flight. */
  lemma ReturnedUrlsAreValid(c: Config, delta: nat, before: seq<Event>, e: Event, w: Id)
    requires WithinMargin(c, delta)
    ensures !ReturnsExpired(c, delta, before, e, w)
  {
    if ReturnsExpired(c, delta, before, e, w) {
      ThroughoutConcat(Steps(c), Timed(c, delta), Init(c), before, [e]);
      var s := Exec(c, Init(c), before);
      ExecKeepsInv(c, delta, before);
      ExpiredReturns(c, s, e, w);
      if s.flight.callers[w].Asking? {
        HitIsValid(c, delta, s, w, e.outcome);
      } else {
        HandedIsValid(c, delta, s, w, e.outcome);
      }
    }
  }

  // ---- The margin is exact ----

  /** A call signs at time 0, and delta later it is about to store. */
  ghost predicate Signed(c: Config, delta: nat, s: Urls, w: Id)
  {
    && w in c.calls.keys && s.flight.cache == [] && s.flight.now == delta && w in s.since && s.since[w] == 0
    && s.flight.callers == F.Init<SignedUrl>(c.calls).callers[w := F.Computing]
  }

  lemma SlowSigning(c: Config, delta: nat, w: Id, go: Event) returns (events: seq<Event>)
    requires w in c.calls.keys && go.Go? && go.w == w
    ensures Brisk(c, delta, events) && Signed(c, delta, Exec(c, Init(c), events), w)
  {
    var s0 := Init(c);
    var s1 := Step(c, s0, go);
    assert s1.flight.callers == s0.flight.callers[w := F.Missed];
    var s2 := Step(c, s1, go);
    assert s2.flight.callers == s0.flight.callers[w := F.Leading];
    var s3 := Step(c, s2, go);
    assert s3.flight.callers == s0.flight.callers[w := F.Ready];
    var s4 := Step(c, s3, go);
    assert s4.flight.callers == s0.flight.callers[w := F.Computing];
    var s5 := Step(c, s4, F.Tick(delta));
    events := [go, go, go, go, F.Tick(delta)];
    PlayAllowed(Steps(c), Timed(c, delta), s0, events, [s0, s1, s2, s3, s4, s5]);
  }

  /** The call has returned, and the cache will serve the URL to the end of its lifetime. */
  ghost predicate Cached(c: Config, delta: nat, s: Urls, w: Id, u: SignedUrl)
  {
    && w in c.calls.keys && s.flight.cache == [Entry(c.calls.keys[w], u, delta + c.calls.ttl)] && s.flight.now == delta
    && s.flight.callers == F.Init<SignedUrl>(c.calls).callers[w := F.Returned(F.Ok(u))]
  }

  lemma SlowStore(c: Config, delta: nat, s: Urls, w: Id, u: SignedUrl) returns (events: seq<Event>)
    requires Signed(c, delta, s, w) && SignedAt(c, u) == 0
    ensures Throughout(Steps(c), Timed(c, delta), s, events) && Cached(c, delta, Exec(c, s, events), w, u)
  {
    var go := F.Go(w, F.Ok(u));
    var s1 := Step(c, s, go);
    var s2 := Step(c, s1, go);
    assert s1.flight.cache == [] && s1.flight.callers == s.flight.callers[w := F.Storing(u)];
    PlayAllowed(Steps(c), Timed(c, delta), s, [go, go], [s, s1, s2]);
    assert s2.flight.cache == [Entry(c.calls.keys[w], u, delta + c.calls.ttl)];
    assert s2.flight.callers == s.flight.callers[w := F.Publishing(F.Ok(u))];
    Publish(c, delta, s2, w, u, go);
    ThroughoutConcat(Steps(c), Timed(c, delta), s, [go, go], [go, go]);
    events := [go, go] + [go, go];
  }

  lemma Publish(c: Config, delta: nat, s: Urls, w: Id, u: SignedUrl, go: Event)
    requires w in c.calls.keys && w in s.flight.callers && s.flight.callers[w] == F.Publishing(F.Ok(u))
    requires go.Go? && go.w == w
    ensures var s' := Exec(c, s, [go, go]);
      && Throughout(Steps(c), Timed(c, delta), s, [go, go])
      && s'.flight.cache == s.flight.cache && s'.flight.now == s.flight.now
      && s'.flight.callers == s.flight.callers[w := F.Returned(F.Ok(u))]
  {
    var s1 := Step(c, s, go);
    assert s1.flight.callers == s.flight.callers[w := F.Unmapping(F.Ok(u))];
    PlayAllowed(Steps(c), Timed(c, delta), s, [go, go], [s, s1, Step(c, s1, go)]);
  }

  /** A slow call, and another that hits its entry at the last moment. */
  lemma LastHit(c: Config, delta: nat, w: Id, v: Id, u: SignedUrl) returns (before: seq<Event>)
    requires c.calls.ttl >= 0 && w in c.calls.keys && v in c.calls.keys && w != v && c.calls.keys[w] == c.calls.keys[v]
    requires SignedAt(c, u) == 0
    ensures Brisk(c, delta, before + [F.Go(v, F.Err)])
    ensures var s := Exec(c, Init(c), before);
      && v in s.flight.callers && s.flight.callers[v].Asking? && s.flight.now == delta + c.calls.ttl
      && Step(c, s, F.Go(v, F.Err)).flight.callers[v] == F.Returned(F.Ok(u))
  {
    var signing := SlowSigning(c, delta, w, F.Go(w, F.Err));
    var storing := SlowStore(c, delta, Exec(c, Init(c), signing), w, u);
    ThroughoutConcat(Steps(c), Timed(c, delta), Init(c), signing, storing);
    var s := Exec(c, Init(c), signing + storing);
    var s1 := Step(c, s, F.Tick(c.calls.ttl));
    assert IndexOf(s1.flight.cache, c.calls.keys[v]) == 0;
    PlayAllowed(Steps(c), Timed(c, delta), s, [F.Tick(c.calls.ttl)], [s, s1]);
    ThroughoutConcat(Steps(c), Timed(c, delta), Init(c), signing + storing, [F.Tick(c.calls.ttl)]);
    before := signing + storing + [F.Tick(c.calls.ttl)];
    PlayAllowed(Steps(c), Timed(c, delta), s1, [F.Go(v, F.Err)], [s1, Step(c, s1, F.Go(v, F.Err))]);
    ThroughoutConcat(Steps(c), Timed(c, delta), Init(c), before, [F.Go(v, F.Err)]);
  }

  /** With two calls for one key, some call returns an expired URL if and only if calls may take longer than the
      margin: a tenth of the lifetime, at most a minute. */
  lemma UrlsExpireExactly(c: Config, delta: nat, w: Id, v: Id)
    requires c.urlTTL > 0 && c.calls.ttl == ClampCacheTTL(c.urlTTL)
    requires w in c.calls.keys && v in c.calls.keys && w != v && c.calls.keys[w] == c.calls.keys[v]
    ensures (exists before, e, x :: ReturnsExpired(c, delta, before, e, x)) <==> delta > Margin(c.urlTTL)
  {
    if delta <= Margin(c.urlTTL) {
      forall before, e, x ensures !ReturnsExpired(c, delta, before, e, x) {
        ReturnedUrlsAreValid(c, delta, before, e, x);
      }
    } else {
      var before := LastHit(c, delta, w, v, SignedUrl([], c.urlTTL));
      assert ReturnsExpired(c, delta, before, F.Go(v, F.Err), v);
    }
  }
}
