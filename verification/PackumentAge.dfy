/** How old a served packument can be when fetches overlap and take time, as long as no fetch outlasts a memo
    entry: the invariant of such runs and the bounds it gives. */
module PackumentAge {
  import opened Runs
  import opened Text
  import opened Packument

  predicate Active(r: Request)
  {
    r.Missed? || r.Waiting? || r.Putting?
  }

  /** Time passes only while every request under way is no older than delta. */
  predicate InTime(delta: nat, s: State, e: Event)
  {
    e.Tick? ==> forall r <- s.requests :: Active(s.requests[r]) ==> s.now + e.d <= s.requests[r].since + delta
  }

  function Timed(delta: nat): (State, Event) -> bool
  {
    (s, e) => InTime(delta, s, e)
  }

  ghost predicate BriskFrom(t: TTLs, delta: nat, s: State, events: seq<Event>)
  {
    Throughout(Steps(t), Timed(delta), s, events)
  }

  /** No fetch of the run takes longer than delta. */
  ghost predicate Brisk(t: TTLs, delta: nat, events: seq<Event>)
  {
    BriskFrom(t, delta, Init(), events)
  }

  // ---- The invariant of brisk runs ----

  /** When the memo came to hold a live entry, if it holds one now. */
  function LiveSince(t: TTLs, s: State): Option<int>
  {
    if MemoGet(t, s.cached.memo, s.now).Some? then Some(s.live) else None
  }

  ghost predicate Awaited(requests: map<Id, Request>, at: int)
  {
    exists r <- requests :: requests[r].Waiting? && requests[r].since <= at
  }

  ghost predicate Held(requests: map<Id, Request>, at: int)
  {
    exists r <- requests :: requests[r].Putting? && requests[r].since <= at
  }

  /** What a load may bring: an upstream answer as old as a snapshot can be, or a fallback. */
  ghost predicate LoadedOk(t: TTLs, delta: nat, p: Packument)
  {
    p.fallback || (p.asked.Some? && 0 <= p.loaded - p.asked.value <= SnapshotAge(t, delta))
  }

  function SnapshotAge(t: TTLs, delta: nat): nat
  {
    if t.durable > 0 then t.durable - 1 + delta else 0
  }

  /** How long after its load a packument can still be answered with. */
  function ServingTime(t: TTLs, delta: nat): nat
  {
    2 * delta + if t.memo > 0 then t.memo - 1 else 0
  }

  ghost predicate AnswerOk(t: TTLs, delta: nat, p: Packument, at: int)
  {
    LoadedOk(t, delta, p) && 0 <= at - p.loaded <= ServingTime(t, delta)
  }

  /** A load under way since at: the memo came alive no later than delta after it, or a request from before it
      still waits. */
  ghost predicate FlightSource(delta: nat, now: int, live: Option<int>, requests: map<Id, Request>, at: int)
  {
    at <= now && if live.Some? then live.value <= at + delta else Awaited(requests, at)
  }

  ghost predicate HeldSource(t: TTLs, delta: nat, now: int, live: Option<int>, requests: map<Id, Request>, at: int)
  {
    at <= now && (t.memo > 0 ==> if live.Some? then live.value <= at + delta else Held(requests, at))
  }

  ghost predicate FlightOk(t: TTLs, delta: nat, now: int, live: Option<int>, requests: map<Id, Request>, f: Flight)
  {
    && (f != NoFlight ==> Awaited(requests, now))
    && (f.Responded? ==> FlightSource(delta, now, live, requests, f.asked) && Awaited(requests, f.asked))
    && (f.Ended? && f.out.Ok? ==>
       FlightSource(delta, now, live, requests, f.out.p.loaded) && LoadedOk(t, delta, f.out.p))
  }

  ghost predicate CachedOk(t: TTLs, delta: nat, now: int, live: Option<int>, c: Cached)
  {
    && (c.memo.Some? ==>
      var p, put := c.memo.value.p, c.memo.value.expires - t.memo;
      && t.memo > 0 && LoadedOk(t, delta, p) && p.loaded <= put <= now && put <= p.loaded + 2 * delta
      && (live.Some? ==> live.value <= put <= live.value + delta && live.value <= p.loaded + delta))
    && (c.snapshot.Some? ==>
      c.snapshot.value.asked <= now && c.snapshot.value.updatedAt <= now
      && c.snapshot.value.updatedAt - c.snapshot.value.asked <= delta)
  }

  ghost predicate RequestOk(t: TTLs, delta: nat, now: int, live: Option<int>, requests: map<Id, Request>, r: Request)
  {
    && (Active(r) ==> r.since <= now <= r.since + delta && (live.Some? ==> r.since <= live.value))
    && (r.Putting? ==>
      && LoadedOk(t, delta, r.p) && r.since <= r.p.loaded + delta
      && HeldSource(t, delta, now, live, requests, r.p.loaded))
    && (r.Answered? && r.out.Ok? ==> AnswerOk(t, delta, r.out.p, r.at))
  }

  ghost predicate RequestsOk(t: TTLs, delta: nat, s: State)
  {
    forall r <- s.requests :: RequestOk(t, delta, s.now, LiveSince(t, s), s.requests, s.requests[r])
  }

  ghost predicate AgeInv(t: TTLs, delta: nat, s: State)
  {
    && CachedOk(t, delta, s.now, LiveSince(t, s), s.cached)
    && FlightOk(t, delta, s.now, LiveSince(t, s), s.requests, s.flight)
    && RequestsOk(t, delta, s)
  }

  lemma BeginStep(t: TTLs, delta: nat, s: State, r: Id)
    requires AgeInv(t, delta, s)
    ensures AgeInv(t, delta, Step(t, s, Begin(r)))
  {
    var s' := Step(t, s, Begin(r));
    if s' != s {
      Others(t, delta, s.now, LiveSince(t, s), s.requests, s'.requests, r);
      assert RequestOk(t, delta, s'.now, LiveSince(t, s'), s'.requests, s'.requests[r]);
    }
  }

  /** Requests that do not move are unaffected by one that moves without leaving the waiting or the putting. */
  lemma Others(t: TTLs, delta: nat, now: int, live: Option<int>, requests: map<Id, Request>,
      requests': map<Id, Request>, r: Id)
    requires requests'.Keys == requests.Keys + {r} && forall q <- requests :: q != r ==> requests'[q] == requests[q]
    requires r !in requests || requests[r].Missed?
    ensures forall at :: Awaited(requests, at) ==> Awaited(requests', at)
    ensures forall at :: Held(requests, at) ==> Held(requests', at)
    ensures forall q <- requests :: q != r && RequestOk(t, delta, now, live, requests, requests[q]) ==>
      RequestOk(t, delta, now, live, requests', requests'[q])
  {
    forall at | Awaited(requests, at) ensures Awaited(requests', at) {
      var q :| q in requests && requests[q].Waiting? && requests[q].since <= at;
      assert requests'[q].Waiting?;
    }
    forall at | Held(requests, at) ensures Held(requests', at) {
      var q :| q in requests && requests[q].Putting? && requests[q].since <= at;
      assert requests'[q].Putting?;
    }
  }

  lemma EnterStep(t: TTLs, delta: nat, s: State, r: Id)
    requires AgeInv(t, delta, s)
    ensures AgeInv(t, delta, Step(t, s, Enter(r)))
  {
    var s' := Step(t, s, Enter(r));
    if s' != s {
      assert RequestOk(t, delta, s.now, LiveSince(t, s), s.requests, s.requests[r]);
      Others(t, delta, s.now, LiveSince(t, s), s.requests, s'.requests, r);
      assert s'.requests[r].Waiting?;
      assert Awaited(s'.requests, s'.now);
    }
  }

  lemma LoadedFlight(t: TTLs, delta: nat, s: State, e: Event)
    requires AgeInv(t, delta, s)
    ensures FlightOk(t, delta, s.now, LiveSince(t, s), s.requests, NextFlight(t, s.cached, s.now, s.flight, e))
  {
  }

  /** The load's steps leave memo and requests alone. */
  lemma LoadStep(t: TTLs, delta: nat, s: State, e: Event)
    requires AgeInv(t, delta, s) && (e.Check? || e.Respond? || e.Record? || e.FallBack?)
    ensures AgeInv(t, delta, Step(t, s, e))
  {
    LoadedFlight(t, delta, s, e);
    var s' := Step(t, s, e);
    assert s'.requests == s.requests && s'.now == s.now && LiveSince(t, s') == LiveSince(t, s);
  }

  lemma DeliverStep(t: TTLs, delta: nat, s: State)
    requires AgeInv(t, delta, s)
    ensures AgeInv(t, delta, Step(t, s, Deliver))
  {
    var s', live := Step(t, s, Deliver), LiveSince(t, s);
    if s' != s {
      var out := s.flight.out;
      if out.Ok? && live.None? {
        var x :| x in s.requests && s.requests[x].Waiting? && s.requests[x].since <= out.p.loaded;
        assert RequestOk(t, delta, s.now, live, s.requests, s.requests[x]);
        assert s'.requests[x].Putting?;
        assert Held(s'.requests, out.p.loaded);
      }
      forall at | Held(s.requests, at) ensures Held(s'.requests, at) {
        var q :| q in s.requests && s.requests[q].Putting? && s.requests[q].since <= at;
        assert s'.requests[q] == s.requests[q];
      }
      forall r <- s'.requests ensures RequestOk(t, delta, s'.now, LiveSince(t, s'), s'.requests, s'.requests[r]) {
        assert RequestOk(t, delta, s.now, live, s.requests, s.requests[r]);
      }
    }
  }

  lemma StoreStep(t: TTLs, delta: nat, s: State, r: Id)
    requires AgeInv(t, delta, s)
    ensures AgeInv(t, delta, Step(t, s, Store(r)))
  {
    var s' := Step(t, s, Store(r));
    if s' != s {
      forall at | Awaited(s.requests, at) ensures Awaited(s'.requests, at) {
        var q :| q in s.requests && s.requests[q].Waiting? && s.requests[q].since <= at;
        assert s'.requests[q] == s.requests[q];
      }
    }
  }

  lemma AgeStep(t: TTLs, delta: nat, s: State, e: Event)
    requires (t.memo > 0 ==> delta < t.memo) && AgeInv(t, delta, s) && InTime(delta, s, e)
    ensures AgeInv(t, delta, Step(t, s, e))
  {
    match e
    case Tick(d) =>
    case Begin(r) => BeginStep(t, delta, s, r);
    case Enter(r) => EnterStep(t, delta, s, r);
    case Deliver => DeliverStep(t, delta, s);
    case Store(r) => StoreStep(t, delta, s, r);
    case StoreVersion(_, _) =>
    case StoreTag(_, _) =>
    case _ => LoadStep(t, delta, s, e);
  }

  lemma {:induction false} AgeHolds(t: TTLs, delta: nat, events: seq<Event>)
    requires (t.memo > 0 ==> delta < t.memo) && Brisk(t, delta, events)
    ensures AgeInv(t, delta, Exec(t, Init(), events))
  {
    if events != [] {
      AgeHolds(t, delta, events[..|events| - 1]);
      AgeStep(t, delta, Exec(t, Init(), events[..|events| - 1]), events[|events| - 1]);
    }
  }

  // ---- The bound ----

  /** When fetches take at most delta, less than a memo TTL, a served packument went through a fallback at most
      a serving time ago, or was given by the upstream at most a serving time and the age of a snapshot ago. */
  lemma ServedIsRecent(t: TTLs, delta: nat, events: seq<Event>, r: Id)
    requires (t.memo > 0 ==> delta < t.memo) && Brisk(t, delta, events)
    requires var s := Exec(t, Init(), events); r in s.requests && s.requests[r].Answered? && s.requests[r].out.Ok?
    ensures var s := Exec(t, Init(), events);
      var p, at := s.requests[r].out.p, s.requests[r].at;
      && 0 <= at - p.loaded <= ServingTime(t, delta)
      && (!p.fallback ==>
        && p.asked.Some? && Given(t, events, p.doc, p.asked.value)
        && 0 <= at - p.asked.value <= ServingTime(t, delta) + SnapshotAge(t, delta))
  {
    AgeHolds(t, delta, events);
    ServedIsTraced(t, events, r);
    var s := Exec(t, Init(), events);
    assert RequestOk(t, delta, s.now, LiveSince(t, s), s.requests, s.requests[r]);
  }

  /** Fetches may overlap, but the clock stands still while any of them is under way. */
  ghost predicate Prompt(t: TTLs, events: seq<Event>)
  {
    Brisk(t, 0, events)
  }

  function Pos(x: int): nat
  {
    if x > 0 then x else 0
  }

  /** Then a served packument went through a fallback less than a memo TTL ago, or was given by the upstream less
      than a memo and a durable TTL ago. */
  lemma ServedIsYoung(t: TTLs, events: seq<Event>, r: Id)
    requires Prompt(t, events)
    requires var s := Exec(t, Init(), events); r in s.requests && s.requests[r].Answered? && s.requests[r].out.Ok?
    ensures var p, at := Exec(t, Init(), events).requests[r].out.p, Exec(t, Init(), events).requests[r].at;
      && (p.fallback ==> at == p.loaded || at - p.loaded < Pos(t.memo))
      && (!p.fallback ==>
        && p.asked.Some? && Given(t, events, p.doc, p.asked.value)
        && (at == p.asked.value || at - p.asked.value < Pos(t.memo) + Pos(t.durable)))
  {
    ServedIsRecent(t, 0, events, r);
  }
}
