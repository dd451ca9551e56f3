/** The greatest age of a packument served without a fallback, exactly: none when a fetch can outlast a memo
    entry, and otherwise a bound that is reached. */
module PackumentBound {
  import opened Runs
  import opened Text
  import opened Packument
  import opened PackumentAge

  // ---- A snapshot that expires no later than the memo does not add to the age ----

  /** The memo came alive no later than delta after the upstream gave the document at that time, or a request
      from before it is still to put it there. */
  ghost predicate Rooted(delta: nat, live: Option<int>, requests: map<Id, Request>, asked: int)
  {
    Held(requests, asked) || (live.Some? && live.value <= asked + delta)
  }

  /** The packument was given by the upstream, and by then had a root, or is about to be handed to one. */
  ghost predicate FlightRooted(delta: nat, live: Option<int>, requests: map<Id, Request>, f: Flight)
  {
    f.Ended? && f.out.Ok? && !f.out.p.fallback ==>
      f.out.p.asked.Some?
      && (Rooted(delta, live, requests, f.out.p.asked.value) || Awaited(requests, f.out.p.asked.value))
  }

  ghost predicate RequestRooted(t: TTLs, delta: nat, live: Option<int>, requests: map<Id, Request>, r: Request)
  {
    && (r.Putting? && !r.p.fallback ==> r.p.asked.Some? && Rooted(delta, live, requests, r.p.asked.value))
    && (r.Answered? && r.out.Ok? && !r.out.p.fallback ==>
      r.out.p.asked.Some? && r.at - r.out.p.asked.value <= 2 * delta + t.memo - 1)
  }

  ghost predicate MemoRooted(delta: nat, live: Option<int>, memo: Option<Memo>)
  {
    memo.Some? && live.Some? && !memo.value.p.fallback ==>
      memo.value.p.asked.Some? && live.value <= memo.value.p.asked.value + delta
  }

  /** While the snapshot is young, the memo outlives it, or is yet to be filled by a request from before it. */
  ghost predicate SnapshotRooted(t: TTLs, delta: nat, s: State)
  {
    s.cached.snapshot.Some? && s.now - s.cached.snapshot.value.updatedAt < t.durable ==>
      var asked, live := s.cached.snapshot.value.asked, LiveSince(t, s);
      || Held(s.requests, asked)
      || (s.flight.Ended? && s.flight.out.Ok? && Awaited(s.requests, asked))
      || (live.Some? && live.value <= asked + delta
          && s.cached.snapshot.value.updatedAt + t.memo <= s.cached.memo.value.expires)
  }

  ghost predicate RootInv(t: TTLs, delta: nat, s: State)
  {
    && MemoRooted(delta, LiveSince(t, s), s.cached.memo) && SnapshotRooted(t, delta, s)
    && FlightRooted(delta, LiveSince(t, s), s.requests, s.flight)
    && forall r <- s.requests :: RequestRooted(t, delta, LiveSince(t, s), s.requests, s.requests[r])
  }

  /** Short fetches under a memo that outlives its snapshots. */
  ghost predicate Short(t: TTLs, delta: nat)
  {
    delta < t.memo && t.durable <= t.memo
  }

  lemma RootedTick(t: TTLs, delta: nat, s: State, d: nat)
    requires Short(t, delta) && AgeInv(t, delta, s) && RootInv(t, delta, s) && InTime(delta, s, Tick(d))
    ensures RootInv(t, delta, Step(t, s, Tick(d)))
  {
    var s' := Step(t, s, Tick(d));
    if q :| q in s.requests && Active(s.requests[q]) {
      assert RequestOk(t, delta, s.now, LiveSince(t, s), s.requests, s.requests[q]);
      assert LiveSince(t, s') == LiveSince(t, s);
    } else {
      assert !exists q <- s.requests :: s.requests[q].Waiting?;
    }
    forall r <- s'.requests ensures RequestRooted(t, delta, LiveSince(t, s'), s'.requests, s'.requests[r]) {
      assert RequestRooted(t, delta, LiveSince(t, s), s.requests, s.requests[r]);
    }
  }

  lemma RootedArrive(t: TTLs, delta: nat, s: State, r: Id, e: Event)
    requires Short(t, delta) && AgeInv(t, delta, s) && RootInv(t, delta, s) && (e == Begin(r) || e == Enter(r))
    ensures RootInv(t, delta, Step(t, s, e))
  {
    var s' := Step(t, s, e);
    if s' != s {
      Others(t, delta, s.now, LiveSince(t, s), s.requests, s'.requests, r);
      forall q <- s'.requests ensures RequestRooted(t, delta, LiveSince(t, s'), s'.requests, s'.requests[q]) {
        if q in s.requests { assert RequestRooted(t, delta, LiveSince(t, s), s.requests, s.requests[q]); }
      }
    }
  }

  lemma RootedLoad(t: TTLs, delta: nat, s: State, e: Event)
    requires Short(t, delta) && AgeInv(t, delta, s) && RootInv(t, delta, s)
    requires e.Check? || e.Respond? || e.Record? || e.FallBack?
    ensures RootInv(t, delta, Step(t, s, e))
  {
    var s' := Step(t, s, e);
    assert s'.requests == s.requests && s'.now == s.now && LiveSince(t, s') == LiveSince(t, s);
  }

  lemma RootedDeliver(t: TTLs, delta: nat, s: State)
    requires Short(t, delta) && AgeInv(t, delta, s) && RootInv(t, delta, s)
    ensures RootInv(t, delta, Step(t, s, Deliver))
  {
    var s', live := Step(t, s, Deliver), LiveSince(t, s);
    if s' != s {
      forall at | Held(s.requests, at) || (s.flight.out.Ok? && Awaited(s.requests, at)) ensures Held(s'.requests, at) {
        var q :| q in s.requests && (s.requests[q].Putting? || (s.flight.out.Ok? && s.requests[q].Waiting?)) &&
          s.requests[q].since <= at;
        assert s'.requests[q].Putting?;
      }
      forall r <- s'.requests ensures RequestRooted(t, delta, live, s'.requests, s'.requests[r]) {
        assert RequestRooted(t, delta, live, s.requests, s.requests[r]);
      }
    }
  }

  lemma HeldSoon(t: TTLs, delta: nat, s: State, at: int)
    requires RequestsOk(t, delta, s) && Held(s.requests, at)
    ensures s.now <= at + delta
  {
    var q :| q in s.requests && s.requests[q].Putting? && s.requests[q].since <= at;
    assert RequestOk(t, delta, s.now, LiveSince(t, s), s.requests, s.requests[q]);
  }

  lemma AliveAfterStore(t: TTLs, s: State, r: Id)
    requires t.memo > 0 && r in s.requests && s.requests[r].Putting?
    ensures var s', live := Step(t, s, Store(r)), LiveSince(t, s);
      && LiveSince(t, s') == Some(if live.Some? then live.value else s.now)
      && s'.cached.memo == Some(Memo(s.requests[r].p, s.now + t.memo))
  {
  }

  /** Whoever puts something into the memo brings it alive in time for everything that has a root. */
  lemma RootedSoon(t: TTLs, delta: nat, s: State, asked: int)
    requires t.memo > 0 && AgeInv(t, delta, s) && Rooted(delta, LiveSince(t, s), s.requests, asked)
    ensures var live := LiveSince(t, s); (if live.Some? then live.value else s.now) <= asked + delta
  {
    if Held(s.requests, asked) { HeldSoon(t, delta, s, asked); }
  }

  lemma StoredInTime(t: TTLs, delta: nat, s: State, r: Id)
    requires t.memo > 0 && AgeInv(t, delta, s) && r in s.requests && s.requests[r].Putting?
    requires RequestRooted(t, delta, LiveSince(t, s), s.requests, s.requests[r])
    ensures var p := s.requests[r].p; !p.fallback ==> p.asked.Some? && s.now <= p.asked.value + 2 * delta
  {
    var p := s.requests[r].p;
    assert RequestOk(t, delta, s.now, LiveSince(t, s), s.requests, s.requests[r]);
    if !p.fallback && Held(s.requests, p.asked.value) { HeldSoon(t, delta, s, p.asked.value); }
  }

  lemma RootedStore(t: TTLs, delta: nat, s: State, r: Id)
    requires Short(t, delta) && AgeInv(t, delta, s) && RootInv(t, delta, s)
    requires r in s.requests && s.requests[r].Putting?
    ensures RootInv(t, delta, Step(t, s, Store(r)))
  {
    var s', live := Step(t, s, Store(r)), LiveSince(t, s);
    AliveAfterStore(t, s, r);
    forall asked | Rooted(delta, live, s.requests, asked) ensures LiveSince(t, s').value <= asked + delta {
      RootedSoon(t, delta, s, asked);
    }
    AwaitedAfterStore(t, s, r);
    StoredInTime(t, delta, s, r);
    forall q <- s'.requests ensures RequestRooted(t, delta, LiveSince(t, s'), s'.requests, s'.requests[q]) {
      assert RequestRooted(t, delta, live, s.requests, s.requests[q]);
    }
  }

  lemma AwaitedAfterStore(t: TTLs, s: State, r: Id)
    requires r in s.requests && s.requests[r].Putting?
    ensures forall at :: Awaited(s.requests, at) ==> Awaited(Step(t, s, Store(r)).requests, at)
  {
    forall at | Awaited(s.requests, at) ensures Awaited(Step(t, s, Store(r)).requests, at) {
      var q :| q in s.requests && s.requests[q].Waiting? && s.requests[q].since <= at;
      assert Step(t, s, Store(r)).requests[q] == s.requests[q];
    }
  }

  lemma RootedStep(t: TTLs, delta: nat, s: State, e: Event)
    requires Short(t, delta) && AgeInv(t, delta, s) && RootInv(t, delta, s) && InTime(delta, s, e)
    ensures RootInv(t, delta, Step(t, s, e))
  {
    match e
    case Tick(d) => RootedTick(t, delta, s, d);
    case Begin(r) => RootedArrive(t, delta, s, r, e);
    case Enter(r) => RootedArrive(t, delta, s, r, e);
    case Deliver => RootedDeliver(t, delta, s);
    case Store(r) => if r in s.requests && s.requests[r].Putting? { RootedStore(t, delta, s, r); }
    case StoreVersion(_, _) =>
    case StoreTag(_, _) =>
    case _ => RootedLoad(t, delta, s, e);
  }

  lemma {:induction false} RootsHold(t: TTLs, delta: nat, events: seq<Event>)
    requires Short(t, delta) && Brisk(t, delta, events)
    ensures RootInv(t, delta, Exec(t, Init(), events))
  {
    if events != [] {
      var before := events[..|events| - 1];
      AgeHolds(t, delta, before);
      RootsHold(t, delta, before);
      RootedStep(t, delta, Exec(t, Init(), before), events[|events| - 1]);
    }
  }

  // ---- Brisk runs, put together ----

  lemma BriskConcat(t: TTLs, delta: nat, s: State, a: seq<Event>, b: seq<Event>)
    requires BriskFrom(t, delta, s, a) && BriskFrom(t, delta, Exec(t, s, a), b)
    ensures BriskFrom(t, delta, s, a + b) && Exec(t, s, a + b) == Exec(t, Exec(t, s, a), b)
  {
    ThroughoutConcat(Steps(t), Timed(delta), s, a, b);
  }

  /** A brisk run and one more event. */
  lemma Then(t: TTLs, delta: nat, s: State, events: seq<Event>, e: Event) returns (more: seq<Event>)
    requires BriskFrom(t, delta, s, events) && InTime(delta, Exec(t, s, events), e)
    ensures BriskFrom(t, delta, s, more) && Exec(t, s, more) == Step(t, Exec(t, s, events), e)
  {
    more := events + [e];
    assert more[..|more| - 1] == events;
  }

  lemma Three(t: TTLs, delta: nat, s: State, a: Event, b: Event, c: Event) returns (events: seq<Event>)
    requires InTime(delta, s, a) && InTime(delta, Step(t, s, a), b) && InTime(delta, Step(t, Step(t, s, a), b), c)
    ensures BriskFrom(t, delta, s, events) && Exec(t, s, events) == Step(t, Step(t, Step(t, s, a), b), c)
  {
    events := Then(t, delta, s, [], a);
    events := Then(t, delta, s, events, b);
    events := Then(t, delta, s, events, c);
  }

  // ---- No bound once a fetch can last a memo TTL ----

  function Relic(doc: Doc): Packument
  {
    Packument(doc, Some(0), 0, false)
  }

  /** Request x holds the packument given at time 0, the memo has run out, nothing else is under way. */
  ghost predicate Holding(t: TTLs, s: State, x: Id, doc: Doc)
  {
    && s.flight == NoFlight && s.cached.neg == None && MemoGet(t, s.cached.memo, s.now).None?
    && x in s.requests && s.requests[x].Putting? && s.requests[x].p == Relic(doc)
    && forall r <- s.requests :: r <= x && (r != x ==> s.requests[r].Answered?)
  }

  /** Request 0 asks the upstream at time 0 and is given the document. */
  lemma AskFirst(t: TTLs, delta: nat, doc: Doc) returns (events: seq<Event>)
    ensures Brisk(t, delta, events)
    ensures Exec(t, Init(), events) == Init().(flight := Responded(Gives(doc), 0), requests := map[0 := Waiting(0)])
  {
    events := Then(t, delta, Init(), [], Begin(0));
    assert Exec(t, Init(), events) == Init().(requests := map[0 := Missed(0)]);
    events := Then(t, delta, Init(), events, Enter(0));
    events := Then(t, delta, Init(), events, Check(true));
    assert Exec(t, Init(), events) == Init().(flight := Asking, requests := map[0 := Waiting(0)]);
    events := Then(t, delta, Init(), events, Respond(Gives(doc)));
  }

  lemma Hold(t: TTLs, delta: nat, doc: Doc) returns (events: seq<Event>)
    ensures Brisk(t, delta, events) && Holding(t, Exec(t, Init(), events), 0, doc) && Exec(t, Init(), events).now == 0
  {
    events := AskFirst(t, delta, doc);
    events := Then(t, delta, Init(), events, Record(Nothing));
    events := Then(t, delta, Init(), events, Deliver);
  }

  /** Request x puts it into the memo, where the flight of request x + 1 finds it. */
  ghost predicate Passing(t: TTLs, s: State, x: Id, doc: Doc)
  {
    && s.flight == Ended(Ok(Relic(doc))) && s.cached.neg == None
    && s.cached.memo == Some(Memo(Relic(doc), s.now + t.memo))
    && x + 1 in s.requests && s.requests[x + 1] == Waiting(s.now)
    && forall r <- s.requests :: r <= x + 1 && (r != x + 1 ==> s.requests[r].Answered?)
  }

  lemma PassOn(t: TTLs, delta: nat, s: State, x: Id, doc: Doc) returns (events: seq<Event>)
    requires 0 < t.memo <= delta && Holding(t, s, x, doc)
    ensures BriskFrom(t, delta, s, events)
    ensures Passing(t, Exec(t, s, events), x, doc) && Exec(t, s, events).now == s.now
  {
    events := Three(t, delta, s, Begin(x + 1), Store(x), Enter(x + 1));
  }

  /** Request x + 1 may sit on it until the memo has run out. */
  lemma HandOver(t: TTLs, delta: nat, s: State, x: Id, doc: Doc) returns (events: seq<Event>)
    requires 0 < t.memo <= delta && Holding(t, s, x, doc)
    ensures BriskFrom(t, delta, s, events)
    ensures Holding(t, Exec(t, s, events), x + 1, doc) && Exec(t, s, events).now == s.now + t.memo
  {
    events := PassOn(t, delta, s, x, doc);
    events := Then(t, delta, s, events, Deliver);
    events := Then(t, delta, s, events, Tick(t.memo));
  }

  lemma {:induction false} KeepHolding(t: TTLs, delta: nat, doc: Doc, n: nat) returns (events: seq<Event>)
    requires 0 < t.memo <= delta
    ensures Brisk(t, delta, events) && Holding(t, Exec(t, Init(), events), n, doc) &&
      Exec(t, Init(), events).now == n * t.memo
  {
    if n == 0 {
      events := Hold(t, delta, doc);
    } else {
      var before := KeepHolding(t, delta, doc, n - 1);
      assert n * t.memo == (n - 1) * t.memo + t.memo;
      var more := HandOver(t, delta, Exec(t, Init(), before), n - 1, doc);
      BriskConcat(t, delta, Init(), before, more);
      events := before + more;
    }
  }

  /** When fetches can last a memo TTL, requests that overlap just so keep serving, without any fallback, a
      packument the upstream gave any number of memo TTLs ago. */
  lemma OverlapHasNoAgeBound(t: TTLs, delta: nat, doc: Doc, n: nat) returns (events: seq<Event>)
    requires 0 < t.memo <= delta
    ensures var s := Exec(t, Init(), events);
      Brisk(t, delta, events) && n in s.requests && s.requests[n] == Answered(Ok(Relic(doc)), n * t.memo)
  {
    var before := KeepHolding(t, delta, doc, n);
    events := Then(t, delta, Init(), before, Store(n));
  }

  // ---- Exactly when there is a bound ----

  /** An answer of this age, without a fallback, in a run whose fetches take at most delta. */
  ghost predicate Serves(t: TTLs, delta: nat, events: seq<Event>, r: Id, age: int)
  {
    && Brisk(t, delta, events)
    && var s := Exec(t, Init(), events);
       && r in s.requests && s.requests[r].Answered? && s.requests[r].out.Ok? && !s.requests[r].out.p.fallback
       && s.requests[r].out.p.asked.Some? && s.requests[r].at - s.requests[r].out.p.asked.value == age
  }

  ghost predicate AgesBounded(t: TTLs, delta: nat, bound: int)
  {
    forall events: seq<Event>, r: Id, age: int | Serves(t, delta, events, r, age) :: age <= bound
  }

  /** How old, counted from the upstream's answer, a packument served without a fallback can be: a memo TTL and
      two fetches, and where snapshots outlive memo entries a durable TTL and a third fetch more. */
  function MaxAge(t: TTLs, delta: nat): nat
  {
    2 * delta + Pos(t.memo - 1) + if t.durable > Pos(t.memo) then t.durable - 1 + delta else 0
  }

  lemma AgeAtMost(t: TTLs, delta: nat, events: seq<Event>, r: Id, age: int)
    requires (t.memo > 0 ==> delta < t.memo) && Serves(t, delta, events, r, age)
    ensures age <= MaxAge(t, delta)
  {
    ServedIsRecent(t, delta, events, r);
    if Short(t, delta) {
      RootsHold(t, delta, events);
      var s := Exec(t, Init(), events);
      assert RequestRooted(t, delta, LiveSince(t, s), s.requests, s.requests[r]);
    }
  }

  /** Ages are bounded over all runs whose fetches take at most delta if and only if delta is less than the memo
      TTL, or there is no memo. */
  lemma BoundedExactly(t: TTLs, delta: nat)
    ensures (exists bound :: AgesBounded(t, delta, bound)) <==> t.memo <= 0 || delta < t.memo
  {
    if t.memo <= 0 || delta < t.memo {
      LeastBound(t, delta, MaxAge(t, delta));
    } else {
      forall bound ensures !AgesBounded(t, delta, bound) {
        var n: nat := if bound < 0 then 0 else bound + 1;
        var events := OverlapHasNoAgeBound(t, delta, Doc(map[], map[], map[]), n);
        assert Serves(t, delta, events, n, n * t.memo);
      }
    }
  }

  /** Then MaxAge is the least bound there is. */
  lemma LeastBound(t: TTLs, delta: nat, bound: int)
    requires t.memo > 0 ==> delta < t.memo
    ensures AgesBounded(t, delta, bound) <==> MaxAge(t, delta) <= bound
  {
    forall events: seq<Event>, r: Id, age: int | Serves(t, delta, events, r, age) ensures age <= MaxAge(t, delta) {
      AgeAtMost(t, delta, events, r, age);
    }
    var events, r := MaxAgeIsReached(t, delta, Doc(map[], map[], map[]));
  }

  // ---- The bound is reached ----

  /** A flight that has the packument and has taken as long as it may, with request x waiting for it. */
  ghost predicate Ready(t: TTLs, delta: nat, s: State, x: Id, p: Packument)
  {
    && s.flight == Ended(Ok(p)) && s.cached.neg == None && MemoGet(t, s.cached.memo, s.now).None?
    && x in s.requests && s.requests[x] == Waiting(s.now - delta)
    && forall r <- s.requests :: r <= x && (r != x ==> s.requests[r].Answered?)
  }

  /** A fetch that asks the upstream and takes as long as it may. */
  lemma SlowLoad(t: TTLs, delta: nat, doc: Doc) returns (events: seq<Event>)
    ensures Brisk(t, delta, events) && Exec(t, Init(), events).now == delta
    ensures Ready(t, delta, Exec(t, Init(), events), 0, Relic(doc))
  {
    events := AskFirst(t, delta, doc);
    events := Then(t, delta, Init(), events, Record(Nothing));
    events := Then(t, delta, Init(), events, Tick(delta));
  }

  /** The snapshot of a slow fetch, just before it is too old, with the memo run out. */
  ghost predicate Aged(t: TTLs, delta: nat, doc: Doc, s: State)
  {
    && s.now == delta + t.durable - 1 && s.flight == NoFlight && s.requests == map[0 := Answered(Ok(Relic(doc)), delta)]
    && s.cached.snapshot == Some(Snapshot(doc, 0, delta, true)) && s.cached.neg == None
    && MemoGet(t, s.cached.memo, s.now).None?
  }

  lemma SlowFetch(t: TTLs, delta: nat, doc: Doc) returns (events: seq<Event>)
    requires t.durable > Pos(t.memo)
    ensures Brisk(t, delta, events) && Aged(t, delta, doc, Exec(t, Init(), events))
  {
    events := AskFirst(t, delta, doc);
    events := Then(t, delta, Init(), events, Tick(delta));
    events := Then(t, delta, Init(), events, Record(Whole));
    events := Then(t, delta, Init(), events, Deliver);
    var s := Exec(t, Init(), events);
    assert s.requests == map[0 := Putting(0, Relic(doc))];
    var rest := PutAndWait(t, delta, doc, s);
    BriskConcat(t, delta, Init(), events, rest);
    events := events + rest;
  }

  lemma PutAndWait(t: TTLs, delta: nat, doc: Doc, s: State) returns (events: seq<Event>)
    requires t.durable > Pos(t.memo) && s.requests == map[0 := Putting(0, Relic(doc))] && s.now == delta
    requires s.flight == NoFlight && s.cached.snapshot == Some(Snapshot(doc, 0, delta, true)) && s.cached.neg == None
    requires s.cached.memo == None
    ensures BriskFrom(t, delta, s, events) && Aged(t, delta, doc, Exec(t, s, events))
  {
    events := Then(t, delta, s, [], Store(0));
    assert Exec(t, s, events).requests == map[0 := Answered(Ok(Relic(doc)), delta)];
    events := Then(t, delta, s, events, Tick(t.durable - 1));
  }

  /** A fetch that finds it and takes as long as it may. */
  lemma SlowFind(t: TTLs, delta: nat, doc: Doc, s: State) returns (events: seq<Event>)
    requires t.durable > Pos(t.memo) && Aged(t, delta, doc, s)
    ensures BriskFrom(t, delta, s, events) && Exec(t, s, events).now == s.now + delta
    ensures Ready(t, delta, Exec(t, s, events), 1, Packument(doc, Some(0), s.now, false))
  {
    events := Three(t, delta, s, Begin(1), Enter(1), Check(true));
    assert InTime(delta, Exec(t, s, events), Tick(delta));
    events := Then(t, delta, s, events, Tick(delta));
  }

  /** Two requests, x from before, hold the same packument. */
  ghost predicate Shared(delta: nat, s: State, x: Id, p: Packument)
  {
    && {x, x + 1} <= s.requests.Keys && s.requests[x] == Putting(s.now - delta, p)
    && s.requests[x + 1] == Putting(s.now, p)
    && forall r <- s.requests :: r <= x + 1 && (r < x ==> s.requests[r].Answered?)
  }

  lemma Join(t: TTLs, delta: nat, s: State, x: Id, p: Packument) returns (events: seq<Event>)
    requires Ready(t, delta, s, x, p)
    ensures BriskFrom(t, delta, s, events)
    ensures Exec(t, s, events).now == s.now && Shared(delta, Exec(t, s, events), x, p)
  {
    var s1 := Step(t, s, Begin(x + 1));
    assert s1.requests[x + 1] == Missed(s.now);
    events := Three(t, delta, s, Begin(x + 1), Enter(x + 1), Deliver);
  }

  /** Both put it into the memo, the later one as late as it may. */
  lemma LatePut(t: TTLs, delta: nat, s: State, x: Id, p: Packument) returns (events: seq<Event>)
    requires Shared(delta, s, x, p)
    ensures var s' := Exec(t, s, events);
      && BriskFrom(t, delta, s, events) && s'.now == s.now + delta
      && x + 1 in s'.requests && s'.requests[x + 1] == Answered(Ok(p), s'.now)
      && (t.memo > 0 ==> s'.cached.memo == Some(Memo(p, s'.now + t.memo)))
      && forall r <- s'.requests :: r <= x + 1 && s'.requests[r].Answered?
  {
    var s1 := Step(t, s, Store(x));
    assert forall r <- s1.requests :: r <= x + 1 && (r != x + 1 ==> s1.requests[r].Answered?);
    events := Three(t, delta, s, Store(x), Tick(delta), Store(x + 1));
  }

  /** A last request hits it just before it runs out. */
  lemma LastHit(t: TTLs, delta: nat, s: State, r: Id, p: Packument) returns (events: seq<Event>)
    requires t.memo > 0 && s.cached.memo == Some(Memo(p, s.now + t.memo)) && r !in s.requests
    requires forall q <- s.requests :: s.requests[q].Answered?
    ensures var s' := Exec(t, s, events);
      BriskFrom(t, delta, s, events) && r in s'.requests && s'.requests[r] == Answered(Ok(p), s.now + t.memo - 1)
  {
    events := Then(t, delta, s, [], Tick(t.memo - 1));
    events := Then(t, delta, s, events, Begin(r));
  }

  lemma Finish(t: TTLs, delta: nat, s: State, x: Id, p: Packument) returns (events: seq<Event>, r: Id)
    requires Ready(t, delta, s, x, p)
    ensures BriskFrom(t, delta, s, events) && r in Exec(t, s, events).requests
    ensures Exec(t, s, events).requests[r] == Answered(Ok(p), s.now + delta + Pos(t.memo - 1))
  {
    var joined := Join(t, delta, s, x, p);
    var s1 := Exec(t, s, joined);
    var put := LatePut(t, delta, s1, x, p);
    BriskConcat(t, delta, s, joined, put);
    events, r := joined + put, x + 1;
    if t.memo > 0 {
      r := x + 2;
      var hit := LastHit(t, delta, Exec(t, s1, put), r, p);
      BriskConcat(t, delta, s, events, hit);
      events := events + hit;
    }
  }

  lemma FinishServes(t: TTLs, delta: nat, before: seq<Event>, x: Id, p: Packument) returns (events: seq<Event>, r: Id)
    requires Brisk(t, delta, before) && Ready(t, delta, Exec(t, Init(), before), x, p)
    requires !p.fallback && p.asked == Some(0)
    ensures Serves(t, delta, events, r, Exec(t, Init(), before).now + delta + Pos(t.memo - 1))
  {
    var rest: seq<Event>;
    rest, r := Finish(t, delta, Exec(t, Init(), before), x, p);
    BriskConcat(t, delta, Init(), before, rest);
    events := before + rest;
  }

  /** Some brisk run serves an answer of MaxAge. */
  lemma MaxAgeIsReached(t: TTLs, delta: nat, doc: Doc) returns (events: seq<Event>, r: Id)
    ensures Serves(t, delta, events, r, MaxAge(t, delta))
  {
    if t.durable > Pos(t.memo) {
      var fetched := SlowFetch(t, delta, doc);
      var s := Exec(t, Init(), fetched);
      var found := SlowFind(t, delta, doc, s);
      BriskConcat(t, delta, Init(), fetched, found);
      events, r := FinishServes(t, delta, fetched + found, 1, Packument(doc, Some(0), s.now, false));
    } else {
      var loaded := SlowLoad(t, delta, doc);
      events, r := FinishServes(t, delta, loaded, 0, Relic(doc));
    }
  }
}
