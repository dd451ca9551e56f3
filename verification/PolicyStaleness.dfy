/** How stale the policy cache's answers can be: which gets miss a completed change, and for how long. */
module PolicyStaleness {
  import opened Runs
  import opened Text
  import opened PolicyCache

  // ---- How long a stale answer can last ----

  predicate InTime(delta: nat, s: State, e: Event)
  {
    e.Tick? && !s.name.flight.NoFlight? ==> s.now + e.d <= s.name.flight.since + delta
  }

  function Timed(delta: nat): (State, Event) -> bool
  {
    (s, e) => InTime(delta, s, e)
  }

  /** No flight of the run takes longer than delta. */
  ghost predicate Brisk(c: Config, delta: nat, events: seq<Event>)
  {
    Throughout(Steps(c), Timed(delta), Init(c), events)
  }

  ghost predicate Timely(delta: nat, s: State)
  {
    !s.name.flight.NoFlight? ==> s.now <= s.name.flight.since + delta
  }

  /** How long after the last change a get can still start and be answered with an older spec: a load that has
      read but not inserted inserts up to delta later, the entry is found until it expires, and the flight that
      finds it can be joined for another delta. */
  function Staleness(c: Config, delta: nat, midLoad: bool): int
  {
    c.ttl + delta + if midLoad then delta else 0
  }

  /** No change lands any more. What is behind is a load, an answer or an entry from before: the entry expires by
      the deadline, and the flight that has it entered the group before that. */
  ghost predicate Settled(c: Config, s: State, delta: nat, g: Id, version: nat, deadline: int)
  {
    && |s.name.past| == version && TimesOk(c, s.now, s.name) && Timely(delta, s)
    && (s.name.flight.Read? && s.name.flight.version != version ==>
      s.name.flight.since + delta + c.ttl <= deadline)
    && (s.name.flight.Ready? && s.name.flight.version != version ==> s.name.flight.since < deadline)
    && (s.name.slot.Some? && s.name.origin.version != version ==> s.name.slot.value.expires <= deadline)
    && (g in s.getters ==> Late(s.getters[g], s.now, version, deadline + delta))
  }

  ghost predicate Late(g: Getter, now: int, version: nat, deadline: int)
  {
    && (!g.Idle? ==> g.since <= now)
    && (g.Got? && deadline <= g.since ==> g.version == version)
  }

  lemma SettledStep(c: Config, s: State, e: Event, delta: nat, g: Id, version: nat, deadline: int)
    requires Settled(c, s, delta, g, version, deadline) && !e.Land? && InTime(delta, s, e)
    ensures Settled(c, Step(c, s, e), delta, g, version, deadline)
  {
  }

  lemma {:induction false} RunIsTimely(c: Config, delta: nat, events: seq<Event>)
    requires Brisk(c, delta, events)
    ensures Timely(delta, Exec(c, Init(c), events))
  {
    if events != [] {
      RunIsTimely(c, delta, events[..|events| - 1]);
    }
  }

  lemma {:induction false} SettledStays(c: Config, before: seq<Event>, after: seq<Event>, delta: nat, g: Id,
      version: nat, deadline: int)
    requires Settled(c, Exec(c, Init(c), before), delta, g, version, deadline)
    requires Brisk(c, delta, before + after) && forall e <- after :: !e.Land?
    ensures Settled(c, Exec(c, Init(c), before + after), delta, g, version, deadline)
  {
    if after == [] {
      assert before + after == before;
    } else {
      var last := |after| - 1;
      assert (before + after)[..|before + after| - 1] == before + after[..last];
      SettledStays(c, before, after[..last], delta, g, version, deadline);
      SettledStep(c, Exec(c, Init(c), before + after[..last]), after[last], delta, g, version, deadline);
    }
  }

  /** Staleness ends: when flights take at most delta and changes have stopped landing, every get that starts a
      TTL and a flight later, two flights if a load was between its read and its insertion, is answered with the
      catalog's current spec. */
  lemma StaleAnswersRunOut(c: Config, delta: nat, before: seq<Event>, after: seq<Event>, g: Id)
    requires var s := Exec(c, Init(c), before); g in s.getters && s.getters[g].Idle?
    requires Brisk(c, delta, before + after) && forall e <- after :: !e.Land?
    ensures var s0, s := Exec(c, Init(c), before), Exec(c, Init(c), before + after);
      g in s.getters && s.getters[g].Got?
      && s0.now + Staleness(c, delta, s0.name.flight.Read?) <= s.getters[g].since ==>
        s.getters[g].version == |s.name.past| && s.getters[g].spec == s.name.stored
  {
    var s0 := Exec(c, Init(c), before);
    ExecKeepsInv(c, before);
    ThroughoutConcat(Steps(c), Timed(delta), Init(c), before, after);
    RunIsTimely(c, delta, before);
    SettledStays(c, before, after, delta, g, |s0.name.past|,
      s0.now + Staleness(c, delta, s0.name.flight.Read?) - delta);
    ExecKeepsInv(c, before + after);
    var s := Exec(c, Init(c), before + after);
    if g in s.getters { assert GetterOk(s.name, s.getters[g]); }
  }

  // ---- Runs that answer with an old spec ----

  /** Get g loads, change w lands and completes after the load's read, and the load has yet to insert. */
  function Overlap(g: Id, w: Id): seq<Event>
  {
    [Start(g), Enter(g), LookAgain, ReadCatalog, Land(w, true), Notify(w)]
  }

  ghost predicate Open(c: Config, s: State, g: Id, w: Id)
  {
    && c.ttl > 0 && s.name.slot == None && s.name.flight == NoFlight && s.name.completed <= |s.name.past|
    && Usable(c, s.name.stored) && g in s.getters && s.getters[g].Idle?
    && w in c.changes && w in s.writers && s.writers[w].NotStarted?
  }

  function Overlapped(c: Config, s: State, g: Id, w: Id): State
    requires w in c.changes
  {
    var n := s.name;
    State(s.now,
          Name(c.changes[w], n.past + [n.stored], |n.past| + 1, None, n.origin,
               Read(s.now, n.stored, |n.past|, true)),
          s.getters[g := Waiting(n.completed, s.now)], s.writers[w := Completed(|n.past| + 1)])
  }

  lemma OverlapRuns(c: Config, delta: nat, s: State, g: Id, w: Id)
    requires Open(c, s, g, w)
    ensures Throughout(Steps(c), Timed(delta), s, Overlap(g, w)) && Exec(c, s, Overlap(g, w)) == Overlapped(c, s, g, w)
  {
    var s1 := Step(c, s, Start(g));
    var s2 := Step(c, s1, Enter(g));
    var s3 := Step(c, s2, LookAgain);
    var s4 := Step(c, s3, ReadCatalog);
    assert s4.name == s.name.(flight := Read(s.now, s.name.stored, |s.name.past|, false));
    var s5 := Step(c, s4, Land(w, true));
    assert s5.writers == s.writers[w := Landed(|s.name.past| + 1)];
    var s6 := Step(c, s5, Notify(w));
    assert s6.getters == s.getters[g := Waiting(s.name.completed, s.now)];
    assert s6.writers == s.writers[w := Completed(|s.name.past| + 1)];
    PlayAllowed(Steps(c), Timed(delta), s, Overlap(g, w), [s, s1, s2, s3, s4, s5, s6]);
  }

  /** A load that read before a change and inserts after its hook puts the old spec back: with nothing under
      way any more, a get that starts afterwards is still answered with it. */
  lemma OverlapRevivesOldSpec(c: Config, g: Id, h: Id, w: Id)
    requires c.ttl > 0 && Usable(c, c.initial) && {g, h} <= c.gets && g != h && w in c.changes
    ensures var s := Exec(c, Init(c), Overlap(g, w) + [Insert(0), Deliver, Start(h)]);
      && Quiet(s) && s.name.flight.NoFlight? && s.name.stored == c.changes[w]
      && h in s.getters && s.getters[h] == Got(1, 0, c.initial, 0, true)
  {
    OverlapRuns(c, 0, Init(c), g, w);
    var s0 := Overlapped(c, Init(c), g, w);
    var s1 := Step(c, s0, Insert(0));
    var s2 := Step(c, s1, Deliver);
    assert s2.getters[h] == Idle;
    var s3 := Step(c, s2, Start(h));
    Play(Steps(c), s0, [Insert(0), Deliver, Start(h)], [s0, s1, s2, s3]);
    Concat(Steps(c), Init(c), Overlap(g, w), [Insert(0), Deliver, Start(h)]);
  }

  // ---- Exactly when completed changes are seen ----

  /** Change w returned before get g started, and g was answered with an older spec all the same. */
  ghost predicate Unseen(c: Config, before: seq<Event>, after: seq<Event>, w: Id, g: Id)
  {
    var s0, s := Exec(c, Init(c), before), Exec(c, Init(c), before + [Start(g)] + after);
    && ReturnedBefore(s0, w, g) && g in s.getters && s.getters[g].Got?
    && s.getters[g].version < s0.writers[w].version
  }

  /** There is a change to miss and a spec that loads to answer with instead. */
  predicate Replaces(c: Config, w: Id)
  {
    w in c.changes && (Usable(c, c.initial) || exists v <- c.changes :: v != w && Usable(c, c.changes[v]))
  }

  ghost predicate CanMiss(c: Config)
  {
    && c.ttl > 0 && (exists g, h :: g in c.gets && h in c.gets && g != h)
    && exists w :: Replaces(c, w)
  }

  predicate Carries(w: Writer, version: nat)
  {
    w == Refused || w == Landed(version) || w == Completed(version)
  }

  ghost predicate LandedBy(c: Config, s: State, x: Id, version: nat)
  {
    x in s.writers && x in c.changes && c.changes[x] == SpecAt(s.name, version) && Carries(s.writers[x], version)
  }

  ghost predicate Landing(c: Config, s: State, version: nat)
  {
    exists x :: LandedBy(c, s, x, version)
  }

  ghost predicate AllLanded(c: Config, s: State)
  {
    && s.writers.Keys == c.changes.Keys && SpecAt(s.name, 0) == c.initial
    && forall v: nat | 0 < v <= |s.name.past| :: Landing(c, s, v)
  }

  ghost predicate SomeStarted(c: Config, s: State)
  {
    && s.getters.Keys == c.gets
    && (s.name.slot.Some? || !s.name.flight.NoFlight? ==> exists g <- s.getters :: !s.getters[g].Idle?)
  }

  ghost predicate AllUsable(c: Config, s: State)
  {
    && (s.name.slot.Some? ==> Usable(c, s.name.slot.value.spec) && c.ttl > 0)
    && (!s.name.flight.NoFlight? ==> c.ttl > 0)
    && (s.name.flight.Read? || s.name.flight.Ready? ==> Usable(c, s.name.flight.spec))
    && forall g <- s.getters :: s.getters[g].Got? ==>
         Usable(c, s.getters[g].spec) && (s.getters[g].overlapped ==> c.ttl > 0)
  }

  lemma LandedStays(c: Config, s: State, e: Event, version: nat)
    requires version <= |s.name.past| && Landing(c, s, version)
    ensures Landing(c, Step(c, s, e), version)
  {
    var x :| LandedBy(c, s, x, version);
    assert SpecAt(Step(c, s, e).name, version) == SpecAt(s.name, version);
    assert LandedBy(c, Step(c, s, e), x, version);
  }

  lemma AllLandedStep(c: Config, s: State, e: Event)
    requires AllLanded(c, s)
    ensures AllLanded(c, Step(c, s, e))
  {
    var s' := Step(c, s, e);
    forall v: nat | 0 < v <= |s'.name.past| ensures Landing(c, s', v) {
      if v <= |s.name.past| {
        LandedStays(c, s, e, v);
      } else {
        assert s'.name.past[..v - 1] == s.name.past && SpecAt(s'.name, v) == s'.name.stored;
        assert LandedBy(c, s', e.w, v);
      }
    }
  }

  lemma SomeStartedStep(c: Config, s: State, e: Event)
    requires SomeStarted(c, s)
    ensures SomeStarted(c, Step(c, s, e))
  {
    var s' := Step(c, s, e);
    if g :| g in s.getters && !s.getters[g].Idle? {
      assert !s'.getters[g].Idle?;
    } else if e.Start? && e.g in s.getters {
      assert !s'.getters[e.g].Idle?;
    }
  }

  lemma AllUsableStep(c: Config, s: State, e: Event)
    requires AllUsable(c, s)
    ensures AllUsable(c, Step(c, s, e))
  {
    if e.Deliver? || e.LoadFails? {
      forall g <- s.getters | LetGo(s).getters[g].Got?
        ensures Usable(c, LetGo(s).getters[g].spec) && (LetGo(s).getters[g].overlapped ==> c.ttl > 0)
      {
        assert s.getters[g].Got? ==> Usable(c, s.getters[g].spec);
      }
    }
  }

  lemma {:induction false} SourcesHold(c: Config, events: seq<Event>)
    ensures var s := Exec(c, Init(c), events); AllLanded(c, s) && SomeStarted(c, s) && AllUsable(c, s)
  {
    if events != [] {
      SourcesHold(c, events[..|events| - 1]);
      var s, e := Exec(c, Init(c), events[..|events| - 1]), events[|events| - 1];
      AllLandedStep(c, s, e);
      SomeStartedStep(c, s, e);
      AllUsableStep(c, s, e);
    }
  }

  /** No answer, entry or load older than this version. */
  ghost predicate NoneOlder(s: State, g: Id, version: nat)
  {
    && version <= |s.name.past|
    && (s.name.slot.Some? ==> version <= s.name.origin.version)
    && (s.name.flight.Read? || s.name.flight.Ready? ==> version <= s.name.flight.version)
    && (g in s.getters && s.getters[g].Got? ==> version <= s.getters[g].version)
  }

  lemma NoneOlderStep(c: Config, s: State, e: Event, g: Id, version: nat)
    requires NoneOlder(s, g, version)
    ensures NoneOlder(Step(c, s, e), g, version)
  {
  }

  lemma {:induction false} NoneOlderStays(c: Config, s: State, after: seq<Event>, g: Id, version: nat)
    requires NoneOlder(s, g, version)
    ensures NoneOlder(Exec(c, s, after), g, version)
  {
    if after != [] {
      NoneOlderStays(c, s, after[..|after| - 1], g, version);
      NoneOlderStep(c, Exec(c, s, after[..|after| - 1]), after[|after| - 1], g, version);
    }
  }

  /** An older answer takes another get that started before. */
  lemma UnseenTakesAnother(c: Config, before: seq<Event>, after: seq<Event>, w: Id, g: Id)
    requires Unseen(c, before, after, w, g)
    ensures exists h :: h in c.gets && h != g
  {
    var s0 := Exec(c, Init(c), before);
    ExecKeepsInv(c, before);
    SourcesHold(c, before);
    assert WriterOk(s0.name, s0.writers[w]);
    assert before + [Start(g)] + after == before + ([Start(g)] + after);
    Concat(Steps(c), Init(c), before, [Start(g)] + after);
    if NoneOlder(s0, g, s0.writers[w].version) {
      NoneOlderStays(c, s0, [Start(g)] + after, g, s0.writers[w].version);
    }
    var h :| h in s0.getters && !s0.getters[h].Idle?;
    assert h in c.gets && h != g;
  }

  lemma UnseenCanMiss(c: Config, before: seq<Event>, after: seq<Event>, w: Id, g: Id)
    requires Unseen(c, before, after, w, g)
    ensures CanMiss(c)
  {
    var events := before + [Start(g)] + after;
    var s0, s := Exec(c, Init(c), before), Exec(c, Init(c), events);
    CompletedChangesAreSeen(c, before, after, w, g);
    SourcesHold(c, events);
    UnseenTakesAnother(c, before, after, w, g);
    CompletedStays(c, s0, [Start(g)] + after, w, s0.writers[w].version);
    Concat(Steps(c), Init(c), before, [Start(g)] + after);
    assert events == before + ([Start(g)] + after);
    ExecKeepsInv(c, events);
    assert GetterOk(s.name, s.getters[g]);
    OlderIsReplaced(c, s, w, s.getters[g].version);
  }

  lemma OlderIsReplaced(c: Config, s: State, w: Id, version: nat)
    requires AllLanded(c, s) && version <= |s.name.past| && Usable(c, SpecAt(s.name, version))
    requires w in s.writers && s.writers[w].Completed? && version < s.writers[w].version
    ensures Replaces(c, w)
  {
    if version > 0 {
      assert Landing(c, s, version);
      var x :| LandedBy(c, s, x, version);
      assert x != w;
    }
  }

  lemma {:induction false} CompletedStays(c: Config, s: State, after: seq<Event>, w: Id, version: nat)
    requires w in s.writers && s.writers[w] == Completed(version)
    ensures var s' := Exec(c, s, after); w in s'.writers && s'.writers[w] == Completed(version)
  {
    if after != [] {
      CompletedStays(c, s, after[..|after| - 1], w, version);
    }
  }

  /** A get that starts once the change has returned joins the load that read before it. */
  lemma JoinOverlapped(c: Config, s: State, g: Id, h: Id, w: Id)
    requires Open(c, s, g, w) && h in s.getters && s.getters[h].Idle? && h != g
    ensures var s' := Exec(c, Overlapped(c, s, g, w), [Start(h), Enter(h), Insert(0), Deliver]);
      h in s'.getters && s'.getters[h] == Got(|s.name.past| + 1, s.now, s.name.stored, |s.name.past|, true)
  {
    var s0 := Overlapped(c, s, g, w);
    var s1 := Step(c, s0, Start(h));
    assert s1.getters[h] == Missed(|s.name.past| + 1, s.now);
    var s2 := Step(c, s1, Enter(h));
    assert s2.getters[h] == Waiting(|s.name.past| + 1, s.now);
    var s3 := Step(c, s2, Insert(0));
    var s4 := Step(c, s3, Deliver);
    Play(Steps(c), s0, [Start(h), Enter(h), Insert(0), Deliver], [s0, s1, s2, s3, s4]);
  }

  lemma MissesFrom(c: Config, first: seq<Event>, g: Id, h: Id, w: Id)
    requires var s := Exec(c, Init(c), first); Open(c, s, g, w) && h in s.getters && s.getters[h].Idle? && h != g
    ensures Unseen(c, first + Overlap(g, w), [Enter(h), Insert(0), Deliver], w, h)
  {
    var s, before, rest := Exec(c, Init(c), first), first + Overlap(g, w), [Enter(h), Insert(0), Deliver];
    OverlapRuns(c, 0, s, g, w);
    Concat(Steps(c), Init(c), first, Overlap(g, w));
    JoinOverlapped(c, s, g, h, w);
    assert [Start(h), Enter(h), Insert(0), Deliver] == [Start(h)] + rest;
    Concat(Steps(c), Init(c), before, [Start(h)] + rest);
    assert before + [Start(h)] + rest == before + ([Start(h)] + rest);
  }

  lemma CanMissMisses(c: Config, g: Id, h: Id, w: Id)
    requires c.ttl > 0 && g in c.gets && h in c.gets && g != h && Replaces(c, w)
    ensures exists before, after :: Unseen(c, before, after, w, h)
  {
    if Usable(c, c.initial) {
      MissesFrom(c, [], g, h, w);
    } else {
      var v :| v in c.changes && v != w && Usable(c, c.changes[v]);
      var s1 := Step(c, Init(c), Land(v, true));
      assert s1.name == Name(c.changes[v], [c.initial], 0, None, Origin(0, false, false), NoFlight);
      Play(Steps(c), Init(c), [Land(v, true)], [Init(c), s1]);
      MissesFrom(c, [Land(v, true)], g, h, w);
    }
  }

  /** Some run answers a get with a spec older than a change that had returned before it started if and only if
      caching is on, there are two gets, and there is a change with a loadable spec that it can come after. */
  lemma ChangesAreMissedExactly(c: Config)
    ensures (exists before, after, w, g :: Unseen(c, before, after, w, g)) <==> CanMiss(c)
  {
    if before, after, w, g :| Unseen(c, before, after, w, g) {
      UnseenCanMiss(c, before, after, w, g);
    }
    if CanMiss(c) {
      var g, h :| g in c.gets && h in c.gets && g != h;
      var w :| Replaces(c, w);
      CanMissMisses(c, g, h, w);
    }
  }

  // ---- The staleness bound is exact ----

  /** A brisk run in which no change lands after a cut, and a get that starts this long after the cut is answered
      with another spec than the catalog's; at the cut a load was between its read and its insertion, or not. */
  ghost predicate AnsweredOld(c: Config, delta: nat, before: seq<Event>, after: seq<Event>, g: Id, midLoad: bool,
      wait: int)
  {
    var s0, s := Exec(c, Init(c), before), Exec(c, Init(c), before + after);
    && Brisk(c, delta, before + after) && (forall e <- after :: !e.Land?)
    && s0.name.flight.Read? == midLoad && g in s0.getters && s0.getters[g].Idle?
    && g in s.getters && s.getters[g].Got? && s.getters[g].since == s0.now + wait
    && s.getters[g].spec != s.name.stored
  }

  /** The entry of a load that a change overlapped; get h has missed long ago, get k is yet to start. */
  ghost predicate OldEntry(c: Config, s: State, was: Spec, stored: Spec, h: Id, k: Id)
  {
    && c.ttl > 0 && s.name.slot == Loaded(was, s.now, c.ttl) && s.name.flight == NoFlight && s.name.stored == stored
    && h in s.getters && k in s.getters && h != k && s.getters[h].Missed? && s.getters[k] == Idle
  }

  function Insertion(delta: nat): seq<Event>
  {
    [Tick(delta), Insert(0), Deliver]
  }

  lemma InsertionRuns(c: Config, delta: nat, s: State, g: Id, w: Id, h: Id, k: Id)
    requires Open(c, s, g, w) && h in s.getters && k in s.getters && h != k && g != h && g != k
    requires s.getters[h].Missed? && s.getters[k] == Idle
    ensures var o := Overlapped(c, s, g, w); var s' := Exec(c, o, Insertion(delta));
      && Throughout(Steps(c), Timed(delta), o, Insertion(delta)) && s'.now == s.now + delta
      && OldEntry(c, s', s.name.stored, c.changes[w], h, k)
  {
    var s0 := Overlapped(c, s, g, w);
    var s1 := Step(c, s0, Tick(delta));
    var s2 := Step(c, s1, Insert(0));
    var s3 := Step(c, s2, Deliver);
    PlayAllowed(Steps(c), Timed(delta), s0, Insertion(delta), [s0, s1, s2, s3]);
  }

  /** Get h finds the entry just before it expires, and get k joins its flight as late as it can. */
  function LateFind(c: Config, h: Id): seq<Event>
    requires c.ttl > 0
  {
    [Tick(c.ttl - 1), Enter(h), LookAgain]
  }

  function LateJoin(delta: nat, k: Id): seq<Event>
  {
    [Tick(delta), Start(k), Enter(k), Deliver]
  }

  /** The second look has found the old spec. */
  ghost predicate OldFound(c: Config, s: State, was: Spec, stored: Spec, k: Id)
  {
    && c.ttl > 0 && s.name.stored == stored && s.name.slot == Some(Entry(was, s.now + 1)) && s.name.flight.Ready?
    && s.name.flight.spec == was && s.name.flight.since == s.now && k in s.getters && s.getters[k] == Idle
  }

  lemma LateFindRuns(c: Config, delta: nat, s: State, was: Spec, stored: Spec, h: Id, k: Id)
    requires OldEntry(c, s, was, stored, h, k)
    ensures Throughout(Steps(c), Timed(delta), s, LateFind(c, h))
    ensures var s' := Exec(c, s, LateFind(c, h)); OldFound(c, s', was, stored, k) && s'.now == s.now + c.ttl - 1
  {
    var s1 := Step(c, s, Tick(c.ttl - 1));
    var s2 := Step(c, s1, Enter(h));
    var s3 := Step(c, s2, LookAgain);
    PlayAllowed(Steps(c), Timed(delta), s, LateFind(c, h), [s, s1, s2, s3]);
  }

  lemma LateJoinRuns(c: Config, delta: nat, s: State, was: Spec, stored: Spec, k: Id)
    requires OldFound(c, s, was, stored, k)
    ensures Throughout(Steps(c), Timed(delta), s, LateJoin(delta, k))
    ensures var s' := Exec(c, s, LateJoin(delta, k));
      && s'.name.stored == stored && k in s'.getters && s'.getters[k].Got?
      && s'.getters[k].spec == was && s'.getters[k].since == s.now + delta
  {
    var s1 := Step(c, s, Tick(delta));
    var s2 := Step(c, s1, Start(k));
    assert if delta == 0 then s2.getters[k].Got? && s2.getters[k].spec == was else s2.getters[k].Missed?;
    var s3 := Step(c, s2, Enter(k));
    var s4 := Step(c, s3, Deliver);
    PlayAllowed(Steps(c), Timed(delta), s, LateJoin(delta, k), [s, s1, s2, s3, s4]);
  }

  /** From the insertion on, get k starts a TTL and a flight later, less one instant, and gets the old spec. */
  lemma LateRuns(c: Config, delta: nat, s: State, was: Spec, stored: Spec, h: Id, k: Id) returns (late: seq<Event>)
    requires OldEntry(c, s, was, stored, h, k)
    ensures Throughout(Steps(c), Timed(delta), s, late) && forall e <- late :: !e.Land?
    ensures var s' := Exec(c, s, late);
      && s'.name.stored == stored && k in s'.getters && s'.getters[k].Got?
      && s'.getters[k].spec == was && s'.getters[k].since == s.now + c.ttl - 1 + delta
  {
    LateFindRuns(c, delta, s, was, stored, h, k);
    LateJoinRuns(c, delta, Exec(c, s, LateFind(c, h)), was, stored, k);
    ThroughoutConcat(Steps(c), Timed(delta), s, LateFind(c, h), LateJoin(delta, k));
    late := LateFind(c, h) + LateJoin(delta, k);
  }

  lemma StartAndOverlap(c: Config, delta: nat, g: Id, h: Id, w: Id)
    requires c.ttl > 0 && Usable(c, c.initial) && {g, h} <= c.gets && g != h && w in c.changes
    ensures var s1 := Step(c, Init(c), Start(h));
      && Open(c, s1, g, w) && s1.getters == Init(c).getters[h := Missed(0, 0)]
      && Throughout(Steps(c), Timed(delta), Init(c), [Start(h)] + Overlap(g, w))
      && Exec(c, Init(c), [Start(h)] + Overlap(g, w)) == Overlapped(c, s1, g, w)
  {
    var s1 := Step(c, Init(c), Start(h));
    PlayAllowed(Steps(c), Timed(delta), Init(c), [Start(h)], [Init(c), s1]);
    OverlapRuns(c, delta, s1, g, w);
    ThroughoutConcat(Steps(c), Timed(delta), Init(c), [Start(h)], Overlap(g, w));
  }

  /** An entry of the initial spec, made by a load that a change overlapped. */
  lemma OldEntryRun(c: Config, delta: nat, g: Id, h: Id, k: Id, w: Id)
    requires c.ttl > 0 && Usable(c, c.initial) && {g, h, k} <= c.gets && g != h && g != k && h != k && w in c.changes
    ensures var s := Exec(c, Init(c), [Start(h)] + Overlap(g, w));
      s.now == 0 && s.name.flight.Read? && k in s.getters && s.getters[k].Idle?
    ensures var s := Exec(c, Init(c), [Start(h)] + Overlap(g, w) + Insertion(delta));
      && Throughout(Steps(c), Timed(delta), Init(c), [Start(h)] + Overlap(g, w) + Insertion(delta))
      && OldEntry(c, s, c.initial, c.changes[w], h, k) && s.now == delta
  {
    StartAndOverlap(c, delta, g, h, w);
    InsertionRuns(c, delta, Step(c, Init(c), Start(h)), g, w, h, k);
    ThroughoutConcat(Steps(c), Timed(delta), Init(c), [Start(h)] + Overlap(g, w), Insertion(delta));
  }

  lemma StalenessIsReached(c: Config, delta: nat, g: Id, h: Id, k: Id, w: Id, midLoad: bool)
    returns (before: seq<Event>, after: seq<Event>)
    requires c.ttl > 0 && Usable(c, c.initial) && {g, h, k} <= c.gets && g != h && g != k && h != k
    requires w in c.changes && c.changes[w] != c.initial
    ensures AnsweredOld(c, delta, before, after, k, midLoad, Staleness(c, delta, midLoad) - 1)
  {
    OldEntryRun(c, delta, g, h, k, w);
    var first, more := [Start(h)] + Overlap(g, w), Insertion(delta);
    var late := LateRuns(c, delta, Exec(c, Init(c), first + more), c.initial, c.changes[w], h, k);
    ThroughoutConcat(Steps(c), Timed(delta), Init(c), first + more, late);
    if midLoad {
      before, after := first, more + late;
      assert before + after == first + more + late;
    } else {
      before, after := first + more, late;
    }
  }

  /** With caching on, three gets and a change to miss, the time after which a get can be sure of the current spec
      is exactly a TTL and a flight, or two flights where the last change may have overlapped a load. */
  lemma StaleAnswersRunOutExactly(c: Config, delta: nat, g: Id, h: Id, k: Id, w: Id, midLoad: bool, bound: int)
    requires c.ttl > 0 && Usable(c, c.initial) && {g, h, k} <= c.gets && g != h && g != k && h != k
    requires w in c.changes && c.changes[w] != c.initial
    ensures (forall before, after, get, wait | AnsweredOld(c, delta, before, after, get, midLoad, wait) :: wait < bound)
      <==> Staleness(c, delta, midLoad) <= bound
  {
    forall before, after, get, wait | AnsweredOld(c, delta, before, after, get, midLoad, wait)
      ensures wait < Staleness(c, delta, midLoad)
    {
      StaleAnswersRunOut(c, delta, before, after, get);
    }
    var before, after := StalenessIsReached(c, delta, g, h, k, w, midLoad);
  }
}
