/** Exactly when a project page is answered from the cache, told from the events of the run alone. */
module ProjectHits {
  import opened Runs
  import opened Text
  import opened ProjectCache

  function Before(c: Config, events: seq<Event>): State
    requires events != []
  {
    Exec(c, Init(c), events[..|events| - 1])
  }

  /** The last event is the invalidation by an upload of the project. */
  predicate Publishes(c: Config, events: seq<Event>, project: string)
  {
    events != [] &&
    var e := events[|events| - 1];
    && e.Receive? && e.put.Publish? && e.u in c.uploads && c.uploads[e.u].project == project
    && e.u in Before(c, events).uploads && Before(c, events).uploads[e.u].Written?
  }

  /** How many uploads, of whatever project, have invalidated. */
  function Invalidations(c: Config, events: seq<Event>): nat
  {
    if events == [] then 0
    else
      var e, n := events[|events| - 1], Invalidations(c, events[..|events| - 1]);
      if e.Receive? && e.u in c.uploads && Publishes(c, events, c.uploads[e.u].project) then n + 1 else n
  }

  /** How many had when the load of request r began, if one has. */
  function WhenBegun(c: Config, events: seq<Event>, r: Id): Option<nat>
  {
    if events == [] then None
    else
      var before, s := events[..|events| - 1], Before(c, events);
      if events[|events| - 1] == Serve(r, Get) && r in s.getters && s.getters[r].Idle?
      then Some(Invalidations(c, before))
      else WhenBegun(c, before, r)
  }

  /** The last event ends a load of the project during which nothing was invalidated. */
  predicate Loads(c: Config, events: seq<Event>, project: string)
  {
    events != [] &&
    var e, before := events[|events| - 1], events[..|events| - 1];
    && e.Serve? && e.get.Insert? && e.r in c.requests && c.requests[e.r] == project
    && e.r in Before(c, events).getters && Before(c, events).getters[e.r].Inserting?
    && WhenBegun(c, before, e.r) == Some(Invalidations(c, before))
  }

  /** The page of the last such load of the project, and when it ended, unless an upload of the project has
      invalidated since. */
  function LastPage(c: Config, events: seq<Event>, project: string): Option<(set<File>, int)>
  {
    if events == [] then None
    else if Loads(c, events, project) then
      Some((Before(c, events).getters[events[|events| - 1].r].page, Before(c, events).now))
    else if Publishes(c, events, project) then None
    else LastPage(c, events[..|events| - 1], project)
  }

  // ---- The cache holds just that ----

  ghost predicate Loading(g: Getter)
  {
    g.Listing? || g.Collecting? || g.Inserting?
  }

  ghost predicate GenerationsOk(c: Config, events: seq<Event>)
  {
    var s := Exec(c, Init(c), events);
    && s.getters.Keys == c.requests.Keys && s.uploads.Keys == c.uploads.Keys
    && s.repo.cache.generation == Invalidations(c, events)
    && forall r <- s.getters :: Loading(s.getters[r]) ==> WhenBegun(c, events, r) == Some(s.getters[r].gen)
  }

  lemma GenerationStep(c: Config, events: seq<Event>)
    requires c.ttl > 0 && events != [] && GenerationsOk(c, events[..|events| - 1])
    ensures Exec(c, Init(c), events).repo.cache.generation == Invalidations(c, events)
  {
    var s, e := Before(c, events), events[|events| - 1];
    assert Exec(c, Init(c), events) == Step(c, s, e);
    match e
    case Tick(_) =>
    case Serve(_, _) =>
    case Receive(u, put) =>
  }

  lemma LoadingStep(c: Config, events: seq<Event>, r: Id)
    requires c.ttl > 0 && events != [] && GenerationsOk(c, events[..|events| - 1])
    requires r in Before(c, events).getters
    ensures var s := Exec(c, Init(c), events);
      r in s.getters && (Loading(s.getters[r]) ==> WhenBegun(c, events, r) == Some(s.getters[r].gen))
  {
    var s, e := Before(c, events), events[|events| - 1];
    assert Exec(c, Init(c), events) == Step(c, s, e);
    if e.Serve? && e.r == r && e.r in c.requests {
      match e.get
      case Get =>
      case _ => assert Step(c, s, e).getters[r] == NextGetter(c.ttl, s.repo, s.now, c.requests[r], s.getters[r], e.get);
    } else {
      assert Step(c, s, e).getters[r] == s.getters[r];
    }
  }

  lemma {:induction false} GenerationsHold(c: Config, events: seq<Event>)
    requires c.ttl > 0
    ensures GenerationsOk(c, events)
  {
    if events != [] {
      GenerationsHold(c, events[..|events| - 1]);
      GenerationStep(c, events);
      assert Exec(c, Init(c), events) == Step(c, Before(c, events), events[|events| - 1]);
      forall r <- Before(c, events).getters
        ensures var g := Exec(c, Init(c), events).getters[r]; Loading(g) ==> WhenBegun(c, events, r) == Some(g.gen)
      {
        LoadingStep(c, events, r);
      }
    }
  }

  /** The cache holds the last page of the project, with its expiry. */
  ghost predicate HoldsLast(c: Config, m: map<string, Entry>, project: string, last: Option<(set<File>, int)>)
  {
    if project in m then last == Some((m[project].page, m[project].expires - c.ttl)) else last == None
  }

  lemma UploadStep(c: Config, events: seq<Event>, project: string)
    requires c.ttl > 0 && events != [] && events[|events| - 1].Receive?
    ensures var m, m' := Before(c, events).repo.cache.m, Exec(c, Init(c), events).repo.cache.m;
      if Publishes(c, events, project) then project !in m'
      else (project in m' <==> project in m) && (project in m ==> m'[project] == m[project])
  {
    assert Exec(c, Init(c), events) == Step(c, Before(c, events), events[|events| - 1]);
  }

  lemma RequestStep(c: Config, events: seq<Event>, project: string)
    requires c.ttl > 0 && events != [] && events[|events| - 1].Serve? && GenerationsOk(c, events[..|events| - 1])
    ensures var s, m' := Before(c, events), Exec(c, Init(c), events).repo.cache.m;
      if Loads(c, events, project) then
        project in m' && m'[project] == Entry(s.getters[events[|events| - 1].r].page, s.now + c.ttl)
      else (project in m' <==> project in s.repo.cache.m)
           && (project in m' ==> m'[project] == s.repo.cache.m[project])
  {
    var s, e := Before(c, events), events[|events| - 1];
    assert Exec(c, Init(c), events) == Step(c, s, e);
    if e.get.Insert? && e.r in c.requests && e.r in s.getters && s.getters[e.r].Inserting? {
      assert Loading(s.getters[e.r]);
    }
  }

  lemma LastPageStep(c: Config, events: seq<Event>, project: string)
    requires c.ttl > 0 && events != [] && GenerationsOk(c, events[..|events| - 1])
    requires HoldsLast(c, Before(c, events).repo.cache.m, project, LastPage(c, events[..|events| - 1], project))
    ensures HoldsLast(c, Exec(c, Init(c), events).repo.cache.m, project, LastPage(c, events, project))
  {
    match events[|events| - 1]
    case Tick(_) =>
      assert Exec(c, Init(c), events) == Step(c, Before(c, events), events[|events| - 1]);
    case Serve(_, _) => RequestStep(c, events, project);
    case Receive(_, _) => UploadStep(c, events, project);
  }

  lemma {:induction false} CacheIsLastPage(c: Config, events: seq<Event>, project: string)
    requires c.ttl > 0
    ensures HoldsLast(c, Exec(c, Init(c), events).repo.cache.m, project, LastPage(c, events, project))
  {
    if events != [] {
      CacheIsLastPage(c, events[..|events| - 1], project);
      GenerationsHold(c, events[..|events| - 1]);
      LastPageStep(c, events, project);
    }
  }

  /** A request is answered from the cache if and only if caching is on and the last load of its project during
      which nothing was invalidated ended less than a TTL ago, with no invalidation of the project since; and
      then with that load's page. */
  lemma HitsExactly(c: Config, events: seq<Event>, r: Id)
    requires r in c.requests
    requires var s := Exec(c, Init(c), events); r in s.getters && s.getters[r].Idle?
    ensures var s, last := Exec(c, Init(c), events), LastPage(c, events, c.requests[r]);
      var g := Step(c, s, Serve(r, Get)).getters[r];
      && (g.Answered? <==> c.ttl > 0 && last.Some? && s.now < last.value.1 + c.ttl)
      && (g.Answered? ==> g.page == last.value.0)
  {
    if c.ttl > 0 {
      CacheIsLastPage(c, events, c.requests[r]);
    }
  }

  // ---- Every request can be answered ----

  function StepsLeft(g: Getter): nat
  {
    match g
    case Listing(_, _, _) => 3
    case Collecting(_, _, _, _, _) => 2
    case Inserting(_, _, _, _) => 1
    case _ => 0
  }

  function Todo(g: Getter): set<string>
  {
    if g.Collecting? then g.todo else {}
  }

  ghost predicate Underway(s: State, r: Id)
  {
    r in s.getters && (Loading(s.getters[r]) || s.getters[r].Answered?)
  }

  lemma RequestMoves(c: Config, s: State, r: Id) returns (e: Event)
    requires r in c.requests && Underway(s, r) && !s.getters[r].Answered?
    ensures var s' := Step(c, s, e);
      && Underway(s', r) && s'.now == s.now && s'.repo.stored == s.repo.stored
      && (StepsLeft(s'.getters[r]) < StepsLeft(s.getters[r])
          || (s'.getters[r].Collecting? && s.getters[r].Collecting? && s'.getters[r].todo < s.getters[r].todo))
  {
    var g := s.getters[r];
    if g.Listing? {
      e := Serve(r, ListVersions);
    } else if g.Inserting? {
      e := Serve(r, Insert);
    } else if v :| v in g.todo {
      e := Serve(r, ListFiles(v));
    } else {
      e := Serve(r, ListFiles(""));
    }
  }

  /** A request under way can be answered by its own steps, whatever state the cache is in. */
  lemma {:induction false} RequestsAreAnswered(c: Config, s: State, r: Id) returns (more: seq<Event>)
    requires r in c.requests && Underway(s, r)
    ensures var s' := Exec(c, s, more); r in s'.getters && s'.getters[r].Answered? && s'.now == s.now
    decreases StepsLeft(s.getters[r]), Todo(s.getters[r])
  {
    if s.getters[r].Answered? {
      more := [];
    } else {
      var e := RequestMoves(c, s, r);
      var rest := RequestsAreAnswered(c, Step(c, s, e), r);
      Play(Steps(c), s, [e], [s, Step(c, s, e)]);
      Concat(Steps(c), s, [e], rest);
      more := [e] + rest;
    }
  }

  /** An upload that meets no failure is stored and published, or refused because its file is stored already. */
  lemma UploadsTakeEffect(c: Config, s: State, u: Id)
    requires u in c.uploads && u in s.uploads && s.uploads[u] == NotStarted
    ensures var up := c.uploads[u];
      var s' := Exec(c, s, [Receive(u, Write), Receive(u, Publish)]);
      && u in s'.uploads && up.file in Of(s'.repo.stored, up.project)
      && if up.file in Of(s.repo.stored, up.project) then s'.uploads[u] == UploadFailed
         else s'.uploads[u] == Published && up.file in Of(s'.repo.published, up.project)
  {
    var s1 := Step(c, s, Receive(u, Write));
    Play(Steps(c), s, [Receive(u, Write), Receive(u, Publish)], [s, s1, Step(c, s1, Receive(u, Publish))]);
  }
}
