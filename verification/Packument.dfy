/** The npm proxy's two-level packument cache: an in-process memo over a durable snapshot, a memory of upstream
    404s, one upstream load at a time, and fallbacks while the upstream is down. Packages do not interact, so
    the protocol follows one package. */
module Packument {
  import opened Runs
  import opened Text

  /** The canonical metadata document: version documents, dist-tags and publish times. */
  datatype Doc = Doc(versions: map<string, string>, tags: map<string, string>, times: map<string, string>)

  /** A stored version: its package.json, None when missing or undecodable, and its upload time, if noted. */
  datatype VersionFile = VersionFile(doc: Option<string>, uploadedAt: string)

  /** A packument with its past: when the upstream gave it, unless it was synthesized; when the load that
      brought it settled on it; and whether that was by a fallback. */
  datatype Packument = Packument(doc: Doc, asked: Option<int>, loaded: int, fallback: bool)

  datatype Memo = Memo(p: Packument, expires: int)

  /** The durable copy; noted says that its time is the one in its metadata record, which outlives a replacement
      of the document alone, and not the time the bucket itself has for the document. */
  datatype Snapshot = Snapshot(doc: Doc, asked: int, updatedAt: int, noted: bool)

  /** What an attempt to keep a document leaves in the bucket. */
  datatype Kept = Whole | DocumentOnly | Nothing

  datatype Response = Gives(doc: Doc) | Gone | Bad
  datatype Outcome = Ok(p: Packument) | NotFound(recorded: int) | Unavailable
  datatype TTLs = TTLs(memo: int, durable: int, neg: int)

  /** What one package has in the memo, in the negative cache and in the bucket. */
  datatype Cached = Cached(memo: Option<Memo>, neg: Option<int>, snapshot: Option<Snapshot>,
                           versions: map<string, VersionFile>, tags: map<string, string>)

  /** How the bucket answers while a packument is synthesized: whether the package and its versions can be
      listed, which version documents and which version records cannot be read, and whether tags can. */
  datatype Reads = Reads(listed: bool, unread: set<string>, undated: set<string>, tagged: bool)

  function MemoGet(t: TTLs, memo: Option<Memo>, now: int): Option<Packument>
  {
    if t.memo > 0 && memo.Some? && now < memo.value.expires then Some(memo.value.p) else None
  }

  function MemoPut(t: TTLs, memo: Option<Memo>, p: Packument, now: int): Option<Memo>
  {
    if t.memo <= 0 then memo else Some(Memo(p, now + t.memo))
  }

  function IsGone(neg: Option<int>, now: int): bool
  {
    neg.Some? && now < neg.value
  }

  /** A snapshot young enough to serve without asking, if it can be read. */
  function YoungSnapshot(t: TTLs, s: Option<Snapshot>, now: int, readable: bool): Option<Packument>
  {
    if t.durable > 0 && s.Some? && readable && now - s.value.updatedAt < t.durable
    then Some(Packument(s.value.doc, Some(s.value.asked), now, false))
    else None
  }

  predicate CanRead(versions: map<string, VersionFile>, r: Reads, v: string)
  {
    v in versions && v !in r.unread && versions[v].doc.Some?
  }

  predicate CanDate(versions: map<string, VersionFile>, r: Reads, v: string)
  {
    CanRead(versions, r, v) && v !in r.undated && versions[v].uploadedAt != ""
  }

  /** The documents, and the upload times, of the versions that can be read and are not left out. */
  function ReadDocs(versions: map<string, VersionFile>, r: Reads, out: set<string>): map<string, string>
  {
    map v | v in versions && v !in out && CanRead(versions, r, v) :: versions[v].doc.value
  }

  function ReadTimes(versions: map<string, VersionFile>, r: Reads, out: set<string>): map<string, string>
  {
    map v | v in versions && v !in out && CanDate(versions, r, v) :: versions[v].uploadedAt
  }

  /** The packument the stored versions make up: unreadable ones are skipped, and none left is no packument. */
  function Synthesized(versions: map<string, VersionFile>, tags: map<string, string>, r: Reads): Option<Doc>
  {
    var docs := ReadDocs(versions, r, {});
    if !r.listed || docs == map[] then None
    else Some(Doc(docs, if r.tagged then tags else map[], ReadTimes(versions, r, {})))
  }

  /** With the upstream down: the snapshot at any age, else what the stored versions make up, else nothing. */
  function Fallback(c: Cached, now: int, readable: bool, r: Reads): Outcome
  {
    if c.snapshot.Some? && readable then Ok(Packument(c.snapshot.value.doc, Some(c.snapshot.value.asked), now, true))
    else
      var made := Synthesized(c.versions, c.tags, r);
      if made.Some? then Ok(Packument(made.value, None, now, true)) else Unavailable
  }

  /** The document lists exactly the versions that can be read, each as it is stored, with the upload times that
      are noted and can be read, and all tags if they can be read. */
  ghost predicate ListsAll(c: Cached, r: Reads, doc: Doc)
  {
    && (forall v :: v in doc.versions <==> v in c.versions && v !in r.unread && c.versions[v].doc.Some?)
    && (forall v <- doc.versions :: c.versions[v].doc == Some(doc.versions[v]))
    && (forall v :: v in doc.times <==> v in doc.versions && v !in r.undated && c.versions[v].uploadedAt != "")
    && (forall v <- doc.times :: c.versions[v].uploadedAt == doc.times[v])
    && doc.tags == if r.tagged then c.tags else map[]
  }

  /** What an answer must be while the upstream is down: a snapshot that can be read, whatever its age; without
      one all that can be read of the stored versions; and unavailable only if that is nothing. */
  ghost predicate FallsBack(c: Cached, now: int, readable: bool, r: Reads, out: Outcome)
  {
    if c.snapshot.Some? && readable then
      out == Ok(Packument(c.snapshot.value.doc, Some(c.snapshot.value.asked), now, true))
    else
      && (out == Unavailable <==> !r.listed || forall v <- c.versions :: v in r.unread || c.versions[v].doc.None?)
      && (out != Unavailable ==>
        out.Ok? && out.p == Packument(out.p.doc, None, now, true) && ListsAll(c, r, out.p.doc))
  }

  lemma FallbackFallsBack(c: Cached, now: int, readable: bool, r: Reads)
    ensures FallsBack(c, now, readable, r, Fallback(c, now, readable, r))
  {
    if v :| v in c.versions && CanRead(c.versions, r, v) {
      assert v in ReadDocs(c.versions, r, {});
    }
  }

  function Keep(was: Option<Snapshot>, doc: Doc, asked: int, now: int, kept: Kept): Option<Snapshot>
  {
    match kept
    case Whole => Some(Snapshot(doc, asked, now, true))
    case DocumentOnly =>
      if was.Some? && was.value.noted then Some(was.value.(doc := doc, asked := asked))
      else Some(Snapshot(doc, asked, now, false))
    case Nothing => was
  }

  /** What a conclusive response leaves behind. */
  function Recorded(t: TTLs, c: Cached, r: Response, asked: int, now: int, kept: Kept): Cached
  {
    match r
    case Gives(doc) => c.(snapshot := Keep(c.snapshot, doc, asked, now, kept), neg := None)
    case Gone => c.(neg := Some(now + t.neg))
    case Bad => c
  }

  /** What the engine finds outside itself in one fetch. */
  datatype World = World(readable: bool, upstream: Response, kept: Kept, readableLater: bool, reading: Reads)

  /** A whole fetch at one instant. */
  function Fetch(t: TTLs, c: Cached, now: int, w: World): (Cached, Outcome)
  {
    if MemoGet(t, c.memo, now).Some? then (c, Ok(MemoGet(t, c.memo, now).value))
    else if IsGone(c.neg, now) then (c, NotFound(c.neg.value - t.neg))
    else
      var (c', out) := Load(t, c, now, w);
      if out.Ok? then (c'.(memo := MemoPut(t, c'.memo, out.p, now)), out) else (c', out)
  }

  function Load(t: TTLs, c: Cached, now: int, w: World): (Cached, Outcome)
  {
    var young := YoungSnapshot(t, c.snapshot, now, w.readable);
    if young.Some? then (c, Ok(young.value))
    else
      (Recorded(t, c, w.upstream, now, now, w.kept),
       match w.upstream
       case Gives(doc) => Ok(Packument(doc, Some(now), now, false))
       case Gone => NotFound(now)
       case Bad => Fallback(c, now, w.readableLater, w.reading))
  }

  /** The engine of one process; a key is a namespace and a package. */
  class Engine {
    const ttls: TTLs
    var memo: map<string, Memo>
    var neg: map<string, int>
    var snapshots: map<string, Snapshot>
    var versions: map<string, map<string, VersionFile>>
    var tags: map<string, map<string, string>>

    constructor (ttls: TTLs)
      ensures this.ttls == ttls && forall k :: View(k) == Cached(None, None, None, map[], map[])
    {
      this.ttls, memo, neg, snapshots, versions, tags := ttls, map[], map[], map[], map[], map[];
    }

    ghost function View(key: string): Cached
      reads this
    {
      Cached(if key in memo then Some(memo[key]) else None,
             if key in neg then Some(neg[key]) else None,
             if key in snapshots then Some(snapshots[key]) else None,
             if key in versions then versions[key] else map[],
             if key in tags then tags[key] else map[])
    }

    method Get(key: string, now: int) returns (p: Option<Packument>)
      ensures p == MemoGet(ttls, View(key).memo, now)
    {
      if ttls.memo <= 0 {
        return None;
      }
      if key in memo && now < memo[key].expires {
        return Some(memo[key].p);
      }
      p := None;
    }

    method Put(key: string, p: Packument, now: int)
      modifies this`memo
      ensures View(key) == old(View(key)).(memo := MemoPut(ttls, old(View(key)).memo, p, now))
      ensures forall k :: k != key ==> View(k) == old(View(k))
    {
      if ttls.memo <= 0 {
        return;
      }
      memo := memo[key := Memo(p, now + ttls.memo)];
    }

    /** Walks the stored versions, whatever order they are listed in. */
    method Synthesize(key: string, r: Reads) returns (made: Option<Doc>)
      ensures made == Synthesized(View(key).versions, View(key).tags, r)
    {
      var stored := if key in versions then versions[key] else map[];
      if !r.listed {
        return None;
      }
      var docs, times, todo := map[], map[], stored.Keys;
      while todo != {}
        invariant docs == ReadDocs(stored, r, todo) && times == ReadTimes(stored, r, todo)
      {
        var v :| v in todo;
        todo := todo - {v};
        if CanRead(stored, r, v) {
          docs := docs[v := stored[v].doc.value];
          if CanDate(stored, r, v) {
            times := times[v := stored[v].uploadedAt];
          }
        }
      }
      if docs == map[] {
        return None;
      }
      made := Some(Doc(docs, if r.tagged && key in tags then tags[key] else map[], times));
    }

    method FallbackPackument(key: string, now: int, w: World) returns (out: Outcome)
      ensures out == Fallback(View(key), now, w.readableLater, w.reading)
      ensures FallsBack(View(key), now, w.readableLater, w.reading, out)
    {
      FallbackFallsBack(View(key), now, w.readableLater, w.reading);
      if key in snapshots && w.readableLater {
        return Ok(Packument(snapshots[key].doc, Some(snapshots[key].asked), now, true));
      }
      var made := Synthesize(key, w.reading);
      if made.Some? {
        return Ok(Packument(made.value, None, now, true));
      }
      out := Unavailable;
    }

    method KeepSnapshot(key: string, doc: Doc, now: int, kept: Kept)
      modifies this`snapshots
      ensures View(key) == old(View(key)).(snapshot := Keep(old(View(key)).snapshot, doc, now, now, kept))
      ensures forall k :: k != key ==> View(k) == old(View(k))
    {
      match kept {
        case Whole =>
          snapshots := snapshots[key := Snapshot(doc, now, now, true)];
        case DocumentOnly =>
          var noted := key in snapshots && snapshots[key].noted;
          snapshots := snapshots[key := Snapshot(doc, now, if noted then snapshots[key].updatedAt else now, noted)];
        case Nothing =>
      }
    }

    method LoadPackument(key: string, now: int, w: World) returns (out: Outcome)
      modifies this`snapshots, this`neg
      ensures (View(key), out) == Load(ttls, old(View(key)), now, w)
      ensures forall k :: k != key ==> View(k) == old(View(k))
    {
      if ttls.durable > 0 && key in snapshots && w.readable {
        if now - snapshots[key].updatedAt < ttls.durable {
          return Ok(Packument(snapshots[key].doc, Some(snapshots[key].asked), now, false));
        }
      }
      match w.upstream {
        case Bad =>
          out := FallbackPackument(key, now, w);
        case Gone =>
          neg := neg[key := now + ttls.neg];
          out := NotFound(now);
        case Gives(doc) =>
          KeepSnapshot(key, doc, now, w.kept);
          neg := neg - {key};
          out := Ok(Packument(doc, Some(now), now, false));
      }
    }

    /** One fetch with nothing else running. */
    method FetchPackument(key: string, now: int, w: World) returns (out: Outcome)
      modifies this`memo, this`snapshots, this`neg
      ensures (View(key), out) == Fetch(ttls, old(View(key)), now, w)
      ensures forall k :: k != key ==> View(k) == old(View(k))
    {
      var hit := Get(key, now);
      if hit.Some? {
        return Ok(hit.value);
      }
      if key in neg && now < neg[key] {
        return NotFound(neg[key] - ttls.neg);
      }
      out := LoadPackument(key, now, w);
      if out.Ok? {
        Put(key, out.p, now);
      }
    }
  }

  // ---- Fetches that overlap ----

  type Id = nat

  datatype Request =
    | Missed(since: int)
    | Waiting(since: int)
    | Putting(since: int, p: Packument)
    | Answered(out: Outcome, at: int)

  /** The load the singleflight group lets run. */
  datatype Flight = NoFlight | Loading | Asking | Responded(r: Response, asked: int) | Ended(out: Outcome)

  /** absent is the recorded 404 that no recorded answer followed; live is when the memo last came to hold a
      live entry after holding none. */
  datatype State = State(now: int, cached: Cached, flight: Flight, requests: map<Id, Request>,
                         absent: Option<int>, live: int)

  datatype Event =
    | Tick(d: nat)
    | Begin(r: Id)
    | Enter(r: Id)
    | Check(readable: bool)
    | Respond(response: Response)
    | Record(kept: Kept)
    | FallBack(readable: bool, reading: Reads)
    | Deliver
    | Store(r: Id)
    | StoreVersion(version: string, file: VersionFile)
    | StoreTag(tag: string, target: string)

  function Init(): State
  {
    State(0, Cached(None, None, None, map[], map[]), NoFlight, map[], None, 0)
  }

  function First(t: TTLs, c: Cached, now: int): Request
  {
    if MemoGet(t, c.memo, now).Some? then Answered(Ok(MemoGet(t, c.memo, now).value), now)
    else if IsGone(c.neg, now) then Answered(NotFound(c.neg.value - t.neg), now)
    else Missed(now)
  }

  /** Entering the group: join what runs, or look at the memo again and begin. */
  function Lead(t: TTLs, c: Cached, now: int, f: Flight): Flight
  {
    if f != NoFlight then f
    else if MemoGet(t, c.memo, now).Some? then Ended(Ok(MemoGet(t, c.memo, now).value))
    else Loading
  }

  /** The load's own steps on its flight. */
  function NextFlight(t: TTLs, c: Cached, now: int, f: Flight, e: Event): Flight
  {
    match e
    case Check(readable) =>
      if !f.Loading? then f
      else
        var young := YoungSnapshot(t, c.snapshot, now, readable);
        if young.Some? then Ended(Ok(young.value)) else Asking
    case Respond(r) => if f.Asking? then Responded(r, now) else f
    case Record(_) =>
      if f.Responded? && f.r.Gives? then Ended(Ok(Packument(f.r.doc, Some(f.asked), f.asked, false)))
      else if f.Responded? && f.r.Gone? then Ended(NotFound(now))
      else f
    case FallBack(readable, reading) =>
      if f.Responded? && f.r.Bad? then Ended(Fallback(c, now, readable, reading)) else f
    case _ => f
  }

  /** What the group hands to everyone who waits. */
  function Handed(out: Outcome, now: int, r: Request): Request
  {
    if !r.Waiting? then r else if out.Ok? then Putting(r.since, out.p) else Answered(out, now)
  }

  function Step(t: TTLs, s: State, e: Event): State
  {
    match e
    case Tick(d) => s.(now := s.now + d)
    case Begin(r) => if r in s.requests then s else s.(requests := s.requests[r := First(t, s.cached, s.now)])
    case Enter(r) =>
      if r in s.requests && s.requests[r].Missed? then
        s.(flight := Lead(t, s.cached, s.now, s.flight), requests := s.requests[r := Waiting(s.requests[r].since)])
      else s
    case Record(kept) =>
      if s.flight.Responded? && !s.flight.r.Bad? then
        s.(cached := Recorded(t, s.cached, s.flight.r, s.flight.asked, s.now, kept),
           absent := if s.flight.r.Gone? then Some(s.now) else None,
           flight := NextFlight(t, s.cached, s.now, s.flight, e))
      else s
    case Deliver =>
      if s.flight.Ended? then
        s.(flight := NoFlight, requests := map r | r in s.requests :: Handed(s.flight.out, s.now, s.requests[r]))
      else s
    case Store(r) =>
      if r in s.requests && s.requests[r].Putting? then
        s.(cached := s.cached.(memo := MemoPut(t, s.cached.memo, s.requests[r].p, s.now)),
           live := if MemoGet(t, s.cached.memo, s.now).Some? then s.live else s.now,
           requests := s.requests[r := Answered(Ok(s.requests[r].p), s.now)])
      else s
    case StoreVersion(v, file) => s.(cached := s.cached.(versions := s.cached.versions[v := file]))
    case StoreTag(tag, target) => s.(cached := s.cached.(tags := s.cached.tags[tag := target]))
    case _ => s.(flight := NextFlight(t, s.cached, s.now, s.flight, e))
  }

  function Steps(t: TTLs): (State, Event) -> State
  {
    (s, e) => Step(t, s, e)
  }

  function Exec(t: TTLs, s: State, events: seq<Event>): State
  {
    Fold(Steps(t), s, events)
  }

  // ---- Where every packument comes from ----

  /** At this instant of the run the upstream, being asked, gave the document. */
  ghost predicate Given(t: TTLs, events: seq<Event>, doc: Doc, at: int)
  {
    exists i :: GivenBy(t, events, i, doc, at)
  }

  ghost predicate GivenBy(t: TTLs, events: seq<Event>, i: int, doc: Doc, at: int)
  {
    && 0 <= i < |events| && events[i] == Respond(Gives(doc))
    && var s := Exec(t, Init(), events[..i]); s.flight == Asking && s.now == at
  }

  /** The document says of versions, times and tags nothing but what is stored, and lists some version. */
  ghost predicate Reports(doc: Doc, c: Cached)
  {
    && doc.versions != map[]
    && (forall v <- doc.versions :: v in c.versions && c.versions[v].doc == Some(doc.versions[v]))
    && (forall v <- doc.times :: v in doc.versions && v in c.versions && c.versions[v].uploadedAt == doc.times[v])
    && (forall tag <- doc.tags :: tag in c.tags && c.tags[tag] == doc.tags[tag])
  }

  /** At this instant of the run the upstream, being asked, was of no use, and what was stored made up the
      document. */
  ghost predicate MadeUp(t: TTLs, events: seq<Event>, doc: Doc, at: int)
  {
    exists i :: MadeUpBy(t, events, i, doc, at)
  }

  ghost predicate MadeUpBy(t: TTLs, events: seq<Event>, i: int, doc: Doc, at: int)
  {
    && 0 <= i < |events| && events[i].FallBack?
    && var s := Exec(t, Init(), events[..i]);
       s.flight.Responded? && s.flight.r.Bad? && s.now == at && Reports(doc, s.cached)
  }

  ghost predicate Traced(t: TTLs, events: seq<Event>, p: Packument)
  {
    if p.asked.Some? then Given(t, events, p.doc, p.asked.value) else p.fallback && MadeUp(t, events, p.doc, p.loaded)
  }

  ghost predicate OutcomeTraced(t: TTLs, events: seq<Event>, out: Outcome)
  {
    out.Ok? ==> Traced(t, events, out.p)
  }

  ghost predicate RequestTraced(t: TTLs, events: seq<Event>, r: Request)
  {
    (r.Putting? ==> Traced(t, events, r.p)) && (r.Answered? ==> OutcomeTraced(t, events, r.out))
  }

  ghost predicate CachesTraced(t: TTLs, events: seq<Event>, c: Cached, f: Flight)
  {
    && (c.memo.Some? ==> Traced(t, events, c.memo.value.p))
    && (c.snapshot.Some? ==> Given(t, events, c.snapshot.value.doc, c.snapshot.value.asked))
    && (f.Ended? ==> OutcomeTraced(t, events, f.out))
    && (f.Responded? && f.r.Gives? ==> Given(t, events, f.r.doc, f.asked))
  }

  ghost predicate TraceInv(t: TTLs, events: seq<Event>)
  {
    var s := Exec(t, Init(), events);
    CachesTraced(t, events, s.cached, s.flight) && forall r <- s.requests :: RequestTraced(t, events, s.requests[r])
  }

  lemma StillTraced(t: TTLs, events: seq<Event>, e: Event, p: Packument)
    ensures Traced(t, events, p) ==> Traced(t, events + [e], p)
  {
    if p.asked.Some? {
      StillGiven(t, events, e, p.doc, p.asked.value);
    } else if i :| MadeUpBy(t, events, i, p.doc, p.loaded) {
      assert (events + [e])[..i] == events[..i];
      assert MadeUpBy(t, events + [e], i, p.doc, p.loaded);
    }
  }

  lemma StillGiven(t: TTLs, events: seq<Event>, e: Event, doc: Doc, at: int)
    ensures Given(t, events, doc, at) ==> Given(t, events + [e], doc, at)
  {
    if i :| GivenBy(t, events, i, doc, at) {
      assert (events + [e])[..i] == events[..i];
      assert GivenBy(t, events + [e], i, doc, at);
    }
  }

  lemma NowGiven(t: TTLs, events: seq<Event>, doc: Doc)
    requires Exec(t, Init(), events).flight == Asking
    ensures Given(t, events + [Respond(Gives(doc))], doc, Exec(t, Init(), events).now)
  {
    var all := events + [Respond(Gives(doc))];
    assert all[..|events|] == events;
    assert GivenBy(t, all, |events|, doc, Exec(t, Init(), events).now);
  }

  lemma SynthesisReports(c: Cached, r: Reads)
    ensures var made := Synthesized(c.versions, c.tags, r); made.Some? ==> Reports(made.value, c)
  {
  }

  lemma NowMadeUp(t: TTLs, events: seq<Event>, readable: bool, r: Reads)
    requires var s := Exec(t, Init(), events); s.flight.Responded? && s.flight.r.Bad?
    ensures var s := Exec(t, Init(), events); var made := Synthesized(s.cached.versions, s.cached.tags, r);
      made.Some? ==> MadeUp(t, events + [FallBack(readable, r)], made.value, s.now)
  {
    var s, all := Exec(t, Init(), events), events + [FallBack(readable, r)];
    var made := Synthesized(s.cached.versions, s.cached.tags, r);
    if made.Some? {
      SynthesisReports(s.cached, r);
      assert all[..|events|] == events;
      assert MadeUpBy(t, all, |events|, made.value, s.now);
    }
  }

  lemma CachesStay(t: TTLs, events: seq<Event>, e: Event, c: Cached, f: Flight)
    requires CachesTraced(t, events, c, f)
    ensures CachesTraced(t, events + [e], c, f)
  {
    if c.memo.Some? { StillTraced(t, events, e, c.memo.value.p); }
    if c.snapshot.Some? { StillGiven(t, events, e, c.snapshot.value.doc, c.snapshot.value.asked); }
    if f.Ended? && f.out.Ok? { StillTraced(t, events, e, f.out.p); }
    if f.Responded? && f.r.Gives? { StillGiven(t, events, e, f.r.doc, f.asked); }
  }

  lemma RequestStays(t: TTLs, events: seq<Event>, e: Event, r: Request)
    requires RequestTraced(t, events, r)
    ensures RequestTraced(t, events + [e], r)
  {
    if r.Putting? { StillTraced(t, events, e, r.p); }
    if r.Answered? && r.out.Ok? { StillTraced(t, events, e, r.out.p); }
  }

  lemma CachesStep(t: TTLs, events: seq<Event>, e: Event)
    requires TraceInv(t, events)
    ensures var s := Step(t, Exec(t, Init(), events), e); CachesTraced(t, events + [e], s.cached, s.flight)
  {
    var s := Exec(t, Init(), events);
    CachesStay(t, events, e, s.cached, s.flight);
    match e
    case Respond(r) => if s.flight.Asking? && r.Gives? { NowGiven(t, events, r.doc); }
    case FallBack(readable, reading) =>
      if s.flight.Responded? && s.flight.r.Bad? { NowMadeUp(t, events, readable, reading); }
    case Store(r) =>
      if r in s.requests && s.requests[r].Putting? {
        RequestStays(t, events, e, s.requests[r]);
      }
    case _ =>
  }

  lemma RequestsStep(t: TTLs, events: seq<Event>, e: Event)
    requires TraceInv(t, events)
    ensures var s := Step(t, Exec(t, Init(), events), e);
      forall r <- s.requests :: RequestTraced(t, events + [e], s.requests[r])
  {
    var s := Exec(t, Init(), events);
    var s' := Step(t, s, e);
    CachesStay(t, events, e, s.cached, s.flight);
    forall r <- s'.requests ensures RequestTraced(t, events + [e], s'.requests[r]) {
      if r in s.requests { RequestStays(t, events, e, s.requests[r]); }
    }
  }

  lemma {:induction false} TraceHolds(t: TTLs, events: seq<Event>)
    ensures TraceInv(t, events)
  {
    if events != [] {
      var before, e := events[..|events| - 1], events[|events| - 1];
      TraceHolds(t, before);
      CachesStep(t, before, e);
      RequestsStep(t, before, e);
      assert before + [e] == events;
    }
  }

  /** Every packument served was given by the upstream for this package at an earlier instant of the run, or
      made up by a fallback at an earlier instant, out of versions, times and tags stored then. */
  lemma ServedIsTraced(t: TTLs, events: seq<Event>, r: Id)
    requires var s := Exec(t, Init(), events); r in s.requests && s.requests[r].Answered? && s.requests[r].out.Ok?
    ensures var p := Exec(t, Init(), events).requests[r].out.p;
      if p.asked.Some? then Given(t, events, p.doc, p.asked.value) else p.fallback && MadeUp(t, events, p.doc, p.loaded)
  {
    TraceHolds(t, events);
    var s := Exec(t, Init(), events);
    assert RequestTraced(t, events, s.requests[r]);
  }

  // ---- What a 404 means ----

  /** When the last conclusive response recorded was recorded, if it was a 404. */
  function LastWord(t: TTLs, events: seq<Event>): Option<int>
  {
    if events == [] then None
    else
      var before := events[..|events| - 1];
      var s := Exec(t, Init(), before);
      if !events[|events| - 1].Record? || !s.flight.Responded? || s.flight.r.Bad? then LastWord(t, before)
      else if s.flight.r == Gone then Some(s.now)
      else None
  }

  ghost predicate AbsentOk(t: TTLs, s: State)
  {
    && (s.cached.neg.Some? ==> s.absent == Some(s.cached.neg.value - t.neg))
    && (s.flight.Ended? && s.flight.out.NotFound? ==> s.absent == Some(s.flight.out.recorded))
  }

  lemma {:induction false} AbsentHolds(t: TTLs, events: seq<Event>)
    ensures AbsentOk(t, Exec(t, Init(), events))
  {
    if events != [] {
      AbsentHolds(t, events[..|events| - 1]);
    }
  }

  lemma {:induction false} AbsentIsLastWord(t: TTLs, events: seq<Event>)
    ensures Exec(t, Init(), events).absent == LastWord(t, events)
  {
    if events != [] {
      var before := events[..|events| - 1];
      AbsentIsLastWord(t, before);
      assert Exec(t, Init(), events) == Step(t, Exec(t, Init(), before), events[|events| - 1]);
    }
  }

  /** A request is told the package does not exist only when the last conclusive response recorded was a 404;
      if it was told without a load, that 404 is younger than the negative TTL. */
  lemma AbsenceIsTheLastWord(t: TTLs, events: seq<Event>, e: Event, r: Id)
    requires var s, s' := Exec(t, Init(), events), Step(t, Exec(t, Init(), events), e);
      (r !in s.requests || !s.requests[r].Answered?) && r in s'.requests && s'.requests[r].Answered? &&
        s'.requests[r].out.NotFound?
    ensures var s' := Step(t, Exec(t, Init(), events), e);
      && LastWord(t, events + [e]) == Some(s'.requests[r].out.recorded)
      && (e.Begin? ==> s'.now - s'.requests[r].out.recorded < t.neg)
  {
    AbsentHolds(t, events);
    AbsentIsLastWord(t, events + [e]);
    assert (events + [e])[..|events + [e]| - 1] == events;
  }

  // ---- A fetch with nothing else running is a run ----

  /** The engine's sequential fetch is what the protocol does with one request at one instant. */
  lemma FetchIsARun(t: TTLs, s: State, r: Id, w: World) returns (events: seq<Event>)
    requires r !in s.requests && s.flight == NoFlight && forall q <- s.requests :: !s.requests[q].Waiting?
    ensures var s', f := Exec(t, s, events), Fetch(t, s.cached, s.now, w);
      && s'.now == s.now && s'.cached == f.0 && s'.flight == NoFlight
      && r in s'.requests && s'.requests[r] == Answered(f.1, s.now)
  {
    var s1 := Step(t, s, Begin(r));
    if !s1.requests[r].Missed? {
      events := [Begin(r)];
      Play(Steps(t), s, events, [s, s1]);
    } else {
      var s2 := Step(t, s1, Enter(r));
      var rest := LoadIsARun(t, s2, r, w);
      var s3 := Exec(t, s2, rest);
      Play(Steps(t), s, [Begin(r), Enter(r)], [s, s1, s2]);
      Concat(Steps(t), s, [Begin(r), Enter(r)], rest);
      events := [Begin(r), Enter(r)] + rest;
      FinishIsARun(t, s3, r);
      Concat(Steps(t), s, events, [Deliver, Store(r)]);
      events := events + [Deliver, Store(r)];
    }
  }

  lemma FinishIsARun(t: TTLs, s: State, r: Id)
    requires s.flight.Ended? && r in s.requests && s.requests[r].Waiting?
    ensures var s', out := Exec(t, s, [Deliver, Store(r)]), s.flight.out;
      && s'.now == s.now && s'.flight == NoFlight && r in s'.requests && s'.requests[r] == Answered(out, s.now)
      && s'.cached == if out.Ok? then s.cached.(memo := MemoPut(t, s.cached.memo, out.p, s.now)) else s.cached
  {
    var s1 := Step(t, s, Deliver);
    Play(Steps(t), s, [Deliver, Store(r)], [s, s1, Step(t, s1, Store(r))]);
  }

  lemma LoadIsARun(t: TTLs, s: State, r: Id, w: World) returns (events: seq<Event>)
    requires s.flight == Loading && r in s.requests && s.requests[r].Waiting?
    ensures var s', l := Exec(t, s, events), Load(t, s.cached, s.now, w);
      s'.now == s.now && s'.cached == l.0 && s'.flight == Ended(l.1) && s'.requests == s.requests
  {
    var s1 := Step(t, s, Check(w.readable));
    if s1.flight.Ended? {
      events := [Check(w.readable)];
      Play(Steps(t), s, events, [s, s1]);
    } else {
      var s2 := Step(t, s1, Respond(w.upstream));
      var e := if w.upstream.Bad? then FallBack(w.readableLater, w.reading) else Record(w.kept);
      events := [Check(w.readable), Respond(w.upstream), e];
      Play(Steps(t), s, events, [s, s1, s2, Step(t, s2, e)]);
    }
  }
}
