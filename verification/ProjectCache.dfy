/** The hosted PyPI project-page cache with its generation counter, and its protocol with uploads and page
    loads that run at the same time. */
module ProjectCache {
  import opened Runs
  import opened Text

  datatype File = File(version: string, name: string)
  datatype Entry = Entry(page: set<File>, expires: int)
  datatype Cache = Cache(generation: nat, m: map<string, Entry>)

  // ---- The three critical sections ----

  /** Under the lock at the start of a get: a live page, or the generation to load under. */
  function Begin(c: Cache, key: string, now: int): (Option<set<File>>, nat)
  {
    if key in c.m && now < c.m[key].expires then (Some(c.m[key].page), c.generation) else (None, c.generation)
  }

  /** Under the lock after a load: the page is kept only if no invalidation came in between. */
  function Finish(c: Cache, key: string, generation: nat, page: set<File>, now: int, ttl: int): Cache
  {
    if generation == c.generation then c.(m := c.m[key := Entry(page, now + ttl)]) else c
  }

  function Invalidate(c: Cache, key: string): Cache
  {
    Cache(c.generation + 1, c.m - {key})
  }

  class PageCache {
    const ttl: int
    var generation: nat
    var m: map<string, Entry>

    constructor (ttl: int)
      ensures this.ttl == ttl && State() == Cache(0, map[])
    {
      this.ttl, generation, m := ttl, 0, map[];
    }

    ghost function State(): Cache
      reads this
    {
      Cache(generation, m)
    }

    method BeginGet(key: string, now: int) returns (hit: Option<set<File>>, gen: nat)
      ensures (hit, gen) == Begin(State(), key, now)
    {
      gen := generation;
      if key in m && now < m[key].expires {
        return Some(m[key].page), gen;
      }
      hit := None;
    }

    method FinishGet(key: string, gen: nat, page: set<File>, now: int)
      modifies this
      ensures State() == Finish(old(State()), key, gen, page, now, ttl)
    {
      if gen == generation {
        m := m[key := Entry(page, now + ttl)];
      }
    }

    /** A get with nothing else running; page is what the load builds, None its failure, and later is when it
        is done. */
    method Get(key: string, now: int, page: Option<set<File>>, later: int) returns (r: Option<set<File>>)
      modifies this
      ensures var (hit, gen) := Begin(old(State()), key, now);
        if ttl <= 0 then r == page && State() == old(State())
        else if hit.Some? then r == hit && State() == old(State())
        else r == page && State() == if page.Some? then Finish(old(State()), key, gen, page.value, later, ttl)
          else old(State())
    {
      if ttl <= 0 {
        return page;
      }
      var hit, gen := BeginGet(key, now);
      if hit.Some? {
        return hit;
      }
      if page.Some? {
        FinishGet(key, gen, page.value, later);
      }
      r := page;
    }

    method InvalidateKey(key: string)
      modifies this
      ensures State() == if ttl <= 0 then old(State()) else Invalidate(old(State()), key)
    {
      if ttl <= 0 {
        return;
      }
      generation := generation + 1;
      m := m - {key};
    }
  }

  // ---- The protocol ----

  type Id = nat

  /** A request for a project page. Collecting walks the versions it listed, one listing of files at a time,
      while uploads go on. need holds what was published when the request started, atStart what was stored
      when its load began. */
  datatype Getter =
    | Idle
    | Listing(need: set<File>, gen: nat, atStart: set<File>)
    | Collecting(need: set<File>, gen: nat, atStart: set<File>, todo: set<string>, page: set<File>)
    | Inserting(need: set<File>, gen: nat, atStart: set<File>, page: set<File>)
    | Answered(need: set<File>, page: set<File>)
    | GetFailed(need: set<File>)

  datatype Uploader = NotStarted | Written | Published | UploadFailed

  /** stored and published map a project to its files, the latter to those whose upload has invalidated.
      born and purged are the generations at which a cached page's load began and a project was last
      invalidated. */
  datatype Repo = Repo(cache: Cache, stored: map<string, set<File>>, published: map<string, set<File>>,
                       born: map<string, nat>, purged: map<string, nat>)

  datatype State = State(now: int, repo: Repo, getters: map<Id, Getter>, uploads: map<Id, Uploader>)

  datatype Upload = Upload(project: string, file: File)

  datatype Config = Config(ttl: int, requests: map<Id, string>, uploads: map<Id, Upload>)

  datatype GetEvent = Get | ListVersions | ListFiles(version: string) | GetFails | Insert

  /** A failing write stores nothing, or stores the file and still fails. */
  datatype UploadEvent = Write | WriteFails(landed: bool) | Publish

  datatype Event = Tick(d: nat) | Serve(r: Id, get: GetEvent) | Receive(u: Id, put: UploadEvent)

  function Of(files: map<string, set<File>>, project: string): set<File>
  {
    if project in files then files[project] else {}
  }

  function Gen(gens: map<string, nat>, project: string): nat
  {
    if project in gens then gens[project] else 0
  }

  function VersionsOf(files: set<File>): set<string>
  {
    set f | f in files :: f.version
  }

  function FilesOf(files: set<File>, version: string): set<File>
  {
    set f | f in files && f.version == version
  }

  /** A request step by step: the lookup; the load, which lists the project's versions and then the files of
      each listed version, one listing at a time; and the answer. */
  function NextGetter(ttl: int, repo: Repo, now: int, project: string, g: Getter, e: GetEvent): Getter
  {
    match e
    case Get =>
      if !g.Idle? then g
      else
        var (hit, gen) := Begin(repo.cache, project, now);
        if ttl > 0 && hit.Some? then Answered(Of(repo.published, project), hit.value)
        else Listing(Of(repo.published, project), gen, Of(repo.stored, project))
    case ListVersions =>
      if g.Listing? then Collecting(g.need, g.gen, g.atStart, VersionsOf(Of(repo.stored, project)), {}) else g
    case ListFiles(v) =>
      if !g.Collecting? then g
      else if v in g.todo then g.(todo := g.todo - {v}, page := g.page + FilesOf(Of(repo.stored, project), v))
      else if g.todo == {} then Inserting(g.need, g.gen, g.atStart, g.page)
      else g
    case GetFails => if g.Listing? || g.Collecting? then GetFailed(g.need) else g
    case Insert => if g.Inserting? then Answered(g.need, g.page) else g
  }

  /** What answering after a load does to the cache. */
  function AfterLoad(ttl: int, repo: Repo, now: int, project: string, g: Getter, e: GetEvent): Repo
  {
    if e.Insert? && g.Inserting? && ttl > 0 then
      repo.(cache := Finish(repo.cache, project, g.gen, g.page, now, ttl),
            born := if g.gen == repo.cache.generation then repo.born[project := g.gen] else repo.born)
    else repo
  }

  /** An upload writes its file first, create-only, and invalidates afterwards. */
  function NextUploader(repo: Repo, up: Upload, state: Uploader, e: UploadEvent): Uploader
  {
    match e
    case Write =>
      if state != NotStarted then state else if up.file in Of(repo.stored, up.project) then UploadFailed else Written
    case WriteFails(_) => if state == NotStarted then UploadFailed else state
    case Publish => if state == Written then Published else state
  }

  function AfterUpload(ttl: int, repo: Repo, up: Upload, state: Uploader, e: UploadEvent): Repo
  {
    if (e == Write || e == WriteFails(true)) && state == NotStarted then
      repo.(stored := repo.stored[up.project := Of(repo.stored, up.project) + {up.file}])
    else if e == Publish && state == Written then
      Repo(if ttl <= 0 then repo.cache else Invalidate(repo.cache, up.project),
           repo.stored, repo.published[up.project := Of(repo.published, up.project) + {up.file}],
           repo.born, if ttl <= 0 then repo.purged else repo.purged[up.project := repo.cache.generation + 1])
    else repo
  }

  function Step(c: Config, s: State, e: Event): State
  {
    match e
    case Tick(d) => s.(now := s.now + d)
    case Serve(r, get) =>
      if r in c.requests && r in s.getters then
        s.(repo := AfterLoad(c.ttl, s.repo, s.now, c.requests[r], s.getters[r], get),
           getters := s.getters[r := NextGetter(c.ttl, s.repo, s.now, c.requests[r], s.getters[r], get)])
      else s
    case Receive(u, put) =>
      if u in c.uploads && u in s.uploads then
        s.(repo := AfterUpload(c.ttl, s.repo, c.uploads[u], s.uploads[u], put),
           uploads := s.uploads[u := NextUploader(s.repo, c.uploads[u], s.uploads[u], put)])
      else s
  }

  function Init(c: Config): State
  {
    State(0, Repo(Cache(0, map[]), map[], map[], map[], map[]),
          map r | r in c.requests :: Idle, map u | u in c.uploads :: NotStarted)
  }

  function Steps(c: Config): (State, Event) -> State
  {
    (s, e) => Step(c, s, e)
  }

  function Exec(c: Config, s: State, events: seq<Event>): State
  {
    Fold(Steps(c), s, events)
  }

  // ---- The invariant ----

  /** A load covers what was stored when it began, which is all that was published for it to show. */
  ghost predicate GetterOk(ttl: int, repo: Repo, project: string, g: Getter)
  {
    match g
    case Listing(need, gen, atStart) => LoadOk(ttl, repo, project, need, gen, atStart)
    case Collecting(need, gen, atStart, todo, page) =>
      LoadOk(ttl, repo, project, need, gen, atStart) && page <= Of(repo.stored, project) && Covered(atStart, todo, page)
    case Inserting(need, gen, atStart, page) =>
      LoadOk(ttl, repo, project, need, gen, atStart) && atStart <= page <= Of(repo.stored, project)
    case Answered(need, page) => need <= page <= Of(repo.stored, project)
    case _ => true
  }

  ghost predicate Covered(atStart: set<File>, todo: set<string>, page: set<File>)
  {
    forall f <- atStart :: f in page || f.version in todo
  }

  ghost predicate LoadOk(ttl: int, repo: Repo, project: string, need: set<File>, gen: nat, atStart: set<File>)
  {
    && need <= atStart <= Of(repo.stored, project)
    && gen <= repo.cache.generation
    && (ttl > 0 && gen == repo.cache.generation ==> Of(repo.published, project) <= atStart)
  }

  /** A cached page shows everything published, and its load began after the project's last invalidation. */
  ghost predicate ProjectOk(ttl: int, repo: Repo, k: string)
  {
    && Of(repo.published, k) <= Of(repo.stored, k)
    && Gen(repo.purged, k) <= repo.cache.generation
    && (k in repo.cache.m ==>
      && ttl > 0 && k in repo.born && Gen(repo.purged, k) <= repo.born[k]
      && Of(repo.published, k) <= repo.cache.m[k].page <= Of(repo.stored, k))
  }

  ghost predicate UploadOk(repo: Repo, up: Upload, state: Uploader)
  {
    && (state.Written? || state.Published? ==> up.file in Of(repo.stored, up.project))
    && (state.Published? ==> up.file in Of(repo.published, up.project))
  }

  ghost predicate ProjectsOk(c: Config, s: State)
  {
    forall k :: ProjectOk(c.ttl, s.repo, k)
  }

  ghost predicate UploadsOk(c: Config, s: State)
  {
    s.uploads.Keys == c.uploads.Keys && forall u <- c.uploads :: UploadOk(s.repo, c.uploads[u], s.uploads[u])
  }

  ghost predicate GettersOk(c: Config, s: State)
  {
    s.getters.Keys == c.requests.Keys && forall r <- c.requests :: GetterOk(c.ttl, s.repo, c.requests[r], s.getters[r])
  }

  ghost predicate Inv(c: Config, s: State)
  {
    ProjectsOk(c, s) && UploadsOk(c, s) && GettersOk(c, s)
  }

  /** Only files, stored, published and cached pages matter to a request that does not move, and they only
      grow; what is published grows with a new generation. */
  ghost predicate Grows(ttl: int, repo: Repo, repo': Repo)
  {
    && (forall k :: Of(repo.stored, k) <= Of(repo'.stored, k))
    && (forall k :: Of(repo.published, k) <= Of(repo'.published, k))
    && repo.cache.generation <= repo'.cache.generation
    && (repo.cache.generation == repo'.cache.generation && ttl > 0 ==> repo.published == repo'.published)
  }

  lemma RequestKeepsInv(c: Config, s: State, r: Id, e: GetEvent)
    requires Inv(c, s) && r in c.requests && r in s.getters
    ensures Inv(c, Step(c, s, Serve(r, e)))
  {
    var s', project, g := Step(c, s, Serve(r, e)), c.requests[r], s.getters[r];
    assert GetterOk(c.ttl, s.repo, project, g);
    assert ProjectOk(c.ttl, s.repo, project);
    assert Grows(c.ttl, s.repo, s'.repo);
    forall k ensures ProjectOk(c.ttl, s'.repo, k) {
      assert ProjectOk(c.ttl, s.repo, k);
    }
  }

  lemma UploadKeepsInv(c: Config, s: State, u: Id, e: UploadEvent)
    requires Inv(c, s) && u in c.uploads && u in s.uploads
    ensures Inv(c, Step(c, s, Receive(u, e)))
  {
    var s', up, state := Step(c, s, Receive(u, e)), c.uploads[u], s.uploads[u];
    assert UploadOk(s.repo, up, state);
    forall k ensures ProjectOk(c.ttl, s'.repo, k) {
      assert ProjectOk(c.ttl, s.repo, k);
    }
  }

  lemma StepKeepsInv(c: Config, s: State, e: Event)
    requires Inv(c, s)
    ensures Inv(c, Step(c, s, e))
  {
    match e
    case Tick(_) =>
    case Serve(r, get) => if r in c.requests { RequestKeepsInv(c, s, r, get); }
    case Receive(u, put) => if u in c.uploads { UploadKeepsInv(c, s, u, put); }
  }

  lemma {:induction false} ExecKeepsInv(c: Config, events: seq<Event>)
    ensures Inv(c, Exec(c, Init(c), events))
  {
    if events != [] {
      ExecKeepsInv(c, events[..|events| - 1]);
      StepKeepsInv(c, Exec(c, Init(c), events[..|events| - 1]), events[|events| - 1]);
    }
  }

  // ---- What every run guarantees ----

  /** A cached page always comes from a load that began after the project's last invalidation, shows every
      published file and nothing that is not stored. */
  lemma CachedPagesAreCurrent(c: Config, events: seq<Event>, project: string)
    requires project in Exec(c, Init(c), events).repo.cache.m
    ensures var repo := Exec(c, Init(c), events).repo;
      && project in repo.born && Gen(repo.purged, project) <= repo.born[project]
      && Of(repo.published, project) <= repo.cache.m[project].page <= Of(repo.stored, project)
  {
    ExecKeepsInv(c, events);
    assert ProjectOk(c.ttl, Exec(c, Init(c), events).repo, project);
  }

  ghost predicate Started(s: State, r: Id, need: set<File>)
  {
    r in s.getters && !s.getters[r].Idle? && s.getters[r].need == need
  }

  lemma {:induction false} NeedStays(c: Config, s: State, after: seq<Event>, r: Id, need: set<File>)
    requires Started(s, r, need)
    ensures Started(Exec(c, s, after), r, need)
  {
    if after != [] {
      NeedStays(c, s, after[..|after| - 1], r, need);
    }
  }

  /** Read your uploads: a request that starts when an upload of its project has already invalidated is
      answered, whenever it is answered and whatever else was in flight, with a page that lists the file. */
  lemma ReadYourUploads(c: Config, before: seq<Event>, after: seq<Event>, u: Id, r: Id)
    requires u in c.uploads && r in c.requests && c.uploads[u].project == c.requests[r]
    requires var s := Exec(c, Init(c), before);
      u in s.uploads && s.uploads[u].Published? && r in s.getters && s.getters[r].Idle?
    ensures var s := Exec(c, Init(c), before + [Serve(r, Get)] + after);
      r in s.getters && (s.getters[r].Answered? ==> c.uploads[u].file in s.getters[r].page)
  {
    var started := before + [Serve(r, Get)];
    var s0, s1 := Exec(c, Init(c), before), Exec(c, Init(c), started);
    ExecKeepsInv(c, before);
    assert UploadOk(s0.repo, c.uploads[u], s0.uploads[u]);
    assert started[..|started| - 1] == before;
    assert s1 == Step(c, s0, Serve(r, Get));
    var need := Of(s0.repo.published, c.requests[r]);
    Concat(Steps(c), Init(c), started, after);
    NeedStays(c, s1, after, r, need);
    AnswersNeed(c, started + after, r);
  }

  /** An answer lists everything published when its request started, and nothing that is not stored. */
  lemma AnswersNeed(c: Config, events: seq<Event>, r: Id)
    requires r in c.requests
    ensures var s := Exec(c, Init(c), events);
      && r in s.getters
      && (s.getters[r].Answered? ==> s.getters[r].need <= s.getters[r].page <= Of(s.repo.stored, c.requests[r]))
  {
    ExecKeepsInv(c, events);
    var s := Exec(c, Init(c), events);
    assert GetterOk(c.ttl, s.repo, c.requests[r], s.getters[r]);
  }
}
