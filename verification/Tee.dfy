/** The pull-through cold fill: one thread copies an upstream body to the client and tees it into a pipe,
    another reads the pipe and runs the blob write protocol. The two are composed with any number of other
    writers and readers of the same key. */
module Tee {
  import opened Runs
  import opened Text
  import opened BlobWrite

  /** What an upstream read reports beside its bytes. */
  datatype End = More | Eof | Broken

  /** The serving thread. Teeing holds a chunk of which off bytes have gone through the pipe, Sending one
      that is on its way to the client; err says whether the copy failed. */
  datatype Main =
    | Reading
    | Teeing(chunk: Str, off: nat, end: End)
    | Sending(chunk: Str, end: End)
    | Closing(err: bool)
    | Waiting(err: bool)
    | Returned(err: bool, fillErr: bool)

  /** taken counts upstream bytes read; client is what the client received; swallow is the tee's failed
      flag; writeEnd is set when the pipe's write end closes (true: with an error), readClosed when its
      read end does; reported when the fill's result is in the channel; faulted records that the
      upstream or the client failed. */
  datatype Flow = Flow(main: Main, taken: nat, client: Str, swallow: bool, writeEnd: Option<bool>,
                         readClosed: bool, reported: bool, faulted: bool, store: State)

  datatype TeeEvent =
    | Upstream(n: nat, end: End)
    | PipeRead(k: nat)
    | PipeEnd
    | TeeDone
    | ClientTakes(all: bool, some: nat)
    | CloseWriter
    | FillReturns
    | FillReports
    | Receive
    | Store(e: Event)

  function Start(store: State): Flow
  {
    Flow(Reading, 0, [], false, None, false, false, false, store)
  }

  /** The steps writer f takes by itself; while it streams, its reads are the pipe's business. */
  predicate ByItself(s: State, f: Id, e: Event)
  {
    e.Write? && e.w == f && f in s.writers && s.writers[f].Stream? ==> e.act == Fail
  }

  function Step(c: Config, f: Id, t: Flow, e: TeeEvent): Flow
    requires f in c.jobs
  {
    var body := c.jobs[f].body;
    match e
    case Upstream(n, end) =>
      if !t.main.Reading? || t.taken + n > |body| then t
      else if (end == More && n == 0) || (end == Eof && t.taken + n < |body|) then t
      else
        var chunk := body[t.taken..t.taken + n];
        t.(taken := t.taken + n, faulted := t.faulted || end == Broken,
           main := if n == 0 then Closing(end == Broken)
                   else if t.swallow then Sending(chunk, end) else Teeing(chunk, 0, end))
    case PipeRead(k) =>
      if t.main.Teeing? && 0 < k && t.main.off + k <= |t.main.chunk| && Streaming(t, f) && !t.readClosed then
        t.(main := t.main.(off := t.main.off + k),
           store := Goto(t.store, f, Stream(t.store.writers[f].sent + t.main.chunk[t.main.off..t.main.off + k])))
      else t
    case PipeEnd =>
      if t.writeEnd.Some? && Streaming(t, f) then
        var sent := t.store.writers[f].sent;
        t.(store := Goto(t.store, f, if t.writeEnd.value then Finished(Failed) else Verify(sent)))
      else t
    case TeeDone =>
      if t.main.Teeing? && (t.readClosed || t.main.off >= |t.main.chunk|) then
        t.(main := Sending(t.main.chunk, t.main.end), swallow := t.swallow || t.main.off < |t.main.chunk|)
      else t
    case ClientTakes(all, some) =>
      if !t.main.Sending? then t
      else if all then
        t.(client := t.client + t.main.chunk,
           main := if t.main.end == More then Reading else Closing(t.main.end == Broken))
      else if some <= |t.main.chunk| then
        t.(client := t.client + t.main.chunk[..some], faulted := true, main := Closing(true))
      else t
    case CloseWriter =>
      if t.main.Closing? then t.(main := Waiting(t.main.err), writeEnd := Some(t.main.err)) else t
    case FillReturns =>
      if f in t.store.writers && t.store.writers[f].Finished? && !t.readClosed then t.(readClosed := true) else t
    case FillReports => if t.readClosed && !t.reported then t.(reported := true) else t
    case Receive =>
      if t.main.Waiting? && t.reported && f in t.store.writers && t.store.writers[f].Finished? then
        t.(main := Returned(t.main.err, !t.store.writers[f].result.Success?))
      else t
    case Store(e) => if ByItself(t.store, f, e) then t.(store := BlobWrite.Step(c, t.store, e)) else t
  }

  predicate Streaming(t: Flow, f: Id)
  {
    f in t.store.writers && t.store.writers[f].Stream?
  }

  function Run(c: Config, f: Id, t: Flow, events: seq<TeeEvent>): Flow
    requires f in c.jobs
  {
    if events == [] then t else Step(c, f, Run(c, f, t, events[..|events| - 1]), events[|events| - 1])
  }

  // ---- The invariant ----

  /** The client holds exactly the upstream bytes taken, short of the chunk in hand. */
  ghost predicate ClientOk(body: Str, t: Flow)
  {
    && t.taken <= |body|
    && match t.main
       case Reading => t.client == body[..t.taken] && !t.faulted
       case Teeing(chunk, off, end) =>
         t.client + chunk == body[..t.taken] && chunk != [] && off <= |chunk| && EndOk(body, t, end)
       case Sending(chunk, end) => t.client + chunk == body[..t.taken] && EndOk(body, t, end)
       case Closing(err) => t.client <= body && (!err ==> t.client == body && t.taken == |body|) && (err <==> t.faulted)
       case Waiting(err) => t.client <= body && (!err ==> t.client == body && t.taken == |body|) && (err <==> t.faulted)
       case Returned(err, _) =>
         t.client <= body && (!err ==> t.client == body && t.taken == |body|) && (err <==> t.faulted)
  }

  ghost predicate EndOk(body: Str, t: Flow, end: End)
  {
    (end == Eof ==> t.taken == |body|) && (t.faulted <==> end == Broken)
  }

  /** The upstream bytes that have gone through the pipe while the fill still reads. */
  function Piped(body: Str, t: Flow): Str
    requires t.taken <= |body| && (t.main.Teeing? ==> t.main.off <= |t.main.chunk| <= t.taken)
  {
    if t.main.Teeing? then body[..t.taken - (|t.main.chunk| - t.main.off)] else body[..t.taken]
  }

  /** The fill has read exactly what went through the pipe, and goes past reading only on a clean end. */
  ghost predicate FillOk(body: Str, t: Flow, f: Id)
    requires ClientOk(body, t)
  {
    && f in t.store.writers
    && (t.writeEnd == match t.main case Waiting(err) => Some(err) case Returned(err, _) => Some(err) case _ => None)
    && (t.swallow ==> t.readClosed)
    && (t.readClosed ==> t.store.writers[f].Finished?)
    && (t.reported ==> t.readClosed)
    && (t.main.Returned? ==>
       t.reported && t.store.writers[f].Finished? && t.main.fillErr == !t.store.writers[f].result.Success?)
    && (f in t.store.commits ==> t.writeEnd == Some(false))
    && match t.store.writers[f]
       case Probe => Piped(body, t) == []
       case Open => Piped(body, t) == []
       case Stream(sent) => sent == Piped(body, t)
       case Finished(_) => true
       case _ => t.writeEnd == Some(false)
  }

  ghost predicate TeeInv(c: Config, f: Id, t: Flow)
  {
    && f in c.jobs
    && Inv(c, t.store)
    && ClientOk(c.jobs[f].body, t)
    && (t.main.Teeing? ==> !t.swallow)
    && FillOk(c.jobs[f].body, t, f)
  }

  lemma UpstreamKeepsInv(c: Config, f: Id, t: Flow, n: nat, end: End)
    requires TeeInv(c, f, t)
    ensures TeeInv(c, f, Step(c, f, t, Upstream(n, end)))
  {
    var body := c.jobs[f].body;
    if t.main.Reading? && t.taken + n <= |body| {
      assert body[..t.taken] + body[t.taken..t.taken + n] == body[..t.taken + n];
      assert body[..|body|] == body;
    }
  }

  lemma ClientTakesKeepsInv(c: Config, f: Id, t: Flow, all: bool, some: nat)
    requires TeeInv(c, f, t)
    ensures TeeInv(c, f, Step(c, f, t, ClientTakes(all, some)))
  {
    var body := c.jobs[f].body;
    if t.main.Sending? {
      assert body[..|body|] == body;
      assert t.client + t.main.chunk <= body;
    }
  }

  lemma ServerStepKeepsInv(c: Config, f: Id, t: Flow, e: TeeEvent)
    requires TeeInv(c, f, t) && (e.TeeDone? || e.CloseWriter?)
    ensures TeeInv(c, f, Step(c, f, t, e))
  {
  }

  // ---- The composition is a run of the write protocol ----

  /** The write protocol's view of one composed step. */
  function Project(f: Id, t: Flow, e: TeeEvent): seq<Event>
  {
    match e
    case PipeRead(k) =>
      if t.main.Teeing? && 0 < k && t.main.off + k <= |t.main.chunk| && Streaming(t, f) && !t.readClosed
      then [Write(f, Read(k))] else []
    case PipeEnd =>
      if t.writeEnd.Some? && Streaming(t, f) then [Write(f, if t.writeEnd.value then Fail else Proceed)] else []
    case Store(e) => if ByItself(t.store, f, e) then [e] else []
    case _ => []
  }

  lemma ExecOne(c: Config, s: State, e: Event)
    ensures Exec(c, s, [e]) == BlobWrite.Step(c, s, e)
  {
    assert [e][..0] == [];
    assert Exec(c, s, []) == s;
  }

  lemma ChunkSlice(body: Str, client: Str, chunk: Str, taken: nat, off: nat, k: nat)
    requires taken <= |body| && client + chunk == body[..taken] && off + k <= |chunk|
    ensures body[..taken - (|chunk| - off)] + chunk[off..off + k] == body[..taken - (|chunk| - (off + k))]
  {
    assert chunk == body[taken - |chunk|..taken] by {
      assert (client + chunk)[|client|..] == chunk;
    }
  }

  lemma StepProjects(c: Config, f: Id, t: Flow, e: TeeEvent)
    requires TeeInv(c, f, t)
    ensures Step(c, f, t, e).store == Exec(c, t.store, Project(f, t, e))
  {
    var p := Project(f, t, e);
    if p != [] { ExecOne(c, t.store, p[0]); }
    match e
    case PipeRead(k) => if p != [] { ChunkSlice(c.jobs[f].body, t.client, t.main.chunk, t.taken, t.main.off, k); }
    case _ =>
  }

  lemma FillStepKeepsInv(c: Config, f: Id, t: Flow, e: TeeEvent)
    requires TeeInv(c, f, t) && (e.PipeRead? || e.PipeEnd? || e.FillReturns? || e.FillReports? || e.Receive?)
    ensures TeeInv(c, f, Step(c, f, t, e))
  {
    var t' := Step(c, f, t, e);
    var p := Project(f, t, e);
    StepProjects(c, f, t, e);
    if p != [] {
      ExecOne(c, t.store, p[0]);
      StepKeepsInv(c, t.store, p[0]);
    }
    assert Inv(c, t'.store);
    match e
    case PipeRead(k) =>
      if p != [] {
        ChunkSlice(c.jobs[f].body, t.client, t.main.chunk, t.taken, t.main.off, k);
        assert t'.store.writers[f].sent == Piped(c.jobs[f].body, t');
      }
    case _ =>
  }

  /** What a protocol step can do to the filling writer: nothing if it is another's step. */
  lemma OthersLeaveFill(c: Config, s: State, f: Id, e: Event)
    requires Inv(c, s) && f in c.jobs && !(e.Write? && e.w == f)
    ensures var s' := BlobWrite.Step(c, s, e);
      f in s'.writers && s'.writers[f] == s.writers[f] && (f in s'.commits <==> f in s.commits)
  {
    match e
    case Write(w, act) => if w in s.writers && s.writers[w].Close? { }
    case _ =>
  }

  lemma OwnStep(c: Config, s: State, f: Id, act: Action)
    requires Inv(c, s) && f in c.jobs && !(s.writers[f].Stream? && act != Fail)
    ensures var s' := StepWriter(c, s, f, act);
      && f in s'.writers
      && (f in s'.commits && f !in s.commits ==> s.writers[f].Close?)
      && (s.writers[f].Finished? ==> s'.writers[f] == s.writers[f])
      && match s'.writers[f]
         case Probe => s.writers[f].Probe?
         case Open => s.writers[f].Probe? || s.writers[f].Open?
         case Stream(sent) => s.writers[f].Open? && sent == []
         case Finished(_) => true
         case _ => s.writers[f].Verify? || s.writers[f].Close? || s.writers[f].WriteSidecar?
  {
    match s.writers[f]
    case Close(_) =>
    case _ =>
  }

  lemma StoreStepKeepsInv(c: Config, f: Id, t: Flow, e: Event)
    requires TeeInv(c, f, t)
    ensures TeeInv(c, f, Step(c, f, t, Store(e)))
  {
    var t' := Step(c, f, t, Store(e));
    if ByItself(t.store, f, e) {
      StepKeepsInv(c, t.store, e);
      if e.Write? && e.w == f {
        OwnStep(c, t.store, f, e.act);
      } else {
        OthersLeaveFill(c, t.store, f, e);
      }
    }
  }

  lemma TeeStepKeepsInv(c: Config, f: Id, t: Flow, e: TeeEvent)
    requires TeeInv(c, f, t)
    ensures TeeInv(c, f, Step(c, f, t, e))
  {
    match e
    case Store(e) => StoreStepKeepsInv(c, f, t, e);
    case Upstream(n, end) => UpstreamKeepsInv(c, f, t, n, end);
    case TeeDone => ServerStepKeepsInv(c, f, t, e);
    case ClientTakes(all, some) => ClientTakesKeepsInv(c, f, t, all, some);
    case CloseWriter => ServerStepKeepsInv(c, f, t, e);
    case _ => FillStepKeepsInv(c, f, t, e);
  }

  /** Every composed run keeps the invariant, and its store part is a run of the write protocol. */
  lemma {:induction false} RunIsAProtocolRun(c: Config, f: Id, readers: set<Id>, events: seq<TeeEvent>)
    returns (protocol: seq<Event>)
    requires f in c.jobs
    ensures var t := Run(c, f, Start(Init(c, readers)), events);
      TeeInv(c, f, t) && t.store == Exec(c, Init(c, readers), protocol)
  {
    if events == [] {
      protocol := [];
    } else {
      var before := Run(c, f, Start(Init(c, readers)), events[..|events| - 1]);
      var e := events[|events| - 1];
      protocol := RunIsAProtocolRun(c, f, readers, events[..|events| - 1]);
      StepProjects(c, f, before, e);
      Concat(Steps(c), Init(c, readers), protocol, Project(f, before, e));
      protocol := protocol + Project(f, before, e);
      TeeStepKeepsInv(c, f, before, e);
    }
  }

  // ---- What is cached is what was delivered ----

  lemma CommitMeansDelivered(c: Config, f: Id, readers: set<Id>, events: seq<TeeEvent>) returns (protocol: seq<Event>)
    requires f in c.jobs
    ensures var t := Run(c, f, Start(Init(c, readers)), events);
      && t.store == Exec(c, Init(c, readers), protocol)
      && (f in t.store.commits ==>
            && (t.main == Waiting(false) || (t.main.Returned? && !t.main.err))
            && !t.faulted && t.client == c.jobs[f].body && Capable(c, f))
  {
    protocol := RunIsAProtocolRun(c, f, readers, events);
  }

  lemma OnlyCommitter(c: Config, readers: set<Id>, protocol: seq<Event>, f: Id)
    requires CreateOnly(c) && f in c.jobs
    ensures var s := Exec(c, Init(c, readers), protocol);
      f in s.commits ==> s.commits == [f] && s.blob == Some(c.jobs[f].body)
  {
    var s := Exec(c, Init(c, readers), protocol);
    CreateOnlyHasOneWinner(c, readers, protocol);
    if f in s.commits { assert s.commits[0] == f; }
  }

  /** Once the fill has committed, the client has received the whole upstream body without error, and on a
      create-only key the stored bytes are that same body, for good. */
  lemma CachedIsWhatWasDelivered(c: Config, f: Id, readers: set<Id>, events: seq<TeeEvent>)
    requires f in c.jobs
    ensures var t := Run(c, f, Start(Init(c, readers)), events);
      f in t.store.commits ==>
        && (t.main == Waiting(false) || (t.main.Returned? && !t.main.err))
        && !t.faulted && t.client == c.jobs[f].body && Capable(c, f)
        && (CreateOnly(c) ==> t.store.commits == [f] && t.store.blob == Some(t.client))
  {
    var t := Run(c, f, Start(Init(c, readers)), events);
    var protocol := CommitMeansDelivered(c, f, readers, events);
    if f in t.store.commits && CreateOnly(c) {
      OnlyCommitter(c, readers, protocol, f);
    }
  }

  /** The client only ever sees a prefix of the upstream body; the copy ends in error exactly when the
      upstream or the client failed, whatever the fill did, and otherwise the client has all of it. */
  lemma ClientIsUnaffectedByFill(c: Config, f: Id, readers: set<Id>, events: seq<TeeEvent>)
    requires f in c.jobs
    ensures var t := Run(c, f, Start(Init(c, readers)), events);
      && t.client <= c.jobs[f].body
      && (t.main.Returned? ==> (t.main.err <==> t.faulted) && (!t.main.err ==> t.client == c.jobs[f].body))
  {
    var protocol := RunIsAProtocolRun(c, f, readers, events);
    var t, body := Run(c, f, Start(Init(c, readers)), events), c.jobs[f].body;
    if t.main.Teeing? || t.main.Sending? {
      assert t.client <= t.client + t.main.chunk <= body;
    }
  }

  /** A success reported by the call means the whole body was delivered and stored with its record. */
  lemma CleanReturnMeansCached(c: Config, f: Id, readers: set<Id>, events: seq<TeeEvent>)
    requires f in c.jobs && CreateOnly(c)
    ensures var t := Run(c, f, Start(Init(c, readers)), events);
      t.main == Returned(false, false) ==> t.store.blob == Some(t.client) && t.client == c.jobs[f].body
  {
    var protocol := RunIsAProtocolRun(c, f, readers, events);
    CreateOnlyHasOneWinner(c, readers, protocol);
  }

  // ---- Deadlock freedom and termination ----

  /** A step of this call's own two threads, as opposed to the store's other users. */
  predicate Own(f: Id, e: TeeEvent)
  {
    e.Store? ==> e.e.Write? && e.e.w == f
  }

  /** A step that needs nothing to go wrong and that is enabled in every unfinished state. */
  function NextStep(c: Config, f: Id, t: Flow): TeeEvent
    requires f in c.jobs && f in t.store.writers && t.taken <= |c.jobs[f].body|
  {
    var fill := match t.store.writers[f]
                case Stream(_) => PipeEnd
                case Finished(_) => if !t.readClosed then FillReturns else if !t.reported then FillReports else Receive
                case _ => Store(Write(f, Proceed));
    match t.main
    case Reading => Upstream(|c.jobs[f].body| - t.taken, Eof)
    case Teeing(chunk, off, _) =>
      if t.readClosed || off >= |chunk| then TeeDone
      else if Streaming(t, f) then PipeRead(|chunk| - off) else fill
    case Sending(_, _) => ClientTakes(true, 0)
    case Closing(_) => CloseWriter
    case Waiting(_) => fill
    case Returned(_, _) => Receive
  }

  /** Until the call returns, one of its own threads can move without any failure. */
  lemma NeverDeadlocks(c: Config, f: Id, readers: set<Id>, events: seq<TeeEvent>)
    requires f in c.jobs
    requires !Run(c, f, Start(Init(c, readers)), events).main.Returned?
    ensures var t := Run(c, f, Start(Init(c, readers)), events);
      && f in t.store.writers && t.taken <= |c.jobs[f].body|
      && Own(f, NextStep(c, f, t)) && Step(c, f, t, NextStep(c, f, t)) != t
  {
    var protocol := RunIsAProtocolRun(c, f, readers, events);
    NextStepMoves(c, f, Run(c, f, Start(Init(c, readers)), events));
  }

  lemma NextStepMoves(c: Config, f: Id, t: Flow)
    requires TeeInv(c, f, t) && !t.main.Returned?
    ensures Step(c, f, t, NextStep(c, f, t)) != t
  {
    match NextStep(c, f, t)
    case Store(e) => ProceedMoves(c, t.store, f);
    case PipeEnd => FillMoves(c, f, t, PipeEnd);
    case PipeRead(k) =>
    case _ =>
  }

  lemma FillMoves(c: Config, f: Id, t: Flow, e: TeeEvent)
    requires TeeInv(c, f, t) && e.PipeEnd? && t.writeEnd.Some? && Streaming(t, f)
    ensures Step(c, f, t, e).store.writers[f] != t.store.writers[f]
  {
  }

  lemma ProceedMoves(c: Config, s: State, f: Id)
    requires f in c.jobs && f in s.writers && !s.writers[f].Stream? && !s.writers[f].Finished?
    ensures BlobWrite.Step(c, s, Write(f, Proceed)).writers[f] != s.writers[f]
  {
  }

  function FillWork(body: Str, pc: Pc): nat
  {
    match pc
    case Probe => |body| + 6
    case Open => |body| + 5
    case Stream(sent) => if |sent| <= |body| then |body| - |sent| + 4 else 0
    case Verify(_) => 3
    case Close(_) => 2
    case WriteSidecar(_) => 1
    case Finished(_) => 0
  }

  /** Remaining upstream bytes weigh four steps each; the two threads' own states make up the rest. */
  function Work(c: Config, f: Id, t: Flow): int
    requires f in c.jobs && f in t.store.writers
  {
    var body := c.jobs[f].body;
    4 * (|body| - t.taken)
    + (match t.main
       case Reading => 4
       case Teeing(_, _, _) => 7
       case Sending(_, _) => 6
       case Closing(_) => 3
       case Waiting(_) => 2
       case Returned(_, _) => 0)
    + FillWork(body, t.store.writers[f])
    + (if t.readClosed then 0 else 1) + (if t.reported then 0 else 1)
  }

  lemma FillWorkDrops(c: Config, s: State, f: Id, act: Action)
    requires Inv(c, s) && f in c.jobs
    ensures var s' := StepWriter(c, s, f, act);
      f in s'.writers && (s' != s ==> FillWork(c.jobs[f].body, s'.writers[f]) < FillWork(c.jobs[f].body, s.writers[f]))
  {
    match s.writers[f]
    case Close(_) =>
    case _ =>
  }

  ghost predicate UsesWork(c: Config, f: Id, t: Flow, e: TeeEvent)
    requires f in c.jobs && f in t.store.writers
  {
    var t' := Step(c, f, t, e);
    f in t'.store.writers && Work(c, f, t') <= Work(c, f, t) &&
      (Own(f, e) && t' != t ==> Work(c, f, t') < Work(c, f, t))
  }

  lemma ServerStepUsesWork(c: Config, f: Id, t: Flow, e: TeeEvent)
    requires f in c.jobs && f in t.store.writers
    requires !e.Store? && !e.PipeRead? && !e.PipeEnd? && !e.Upstream? && !e.ClientTakes?
    ensures UsesWork(c, f, t, e)
  {
  }

  lemma CopyStepUsesWork(c: Config, f: Id, t: Flow, e: TeeEvent)
    requires f in c.jobs && f in t.store.writers && (e.Upstream? || e.ClientTakes?)
    ensures UsesWork(c, f, t, e)
  {
    match e
    case Upstream(n, end) =>
    case ClientTakes(_, _) =>
  }

  lemma PipeStepUsesWork(c: Config, f: Id, t: Flow, e: TeeEvent)
    requires TeeInv(c, f, t) && (e.PipeRead? || e.PipeEnd?)
    ensures UsesWork(c, f, t, e)
  {
    var t' := Step(c, f, t, e);
    if t' != t {
      StepProjects(c, f, t, e);
      ExecOne(c, t.store, Project(f, t, e)[0]);
      FillWorkDrops(c, t.store, f, Project(f, t, e)[0].act);
      assert t'.store.writers[f] != t.store.writers[f];
    }
  }

  lemma StoreFillWork(c: Config, s: State, f: Id, e: Event)
    requires Inv(c, s) && f in c.jobs
    ensures var s', body := BlobWrite.Step(c, s, e), c.jobs[f].body;
      && f in s'.writers && FillWork(body, s'.writers[f]) <= FillWork(body, s.writers[f])
      && (e.Write? && e.w == f && s' != s ==> FillWork(body, s'.writers[f]) < FillWork(body, s.writers[f]))
  {
    if e.Write? && e.w == f {
      FillWorkDrops(c, s, f, e.act);
    } else {
      OthersLeaveFill(c, s, f, e);
    }
  }

  lemma WorkOfStore(c: Config, f: Id, t: Flow, s': State)
    requires f in c.jobs && f in t.store.writers && f in s'.writers
    ensures Work(c, f, t.(store := s')) - Work(c, f, t) ==
            FillWork(c.jobs[f].body, s'.writers[f]) - FillWork(c.jobs[f].body, t.store.writers[f])
  {
  }

  lemma StoreStepUsesWork(c: Config, f: Id, t: Flow, e: Event)
    requires Inv(c, t.store) && f in c.jobs
    ensures UsesWork(c, f, t, Store(e))
  {
    var s' := BlobWrite.Step(c, t.store, e);
    StoreFillWork(c, t.store, f, e);
    WorkOfStore(c, f, t, s');
    assert Step(c, f, t, Store(e)) == if ByItself(t.store, f, e) then t.(store := s') else t;
    assert s' == t.store ==> t.(store := s') == t;
  }

  /** Every step of the call's own threads that does anything uses up work, and nobody else adds any. */
  lemma StepUsesWork(c: Config, f: Id, t: Flow, e: TeeEvent)
    requires TeeInv(c, f, t)
    ensures UsesWork(c, f, t, e) && 0 <= Work(c, f, Step(c, f, t, e))
  {
    TeeStepKeepsInv(c, f, t, e);
    match e
    case Store(w) => StoreStepUsesWork(c, f, t, w);
    case PipeRead(_) => PipeStepUsesWork(c, f, t, e);
    case PipeEnd => PipeStepUsesWork(c, f, t, e);
    case Upstream(_, _) => CopyStepUsesWork(c, f, t, e);
    case ClientTakes(_, _) => CopyStepUsesWork(c, f, t, e);
    case _ => ServerStepUsesWork(c, f, t, e);
  }

  /** How many of the events are own steps that did something. */
  function Moves(c: Config, f: Id, t: Flow, events: seq<TeeEvent>): nat
    requires f in c.jobs
  {
    if events == [] then 0
    else
      var before := Run(c, f, t, events[..|events| - 1]);
      var e := events[|events| - 1];
      Moves(c, f, t, events[..|events| - 1]) + if Own(f, e) && Step(c, f, before, e) != before then 1 else 0
  }

  /** Termination: in any run, however the other writers and readers are scheduled, the call's own threads
      take at most a bounded number of steps; by NeverDeadlocks they stop only when the call has returned. */
  lemma {:induction false} OwnStepsAreBounded(c: Config, f: Id, readers: set<Id>, events: seq<TeeEvent>)
    requires f in c.jobs
    ensures Moves(c, f, Start(Init(c, readers)), events) <= 5 * |c.jobs[f].body| + 12
    ensures var t := Run(c, f, Start(Init(c, readers)), events);
      f in t.store.writers && Moves(c, f, Start(Init(c, readers)), events) <= 5 * |c.jobs[f].body| + 12 - Work(c, f, t)
  {
    var t0 := Start(Init(c, readers));
    if events != [] {
      var before := events[..|events| - 1];
      var protocol := RunIsAProtocolRun(c, f, readers, before);
      OwnStepsAreBounded(c, f, readers, before);
      StepUsesWork(c, f, Run(c, f, t0, before), events[|events| - 1]);
    }
  }
}
