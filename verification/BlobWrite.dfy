/** The blob write protocol of one object key and its sidecar key: any number of writers race through
    probe, stream-and-hash, digest verification, conditional commit and sidecar write, and any number of
    readers ask for the file's metadata. Every step may fail, and a failing commit may have landed. */
module BlobWrite {
  import opened Runs
  import opened Text

  type Id = nat
  type Alg = nat

  /** The hash functions linked into the program, left abstract. */
  datatype Hashes = Hashes(sha256: Str -> Str, sum: (Alg, Str) -> Str, available: Alg -> bool)

  datatype Expected = Expected(alg: Alg, sum: Str)

  /** What one writer was asked to store. */
  datatype Job = Job(body: Str, expected: seq<Expected>, overwrite: bool, annotations: Str)

  datatype Meta = Meta(digest: Str, size: nat, digests: map<Alg, Str>, annotations: Str)

  datatype Sidecar = Missing | Corrupt | Encoded(meta: Meta)

  datatype Result = Success(meta: Meta) | AlreadyExists | DigestMismatch | Unsupported | Failed

  /** Where a writer stands; sent holds the bytes handed to the blob writer and to every hash so far. */
  datatype Pc =
    | Probe
    | Open
    | Stream(sent: Str)
    | Verify(sent: Str)
    | Close(sent: Str)
    | WriteSidecar(sent: Str)
    | Finished(result: Result)

  datatype MetaResult = Known(digest: Str, size: nat) | NotFound | MetaFailed

  datatype ReaderPc = ReadSidecar | Stat | Hash(size: nat) | Answered(answer: MetaResult)

  /** The shared state. commits is the history of writers whose bytes became the object, oldest first. */
  datatype State = State(blob: Option<Str>, sidecar: Sidecar, statCache: Option<nat>,
                         writers: map<Id, Pc>, readers: map<Id, ReaderPc>, commits: seq<Id>)

  datatype Config = Config(jobs: map<Id, Job>, hashes: Hashes)

  /** Proceed lets the step take effect, Fail makes it fail without effect, FailApplied makes the
      backend apply the write and still report an error, Read moves n bytes of the body. */
  datatype Action = Proceed | Fail | FailApplied | Read(n: nat)

  datatype Event =
    | Write(w: Id, act: Action)
    | Query(r: Id, ok: bool)
    | ExpireStat
    | DamageSidecar(gone: bool)

  predicate Available(h: Hashes, expected: seq<Expected>)
  {
    forall i :: 0 <= i < |expected| ==> h.available(expected[i].alg)
  }

  predicate Verifies(h: Hashes, expected: seq<Expected>, sent: Str)
  {
    forall i :: 0 <= i < |expected| ==> h.sum(expected[i].alg, sent) == expected[i].sum
  }

  /** The metadata the writer computes from the bytes it streamed. */
  function MetaOf(h: Hashes, job: Job, sent: Str): Meta
  {
    Meta(h.sha256(sent), |sent|,
         map i | 0 <= i < |job.expected| :: job.expected[i].alg := h.sum(job.expected[i].alg, sent),
         job.annotations)
  }

  /** A metadata record tells the truth about stored bytes. */
  predicate Describes(h: Hashes, m: Meta, bytes: Str)
  {
    && m.digest == h.sha256(bytes)
    && m.size == |bytes|
    && forall a <- m.digests :: m.digests[a] == h.sum(a, bytes)
  }

  /** A record of everything the job stored: digest and size of the body, every declared digest under its
      algorithm and no other, and the annotations. */
  ghost predicate Records(h: Hashes, m: Meta, job: Job)
  {
    && m.digest == h.sha256(job.body) && m.size == |job.body| && m.annotations == job.annotations
    && (forall a <- m.digests :: exists i :: 0 <= i < |job.expected| && job.expected[i].alg == a)
    && forall i :: 0 <= i < |job.expected| ==>
         job.expected[i].alg in m.digests && m.digests[job.expected[i].alg] == job.expected[i].sum
  }

  lemma MetaRecords(h: Hashes, job: Job)
    requires Verifies(h, job.expected, job.body)
    ensures Records(h, MetaOf(h, job, job.body), job)
  {
  }

  function Init(c: Config, readers: set<Id>): State
  {
    State(None, Missing, None, map w | w in c.jobs :: Probe, map r | r in readers :: ReadSidecar, [])
  }

  /** One step of writer w, whose program counter is pc; a step that is not enabled changes nothing. */
  function StepWriter(c: Config, s: State, w: Id, act: Action): State
    requires w in c.jobs && w in s.writers
  {
    var job := c.jobs[w];
    match s.writers[w]
    case Probe =>
      (match act
       case Proceed =>
         if !job.overwrite && s.blob.Some? then Goto(s, w, Finished(AlreadyExists)) else Goto(s, w, Open)
       case Fail => if job.overwrite then s else Goto(s, w, Finished(Failed))
       case _ => s)
    case Open =>
      (match act
       case Proceed =>
         if Available(c.hashes, job.expected) then Goto(s, w, Stream([])) else Goto(s, w, Finished(Unsupported))
       case Fail => Goto(s, w, Finished(Failed))
       case _ => s)
    case Stream(sent) =>
      (match act
       case Read(n) =>
         if 0 < n && |sent| + n <= |job.body| then Goto(s, w, Stream(job.body[..|sent| + n])) else s
       case Proceed => if |sent| >= |job.body| then Goto(s, w, Verify(sent)) else s
       case Fail => Goto(s, w, Finished(Failed))
       case _ => s)
    case Verify(sent) =>
      if act != Proceed then s
      else if Verifies(c.hashes, job.expected, sent) then Goto(s, w, Close(sent))
      else Goto(s, w, Finished(DigestMismatch))
    case Close(sent) =>
      if act == Fail then Goto(s, w, Finished(Failed))
      else if act.Read? then s
      else if !job.overwrite && s.blob.Some? then Goto(s, w, Finished(AlreadyExists))
      else
        var s' := s.(blob := Some(sent), commits := s.commits + [w]);
        Goto(s', w, if act == Proceed then WriteSidecar(sent) else Finished(Failed))
    case WriteSidecar(sent) =>
      (match act
       case Proceed =>
         Goto(s.(sidecar := Encoded(MetaOf(c.hashes, job, sent))), w, Finished(Success(MetaOf(c.hashes, job, sent))))
       case FailApplied => Goto(s.(sidecar := Encoded(MetaOf(c.hashes, job, sent))), w, Finished(Failed))
       case Fail => Goto(s, w, Finished(Failed))
       case _ => s)
    case Finished(_) => s
  }

  function Goto(s: State, w: Id, pc: Pc): State
  {
    s.(writers := s.writers[w := pc])
  }

  /** One step of a metadata query: sidecar first, then the (cached) attributes and a re-hash. */
  function StepReader(c: Config, s: State, r: Id, ok: bool): State
    requires r in s.readers
  {
    var answer := (a: MetaResult) => s.(readers := s.readers[r := Answered(a)]);
    match s.readers[r]
    case ReadSidecar =>
      if !ok then answer(MetaFailed)
      else if s.sidecar.Encoded? then answer(Known(s.sidecar.meta.digest, s.sidecar.meta.size))
      else s.(readers := s.readers[r := Stat])
    case Stat =>
      if s.statCache.Some? then s.(readers := s.readers[r := Hash(s.statCache.value)])
      else if !ok then answer(MetaFailed)
      else if s.blob.None? then answer(NotFound)
      else s.(readers := s.readers[r := Hash(|s.blob.value|)], statCache := Some(|s.blob.value|))
    case Hash(size) =>
      if !ok then answer(MetaFailed)
      else if s.blob.None? then answer(NotFound)
      else answer(Known(c.hashes.sha256(s.blob.value), size))
    case Answered(_) => s
  }

  function Step(c: Config, s: State, e: Event): State
  {
    match e
    case Write(w, act) => if w in c.jobs && w in s.writers then StepWriter(c, s, w, act) else s
    case Query(r, ok) => if r in s.readers then StepReader(c, s, r, ok) else s
    case ExpireStat => s.(statCache := None)
    case DamageSidecar(gone) =>
      if s.sidecar.Missing? then s else s.(sidecar := if gone then Missing else Corrupt)
  }

  function Steps(c: Config): (State, Event) -> State
  {
    (s, e) => Step(c, s, e)
  }

  function Exec(c: Config, s: State, events: seq<Event>): State
  {
    Fold(Steps(c), s, events)
  }

  predicate Torn(c: Config, s: State)
  {
    s.blob.Some? && s.sidecar.Encoded? && !Describes(c.hashes, s.sidecar.meta, s.blob.value)
  }

  // ---- The invariant of every run, overwriting or not ----

  /** Bytes held past streaming are the whole body, past verification they carry the declared digests, a
      writer is in the history exactly from its commit on, and every outcome is reported for its reason. */
  ghost predicate PcOk(c: Config, w: Id, pc: Pc, commits: seq<Id>)
    requires w in c.jobs
  {
    var job := c.jobs[w];
    && (w in commits ==> pc.WriteSidecar? || (pc.Finished? && (pc.result.Success? || pc.result.Failed?)))
    && match pc
       case Stream(sent) => sent <= job.body && Available(c.hashes, job.expected)
       case Verify(sent) => sent == job.body && Available(c.hashes, job.expected)
       case Close(sent) => sent == job.body && Capable(c, w)
       case WriteSidecar(sent) => sent == job.body && w in commits
       case Finished(Success(m)) => w in commits && m == Record(c, w)
       case Finished(AlreadyExists) => !job.overwrite && commits != []
       case Finished(DigestMismatch) => Available(c.hashes, job.expected) && !Capable(c, w)
       case Finished(Unsupported) => !Available(c.hashes, job.expected)
       case _ => true
  }

  /** The writer's declared digests are computable and right, so it is able to commit. */
  predicate Capable(c: Config, w: Id)
    requires w in c.jobs
  {
    Available(c.hashes, c.jobs[w].expected) && Verifies(c.hashes, c.jobs[w].expected, c.jobs[w].body)
  }

  function Record(c: Config, w: Id): Meta
    requires w in c.jobs
  {
    MetaOf(c.hashes, c.jobs[w], c.jobs[w].body)
  }

  ghost predicate Inv(c: Config, s: State)
  {
    && s.writers.Keys == c.jobs.Keys
    && (forall w <- s.commits :: w in c.jobs && Capable(c, w))
    && (forall w <- s.writers :: PcOk(c, w, s.writers[w], s.commits))
    && s.blob == (if s.commits == [] then None else Some(c.jobs[s.commits[|s.commits| - 1]].body))
    && (|s.commits| > 1 ==> c.jobs[s.commits[|s.commits| - 1]].overwrite)
    && (s.sidecar.Encoded? ==> exists w <- s.commits :: s.sidecar.meta == Record(c, w))
  }

  lemma GotoKeepsInv(c: Config, s: State, w: Id, pc: Pc)
    requires Inv(c, s) && w in s.writers && PcOk(c, w, pc, s.commits)
    ensures Inv(c, Goto(s, w, pc))
  {
  }

  /** A commit by a verified writer, given that it overwrites or is the first. */
  lemma CommitKeepsInv(c: Config, s: State, w: Id, pc: Pc)
    requires Inv(c, s) && w in s.writers && Capable(c, w) && PcOk(c, w, pc, s.commits + [w])
    requires c.jobs[w].overwrite || s.blob.None?
    ensures Inv(c, Goto(s.(blob := Some(c.jobs[w].body), commits := s.commits + [w]), w, pc))
  {
    var s' := Goto(s.(blob := Some(c.jobs[w].body), commits := s.commits + [w]), w, pc);
    assert s'.commits[|s'.commits| - 1] == w;
    assert forall v <- s.commits :: v in s'.commits;
    forall v <- s'.writers
      ensures PcOk(c, v, s'.writers[v], s'.commits)
    {
      if v != w { assert PcOk(c, v, s.writers[v], s.commits); }
    }
    if s.sidecar.Encoded? {
      var v :| v in s.commits && s.sidecar.meta == Record(c, v);
      assert v in s'.commits;
    }
  }

  /** Steps before the commit only move the writer. */
  lemma EarlyStepKeepsInv(c: Config, s: State, w: Id, act: Action)
    requires Inv(c, s) && w in s.writers
    requires !s.writers[w].Close? && !s.writers[w].WriteSidecar?
    ensures Inv(c, StepWriter(c, s, w, act))
  {
    var s' := StepWriter(c, s, w, act);
    if s' != s {
      var pc := s'.writers[w];
      assert s' == Goto(s, w, pc) && PcOk(c, w, pc, s.commits) by {
        EarlyStepIsOk(c, s, w, act);
      }
      GotoKeepsInv(c, s, w, pc);
    }
  }

  lemma EarlyStepIsOk(c: Config, s: State, w: Id, act: Action)
    requires w in c.jobs && w in s.writers && PcOk(c, w, s.writers[w], s.commits)
    requires s.blob.Some? <==> s.commits != []
    requires !s.writers[w].Close? && !s.writers[w].WriteSidecar?
    ensures var s' := StepWriter(c, s, w, act);
      w in s'.writers && (s' == s || s' == Goto(s, w, s'.writers[w])) && PcOk(c, w, s'.writers[w], s.commits)
  {
  }

  lemma CloseKeepsInv(c: Config, s: State, w: Id, act: Action)
    requires Inv(c, s) && w in s.writers && s.writers[w].Close?
    ensures Inv(c, StepWriter(c, s, w, act))
  {
    assert PcOk(c, w, s.writers[w], s.commits);
    var s' := StepWriter(c, s, w, act);
    if s'.commits != s.commits {
      CommitKeepsInv(c, s, w, s'.writers[w]);
    } else if s' != s {
      GotoKeepsInv(c, s, w, s'.writers[w]);
    }
  }

  lemma SidecarKeepsInv(c: Config, s: State, w: Id, act: Action)
    requires Inv(c, s) && w in s.writers && s.writers[w].WriteSidecar?
    ensures Inv(c, StepWriter(c, s, w, act))
  {
    assert PcOk(c, w, s.writers[w], s.commits);
    var s' := StepWriter(c, s, w, act);
    if s' != s { GotoKeepsInv(c, s.(sidecar := s'.sidecar), w, s'.writers[w]); }
  }

  lemma StepKeepsInv(c: Config, s: State, e: Event)
    requires Inv(c, s)
    ensures Inv(c, Step(c, s, e))
  {
    match e
    case Write(w, act) =>
      if w in s.writers {
        if s.writers[w].Close? {
          CloseKeepsInv(c, s, w, act);
        } else if s.writers[w].WriteSidecar? {
          SidecarKeepsInv(c, s, w, act);
        } else {
          EarlyStepKeepsInv(c, s, w, act);
        }
      }
    case _ =>
  }

  lemma {:induction false} ExecKeepsInv(c: Config, readers: set<Id>, events: seq<Event>)
    ensures Inv(c, Exec(c, Init(c, readers), events))
  {
    if events != [] {
      ExecKeepsInv(c, readers, events[..|events| - 1]);
      StepKeepsInv(c, Exec(c, Init(c, readers), events[..|events| - 1]), events[|events| - 1]);
    }
  }

  // ---- Keys written create-only ----

  ghost predicate CreateOnly(c: Config)
  {
    forall w <- c.jobs :: !c.jobs[w].overwrite
  }

  /** Whatever the interleaving and the failures, at most one create-only writer commits and at most one
      reports success; the object is that writer's complete verified body, the sidecar and the reported record
      hold everything that writer declared, and a refused writer was refused because another one had committed. */
  lemma CreateOnlyHasOneWinner(c: Config, readers: set<Id>, events: seq<Event>)
    requires CreateOnly(c)
    ensures var s := Exec(c, Init(c, readers), events);
      && |s.commits| <= 1
      && (s.blob.Some? <==> s.commits != [])
      && (s.blob.Some? ==>
         s.commits[0] in c.jobs && Capable(c, s.commits[0]) && s.blob.value == c.jobs[s.commits[0]].body)
      && (s.sidecar.Encoded? ==>
         s.blob.Some? && Records(c.hashes, s.sidecar.meta, c.jobs[s.commits[0]]) && !Torn(c, s))
      && (forall w, m :: w in s.writers && s.writers[w] == Finished(Success(m)) ==>
         w in c.jobs && s.commits == [w] && Records(c.hashes, m, c.jobs[w]))
      && (forall w :: w in s.writers && s.writers[w] == Finished(AlreadyExists) ==> s.commits != [] && s.commits != [w])
  {
    var s := Exec(c, Init(c, readers), events);
    ExecKeepsInv(c, readers, events);
    forall w | w in s.commits ensures Records(c.hashes, Record(c, w), c.jobs[w]) {
      MetaRecords(c.hashes, c.jobs[w]);
    }
    forall w | w in s.writers
      ensures forall m :: s.writers[w] == Finished(Success(m)) ==>
        w in c.jobs && s.commits == [w] && Records(c.hashes, m, c.jobs[w])
      ensures s.writers[w] == Finished(AlreadyExists) ==> s.commits != [] && s.commits != [w]
    {
      assert PcOk(c, w, s.writers[w], s.commits);
    }
  }

  lemma BlobStays(c: Config, s: State, e: Event)
    requires CreateOnly(c) && s.blob.Some?
    ensures Step(c, s, e).blob == s.blob
  {
    match e
    case Write(w, act) => if w in c.jobs && w in s.writers { WriterFrame(c, s, w, act); }
    case _ =>
  }

  /** Once committed, a create-only object keeps its bytes for the rest of the run. */
  lemma {:induction false} CreateOnlyIsImmutable(c: Config, readers: set<Id>, events: seq<Event>, more: seq<Event>)
    requires CreateOnly(c) && Exec(c, Init(c, readers), events).blob.Some?
    ensures Exec(c, Init(c, readers), events + more).blob == Exec(c, Init(c, readers), events).blob
  {
    if more == [] {
      assert events + more == events;
    } else {
      var before := events + more[..|more| - 1];
      assert (events + more)[..|events + more| - 1] == before;
      CreateOnlyIsImmutable(c, readers, events, more[..|more| - 1]);
      BlobStays(c, Exec(c, Init(c, readers), before), more[|more| - 1]);
    }
  }

  // ---- Metadata queries ----

  ghost predicate ReadersTrue(c: Config, s: State)
  {
    && (s.statCache.Some? ==> s.blob.Some? && s.statCache.value == |s.blob.value|)
    && forall r <- s.readers ::
         match s.readers[r]
         case Hash(size) => s.blob.Some? && size == |s.blob.value|
         case Answered(Known(d, n)) => s.blob.Some? && d == c.hashes.sha256(s.blob.value) && n == |s.blob.value|
         case _ => true
  }

  /** On a create-only key every answered metadata query carries the digest and the size of the stored
      bytes, whether it came from the sidecar, from the attributes or from the attribute cache. */
  lemma {:induction false} MetaIsTrue(c: Config, readers: set<Id>, events: seq<Event>)
    requires CreateOnly(c)
    ensures ReadersTrue(c, Exec(c, Init(c, readers), events))
  {
    if events != [] {
      var before := events[..|events| - 1];
      MetaIsTrue(c, readers, before);
      CreateOnlyHasOneWinner(c, readers, before);
      ExecKeepsInv(c, readers, before);
      CreateOnlyIsTrueStep(c, Exec(c, Init(c, readers), before), events[|events| - 1]);
    }
  }

  lemma WriterFrame(c: Config, s: State, w: Id, act: Action)
    requires w in c.jobs && w in s.writers
    ensures var s' := StepWriter(c, s, w, act);
      && s'.readers == s.readers && s'.statCache == s.statCache
      && (!c.jobs[w].overwrite && s.blob.Some? ==> s'.blob == s.blob)
  {
    match s.writers[w]
    case Close(sent) =>
    case _ =>
  }

  lemma CreateOnlyIsTrueStep(c: Config, s: State, e: Event)
    requires CreateOnly(c) && Inv(c, s) && ReadersTrue(c, s)
    requires s.sidecar.Encoded? ==> s.blob.Some? && Describes(c.hashes, s.sidecar.meta, s.blob.value)
    ensures ReadersTrue(c, Step(c, s, e))
  {
    match e
    case Write(w, act) =>
      if w in s.writers { WriterFrame(c, s, w, act); }
    case Query(r, ok) =>
      if r in s.readers { QueryIsTrue(c, s, r, ok); }
    case _ =>
  }

  lemma QueryIsTrue(c: Config, s: State, r: Id, ok: bool)
    requires ReadersTrue(c, s) && r in s.readers
    requires s.sidecar.Encoded? ==> s.blob.Some? && Describes(c.hashes, s.sidecar.meta, s.blob.value)
    ensures ReadersTrue(c, StepReader(c, s, r, ok))
  {
    var s' := StepReader(c, s, r, ok);
    assert forall q <- s.readers :: q != r ==> s'.readers[q] == s.readers[q];
    match s.readers[r]
    case ReadSidecar =>
    case Stat =>
    case Hash(size) =>
    case Answered(_) =>
  }

  /** A query that meets no failure is answered, with or without a readable sidecar. */
  lemma MetaIsAnswered(c: Config, readers: set<Id>, events: seq<Event>, r: Id)
    requires CreateOnly(c)
    requires var s := Exec(c, Init(c, readers), events);
      s.blob.Some? && r in s.readers && s.readers[r] == ReadSidecar
    ensures var s := Exec(c, Init(c, readers), events);
      var s' := Exec(c, s, [Query(r, true), Query(r, true), Query(r, true)]);
      r in s'.readers && s'.readers[r] == Answered(Known(c.hashes.sha256(s.blob.value), |s.blob.value|))
  {
    var s := Exec(c, Init(c, readers), events);
    CreateOnlyHasOneWinner(c, readers, events);
    MetaIsTrue(c, readers, events);
    var q := Query(r, true);
    ThreeSteps(c, s, q, q, q);
  }

  /** The sidecar's own digest and size answer first, on any key; behind it the cached size stands in for asking
      the store, whose answer is cached, and a read that fails is never answered with a digest or with absence. */
  lemma MetaPrefersSidecar(c: Config, s: State, r: Id, ok: bool)
    requires r in s.readers && !s.readers[r].Answered?
    ensures var s' := Step(c, s, Query(r, ok));
      var pc, pc' := s.readers[r], s'.readers[r];
      && (pc.ReadSidecar? && ok && s.sidecar.Encoded? ==>
         pc' == Answered(Known(s.sidecar.meta.digest, s.sidecar.meta.size)))
      && (pc.Stat? && s.statCache.Some? ==> pc' == Hash(s.statCache.value))
      && (pc.Stat? && pc'.Hash? ==> s'.statCache == Some(pc'.size))
      && (!ok && pc' != pc && !pc'.Hash? ==> pc' == Answered(MetaFailed))
      && (!ok && !pc.Stat? ==> pc' == Answered(MetaFailed))
  {
  }

  lemma ThreeSteps(c: Config, s: State, e0: Event, e1: Event, e2: Event)
    ensures Exec(c, s, [e0, e1, e2]) == Step(c, Step(c, Step(c, s, e0), e1), e2)
  {
    assert [e0, e1, e2][..2] == [e0, e1] && [e0, e1][..1] == [e0] && [e0][..0] == [];
    assert Exec(c, s, [e0]) == Step(c, Exec(c, s, []), e0);
    assert Exec(c, s, [e0, e1]) == Step(c, Exec(c, s, [e0]), e1);
  }

  // ---- Exactly when blob and sidecar can come apart ----

  /** Size, digest or some declared digest tells the job's body from these bytes. */
  predicate Differs(h: Hashes, job: Job, bytes: Str)
  {
    || |job.body| != |bytes| || h.sha256(job.body) != h.sha256(bytes)
    || exists i :: 0 <= i < |job.expected| && h.sum(job.expected[i].alg, bytes) != job.expected[i].sum
  }

  /** An overwriting writer whose body is told from that of another able writer. */
  ghost predicate Conflict(c: Config, o: Id, w: Id)
  {
    && o in c.jobs && w in c.jobs && o != w
    && c.jobs[o].overwrite && Capable(c, o) && Capable(c, w)
    && Differs(c.hashes, c.jobs[w], c.jobs[o].body)
  }

  /** A record of everything a job stored describes exactly the bytes its body is not told from. */
  lemma RecordsTell(h: Hashes, m: Meta, job: Job, bytes: Str)
    requires Records(h, m, job)
    ensures Describes(h, m, bytes) <==> !Differs(h, job, bytes)
  {
    if !Differs(h, job, bytes) {
      forall a <- m.digests ensures m.digests[a] == h.sum(a, bytes) {
        var i :| 0 <= i < |job.expected| && job.expected[i].alg == a;
      }
    }
  }

  /** The steps by which writer w alone brings its bytes in, up to and including the commit. */
  function Solo(c: Config, w: Id): seq<Event>
    requires w in c.jobs
  {
    var go := Write(w, Proceed);
    [go, go, Write(w, Read(|c.jobs[w].body|))] + [go, go, go]
  }

  lemma SoloCommits(c: Config, s: State, w: Id)
    requires w in c.jobs && w in s.writers && s.writers[w] == Probe && Capable(c, w)
    requires c.jobs[w].overwrite || s.blob.None?
    ensures Exec(c, s, Solo(c, w)) ==
            Goto(s.(blob := Some(c.jobs[w].body), commits := s.commits + [w]), w, WriteSidecar(c.jobs[w].body))
  {
    var go, rd := Write(w, Proceed), Write(w, Read(|c.jobs[w].body|));
    Concat(Steps(c), s, [go, go, rd], [go, go, go]);
    ThreeSteps(c, s, go, go, rd);
    SoloStreams(c, s, w);
    var s1 := Goto(s, w, Stream(c.jobs[w].body));
    ThreeSteps(c, s1, go, go, go);
    SoloFinishes(c, s, w);
  }

  lemma SoloStreams(c: Config, s: State, w: Id)
    requires w in c.jobs && w in s.writers && s.writers[w] == Probe && Capable(c, w)
    requires c.jobs[w].overwrite || s.blob.None?
    ensures var go, rd := Write(w, Proceed), Write(w, Read(|c.jobs[w].body|));
      Step(c, Step(c, Step(c, s, go), go), rd) == Goto(s, w, Stream(c.jobs[w].body))
  {
    var go, body := Write(w, Proceed), c.jobs[w].body;
    assert Step(c, s, go) == Goto(s, w, Open);
    assert Step(c, Goto(s, w, Open), go) == Goto(Goto(s, w, Open), w, Stream([])) == Goto(s, w, Stream([]));
    assert body[..|body|] == body;
    assert |body| == 0 ==> body == [];
  }

  lemma SoloFinishes(c: Config, s: State, w: Id)
    requires w in c.jobs && w in s.writers && Capable(c, w)
    requires c.jobs[w].overwrite || s.blob.None?
    ensures var go, body := Write(w, Proceed), c.jobs[w].body;
      Step(c, Step(c, Step(c, Goto(s, w, Stream(body)), go), go), go) ==
      Goto(s.(blob := Some(body), commits := s.commits + [w]), w, WriteSidecar(body))
  {
    var go, body := Write(w, Proceed), c.jobs[w].body;
    assert Step(c, Goto(s, w, Stream(body)), go) == Goto(Goto(s, w, Stream(body)), w, Verify(body)) ==
      Goto(s, w, Verify(body));
    assert Step(c, Goto(s, w, Verify(body)), go) == Goto(Goto(s, w, Verify(body)), w, Close(body)) ==
      Goto(s, w, Close(body));
  }

  /** The run that tears: w stores completely, then o commits its bytes. */
  lemma ConflictTears(c: Config, o: Id, w: Id)
    requires Conflict(c, o, w)
    ensures Torn(c, Exec(c, Init(c, {}), Solo(c, w) + [Write(w, Proceed)] + Solo(c, o)))
  {
    var s0 := Init(c, {});
    SoloCommits(c, s0, w);
    var s1 := Exec(c, s0, Solo(c, w));
    var stored := Solo(c, w) + [Write(w, Proceed)];
    assert stored[..|stored| - 1] == Solo(c, w);
    var s2 := Exec(c, s0, stored);
    assert s2 == Step(c, s1, Write(w, Proceed));
    SoloCommits(c, s2, o);
    Concat(Steps(c), s0, stored, Solo(c, o));
    MetaRecords(c.hashes, c.jobs[w]);
    RecordsTell(c.hashes, Record(c, w), c.jobs[w], c.jobs[o].body);
  }

  lemma NoConflictNoTear(c: Config, s: State)
    requires Inv(c, s) && Torn(c, s)
    ensures exists o, w :: Conflict(c, o, w)
  {
    var o := s.commits[|s.commits| - 1];
    var w :| w in s.commits && s.sidecar.meta == Record(c, w);
    MetaRecords(c.hashes, c.jobs[w]);
    RecordsTell(c.hashes, Record(c, w), c.jobs[w], c.jobs[w].body);
    RecordsTell(c.hashes, Record(c, w), c.jobs[w], c.jobs[o].body);
    var i :| 0 <= i < |s.commits| && s.commits[i] == w;
    assert |s.commits| - 1 > 0;
    assert Conflict(c, o, w);
  }

  ghost predicate MayTear(c: Config)
  {
    exists readers: set<Id>, events: seq<Event> :: Torn(c, Exec(c, Init(c, readers), events))
  }

  /** Blob and sidecar can come apart in some run if and only if two writers conflict: an overwriting one, and
      another whose size, digest or declared digests do not fit the overwriting one's bytes. */
  lemma TearingExactly(c: Config)
    ensures MayTear(c) <==> exists o, w :: Conflict(c, o, w)
  {
    if o, w :| Conflict(c, o, w) {
      ConflictTears(c, o, w);
    }
    if readers: set<Id>, events: seq<Event> :| Torn(c, Exec(c, Init(c, readers), events)) {
      ExecKeepsInv(c, readers, events);
      NoConflictNoTear(c, Exec(c, Init(c, readers), events));
    }
  }

  /** With or without overwriting, a stored object is always some writer's complete body carrying the
      digests that writer declared: no partial and no unverified bytes are ever readable. */
  lemma StoredBytesAreComplete(c: Config, readers: set<Id>, events: seq<Event>)
    ensures var s := Exec(c, Init(c, readers), events);
      s.blob.Some? ==> exists w <- s.commits :: w in c.jobs && Capable(c, w) && s.blob.value == c.jobs[w].body
  {
    ExecKeepsInv(c, readers, events);
  }
}
