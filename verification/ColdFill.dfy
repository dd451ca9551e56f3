/** When a cold fill fails, exactly, and that one which meets no failure can always succeed. */
module ColdFill {
  import opened Runs
  import opened Text
  import opened BlobWrite
  import opened Tee

  // ---- Exactly when the fill fails ----

  /** A step of the fill's own write that fails in the store, having landed or not. */
  predicate Fails(f: Id, e: TeeEvent)
  {
    e == Store(Write(f, Fail)) || e == Store(Write(f, FailApplied))
  }

  predicate FillFailed(t: Flow, f: Id)
  {
    f in t.store.writers && t.store.writers[f] == Finished(Failed)
  }

  /** Some such step of the run ended the write. */
  ghost predicate StoreFailed(c: Config, f: Id, t: Flow, events: seq<TeeEvent>)
    requires f in c.jobs
  {
    events != [] &&
      var init, e := events[..|events| - 1], events[|events| - 1];
      var before := Run(c, f, t, init);
      StoreFailed(c, f, t, init) || (Fails(f, e) && !FillFailed(before, f) && FillFailed(Tee.Step(c, f, before, e), f))
  }

  /** The filling write fails outright only after a failed copy or a failed step of its own in the store, and a
      failed step is its end. */
  ghost predicate FailureOk(t: Flow, f: Id, storeFailed: bool)
  {
    && f in t.store.writers
    && (FillFailed(t, f) ==> storeFailed || t.writeEnd == Some(true))
    && (storeFailed ==> FillFailed(t, f))
  }

  lemma OwnFailure(c: Config, s: State, f: Id, act: Action)
    requires f in c.jobs && f in s.writers
    ensures var s' := StepWriter(c, s, f, act);
      && f in s'.writers && (s.writers[f].Finished? ==> s' == s)
      && (s'.writers[f] == Finished(Failed) != s.writers[f] ==> act == Fail || act == FailApplied)
  {
    match s.writers[f]
    case Close(_) =>
    case _ =>
  }

  lemma StoreStepFailure(c: Config, f: Id, t: Flow, e: Event, storeFailed: bool)
    requires TeeInv(c, f, t) && FailureOk(t, f, storeFailed)
    ensures var t' := Tee.Step(c, f, t, Store(e));
      FailureOk(t', f, storeFailed || (Fails(f, Store(e)) && !FillFailed(t, f) && FillFailed(t', f)))
  {
    if ByItself(t.store, f, e) {
      if e.Write? && e.w == f {
        OwnFailure(c, t.store, f, e.act);
      } else {
        OthersLeaveFill(c, t.store, f, e);
      }
    }
  }

  lemma {:induction false} FailureHolds(c: Config, f: Id, readers: set<Id>, events: seq<TeeEvent>)
    requires f in c.jobs
    ensures var t0 := Start(Init(c, readers));
      FailureOk(Run(c, f, t0, events), f, StoreFailed(c, f, t0, events))
  {
    if events != [] {
      var before, e := events[..|events| - 1], events[|events| - 1];
      var protocol := RunIsAProtocolRun(c, f, readers, before);
      FailureHolds(c, f, readers, before);
      if e.Store? {
        var t0 := Start(Init(c, readers));
        StoreStepFailure(c, f, Run(c, f, t0, before), e.e, StoreFailed(c, f, t0, before));
      }
    }
  }

  ghost predicate AnotherCommitted(f: Id, t: Flow)
  {
    exists w <- t.store.commits :: w != f
  }

  /** When the call returns, its fill has failed only because the copy failed, a step of the write failed in the
      store, the declared digests cannot be met, or, create-only, another writer committed; on a create-only key
      it has failed if and only if one of these is so. */
  lemma FillFailsExactly(c: Config, f: Id, readers: set<Id>, events: seq<TeeEvent>)
    requires f in c.jobs
    ensures var t0 := Start(Init(c, readers));
      var t, failed := Run(c, f, t0, events), StoreFailed(c, f, t0, events);
      t.main.Returned? ==>
        && (t.main.fillErr ==>
           t.faulted || failed || !Capable(c, f) || (!c.jobs[f].overwrite && AnotherCommitted(f, t)))
        && (t.faulted || failed || !Capable(c, f) || (CreateOnly(c) && AnotherCommitted(f, t)) ==> t.main.fillErr)
  {
    var t0 := Start(Init(c, readers));
    var t := Run(c, f, t0, events);
    var protocol := RunIsAProtocolRun(c, f, readers, events);
    FailureHolds(c, f, readers, events);
    assert PcOk(c, f, t.store.writers[f], t.store.commits);
    if t.main.Returned? && t.store.writers[f].result == AlreadyExists {
      assert t.store.commits[0] != f;
    }
    if t.main.Returned? && CreateOnly(c) {
      CreateOnlyHasOneWinner(c, readers, protocol);
    }
  }

  // ---- A fill that meets no failure succeeds ----

  /** Nothing has gone wrong for the fill so far, and nobody has been faster. */
  ghost predicate Unharmed(c: Config, f: Id, readers: set<Id>, events: seq<TeeEvent>)
    requires f in c.jobs
  {
    var t0 := Start(Init(c, readers));
    var t := Run(c, f, t0, events);
    Capable(c, f) && !t.faulted && !StoreFailed(c, f, t0, events) && !AnotherCommitted(f, t)
  }

  lemma NextStepIsHarmless(c: Config, f: Id, t: Flow)
    requires TeeInv(c, f, t) && !t.faulted && !AnotherCommitted(f, t)
    ensures var e := NextStep(c, f, t);
      var t' := Tee.Step(c, f, t, e);
      Own(f, e) && !Fails(f, e) && !t'.faulted && !AnotherCommitted(f, t')
  {
    match NextStep(c, f, t)
    case Store(e) => ProceedCommits(c, t.store, f);
    case _ =>
  }

  lemma ProceedCommits(c: Config, s: State, f: Id)
    requires f in c.jobs && f in s.writers
    ensures var s' := BlobWrite.Step(c, s, Write(f, Proceed)); s'.commits == s.commits || s'.commits == s.commits + [f]
  {
    match s.writers[f]
    case Close(_) =>
    case _ =>
  }

  /** The call has returned two nil errors, the client has the whole body and so has the store. */
  ghost predicate Succeeded(c: Config, f: Id, t: Flow)
    requires f in c.jobs
  {
    t.main == Returned(false, false) && t.client == c.jobs[f].body && t.store.blob == Some(c.jobs[f].body)
  }

  lemma UnharmedReturn(c: Config, f: Id, readers: set<Id>, events: seq<TeeEvent>)
    requires f in c.jobs && Unharmed(c, f, readers, events)
    requires Run(c, f, Start(Init(c, readers)), events).main.Returned?
    ensures Succeeded(c, f, Run(c, f, Start(Init(c, readers)), events))
  {
    var t := Run(c, f, Start(Init(c, readers)), events);
    var protocol := RunIsAProtocolRun(c, f, readers, events);
    FillFailsExactly(c, f, readers, events);
    assert PcOk(c, f, t.store.writers[f], t.store.commits);
    assert t.store.commits[|t.store.commits| - 1] == f;
  }

  ghost predicate WorkWithin(c: Config, f: Id, t: Flow, n: int)
    requires f in c.jobs
  {
    f in t.store.writers && 0 <= Work(c, f, t) <= n
  }

  lemma UnharmedStep(c: Config, f: Id, readers: set<Id>, events: seq<TeeEvent>, n: int) returns (e: TeeEvent)
    requires f in c.jobs && Unharmed(c, f, readers, events)
    requires !Run(c, f, Start(Init(c, readers)), events).main.Returned?
    requires WorkWithin(c, f, Run(c, f, Start(Init(c, readers)), events), n)
    ensures Own(f, e) && !Fails(f, e) && Unharmed(c, f, readers, events + [e])
    ensures WorkWithin(c, f, Run(c, f, Start(Init(c, readers)), events + [e]), n - 1)
  {
    var t := Run(c, f, Start(Init(c, readers)), events);
    var protocol := RunIsAProtocolRun(c, f, readers, events);
    e := NextStep(c, f, t);
    NextStepMoves(c, f, t);
    NextStepIsHarmless(c, f, t);
    StepUsesWork(c, f, t, e);
    assert (events + [e])[..|events + [e]| - 1] == events;
  }

  lemma {:induction false} SucceedsWithin(c: Config, f: Id, readers: set<Id>, events: seq<TeeEvent>, n: int)
    returns (more: seq<TeeEvent>)
    requires f in c.jobs && Unharmed(c, f, readers, events)
    requires WorkWithin(c, f, Run(c, f, Start(Init(c, readers)), events), n)
    ensures forall e <- more :: Own(f, e) && !Fails(f, e)
    ensures Succeeded(c, f, Run(c, f, Start(Init(c, readers)), events + more))
    decreases n
  {
    if Run(c, f, Start(Init(c, readers)), events).main.Returned? {
      more := [];
      assert events + more == events;
      UnharmedReturn(c, f, readers, events);
    } else {
      var e := UnharmedStep(c, f, readers, events, n);
      var rest := SucceedsWithin(c, f, readers, events + [e], n - 1);
      more := [e] + rest;
      assert events + more == events + [e] + rest;
    }
  }

  /** From any point of any run at which the fill is unharmed, the call's own threads alone can bring it to its
      end: the client has the whole body, the store holds it, and both errors are nil. */
  lemma FillsSucceed(c: Config, f: Id, readers: set<Id>, events: seq<TeeEvent>) returns (more: seq<TeeEvent>)
    requires f in c.jobs && Unharmed(c, f, readers, events)
    ensures forall e <- more :: Own(f, e) && !Fails(f, e)
    ensures Succeeded(c, f, Run(c, f, Start(Init(c, readers)), events + more))
  {
    var t := Run(c, f, Start(Init(c, readers)), events);
    var protocol := RunIsAProtocolRun(c, f, readers, events);
    StepUsesWork(c, f, t, Receive);
    StepUsesWork(c, f, t, FillReports);
    more := SucceedsWithin(c, f, readers, events, Work(c, f, t));
  }

  /** In particular a cold fill of a right body under a free key can succeed. */
  lemma ColdFillSucceeds(c: Config, f: Id, readers: set<Id>) returns (events: seq<TeeEvent>)
    requires f in c.jobs && Capable(c, f)
    ensures forall e <- events :: Own(f, e) && !Fails(f, e)
    ensures Succeeded(c, f, Run(c, f, Start(Init(c, readers)), events))
  {
    events := FillsSucceed(c, f, readers, []);
    assert [] + events == events;
  }

  /** A client that takes only part of a chunk, or an upstream that breaks off, ends the copy with an error, after
      the bytes that did go through. */
  lemma BrokenCopyIsReported(c: Config, f: Id, t: Flow, some: nat, n: nat)
    requires f in c.jobs
    ensures t.main.Sending? && some <= |t.main.chunk| ==>
      var t' := Tee.Step(c, f, t, ClientTakes(false, some));
      t'.main == Closing(true) && t'.faulted && t'.client == t.client + t.main.chunk[..some]
    ensures t.main.Reading? && t.taken + n <= |c.jobs[f].body| ==>
      Tee.Step(c, f, t, Upstream(n, Broken)).faulted
  {
  }
}
