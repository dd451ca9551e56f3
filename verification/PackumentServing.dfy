/** What the packument cache does serve: live memo entries, remembered 404s, and, while the upstream is down, what
    was last recorded or what is stored. */
module PackumentServing {
  import opened Runs
  import opened Text
  import opened Packument

  /** While the upstream is of no use, the load ends as FallsBack says. */
  lemma FallBackServes(t: TTLs, s: State, readable: bool, reading: Reads)
    requires s.flight.Responded? && s.flight.r.Bad?
    ensures var s' := Step(t, s, FallBack(readable, reading));
      s' == s.(flight := s'.flight) && s'.flight.Ended? && FallsBack(s.cached, s.now, readable, reading, s'.flight.out)
  {
    FallbackFallsBack(s.cached, s.now, readable, reading);
  }

  /** Without further records the snapshot and the remembered 404 stay. */
  lemma {:induction false} RecordsStay(t: TTLs, s: State, after: seq<Event>)
    requires forall e <- after :: !e.Record?
    ensures var s' := Exec(t, s, after);
      s'.cached.snapshot == s.cached.snapshot && s'.cached.neg == s.cached.neg && s.now <= s'.now
  {
    if after != [] {
      RecordsStay(t, s, after[..|after| - 1]);
    }
  }

  /** A document that was given and kept, if only the document, is what a readable fallback serves until another
      response is recorded. */
  lemma LastRecordedIsServed(t: TTLs, s: State, doc: Doc, kept: Kept, after: seq<Event>, reading: Reads)
    requires s.flight.Responded? && s.flight.r == Gives(doc) && kept != Nothing && forall e <- after :: !e.Record?
    requires var s1 := Exec(t, Step(t, s, Record(kept)), after); s1.flight.Responded? && s1.flight.r.Bad?
    ensures var s1 := Exec(t, Step(t, s, Record(kept)), after);
      Step(t, s1, FallBack(true, reading)).flight ==
        Ended(Ok(Packument(doc, Some(s.flight.asked), s1.now, true)))
  {
    RecordsStay(t, Step(t, s, Record(kept)), after);
    FallBackServes(t, Exec(t, Step(t, s, Record(kept)), after), true, reading);
  }

  /** A recorded 404 answers every request within its TTL at once, unless a live memo entry does, until another
      response is recorded. */
  lemma AbsenceIsRemembered(t: TTLs, s: State, kept: Kept, after: seq<Event>, r: Id)
    requires s.flight.Responded? && s.flight.r == Gone && forall e <- after :: !e.Record?
    requires r !in Exec(t, Step(t, s, Record(kept)), after).requests
    ensures var s1 := Exec(t, Step(t, s, Record(kept)), after);
      s1.now < s.now + t.neg && MemoGet(t, s1.cached.memo, s1.now).None? ==>
        Step(t, s1, Begin(r)).requests[r] == Answered(NotFound(s.now), s1.now)
  {
    RecordsStay(t, Step(t, s, Record(kept)), after);
  }

  lemma {:induction false} MemoStays(t: TTLs, s: State, after: seq<Event>)
    requires forall e <- after :: !e.Store?
    ensures Exec(t, s, after).cached.memo == s.cached.memo
  {
    if after != [] {
      MemoStays(t, s, after[..|after| - 1]);
    }
  }

  /** A packument put into the memo answers every request within the memo TTL at once, until another is put. */
  lemma MemoIsServed(t: TTLs, s: State, r: Id, after: seq<Event>, q: Id)
    requires t.memo > 0 && r in s.requests && s.requests[r].Putting? && forall e <- after :: !e.Store?
    requires q !in Exec(t, Step(t, s, Store(r)), after).requests
    ensures var s1 := Exec(t, Step(t, s, Store(r)), after);
      s1.now < s.now + t.memo ==> Step(t, s1, Begin(q)).requests[q] == Answered(Ok(s.requests[r].p), s1.now)
  {
    MemoStays(t, Step(t, s, Store(r)), after);
  }

  // ---- What the snapshot is, after any attempts to keep one ----

  datatype Attempt = Attempt(doc: Doc, asked: int, now: int, kept: Kept)

  function KeepAll(attempts: seq<Attempt>): Option<Snapshot>
  {
    if attempts == [] then None
    else
      var a := attempts[|attempts| - 1];
      Keep(KeepAll(attempts[..|attempts| - 1]), a.doc, a.asked, a.now, a.kept)
  }

  /** The last attempt that kept this much. */
  function Last(attempts: seq<Attempt>, kept: Kept): Option<Attempt>
  {
    if attempts == [] then None
    else if attempts[|attempts| - 1].kept == kept then Some(attempts[|attempts| - 1])
    else Last(attempts[..|attempts| - 1], kept)
  }

  function LastKept(attempts: seq<Attempt>): Option<Attempt>
  {
    if attempts == [] then None
    else if attempts[|attempts| - 1].kept != Nothing then Some(attempts[|attempts| - 1])
    else LastKept(attempts[..|attempts| - 1])
  }

  /** The snapshot has the document last kept; its time is that of the last attempt that kept a record with it, or,
      if none did, of the last one that kept a document. */
  lemma {:induction false} SnapshotExactly(attempts: seq<Attempt>)
    ensures var snapshot, last, whole := KeepAll(attempts), LastKept(attempts), Last(attempts, Whole);
      && (snapshot.Some? <==> last.Some?) && (whole.Some? ==> last.Some?)
      && (snapshot.Some? ==>
         && snapshot.value.doc == last.value.doc && snapshot.value.asked == last.value.asked
         && snapshot.value.updatedAt == (if whole.Some? then whole.value.now else last.value.now)
         && (snapshot.value.noted <==> whole.Some?))
  {
    if attempts != [] {
      SnapshotExactly(attempts[..|attempts| - 1]);
    }
  }
}
