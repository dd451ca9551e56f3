/** The write path of the blob store as the program runs it: one call, step by step, on the bucket.
    Each call is shown to be a run of the write protocol, so every theorem about runs covers it. */
module WriteFile {
  import opened Text
  import opened BlobWrite

  datatype Object = Bytes(bytes: Str) | Envelope(meta: Meta) | Undecodable

  /** Which of the call's bucket operations fail; a failing commit may still have been applied. */
  datatype Faults = Faults(probe: bool, open: bool, readAt: Option<nat>, close: Action, sidecar: Action)

  /** The protocol state a bucket stands for, seen from one writer of one key pair. */
  ghost function View(objects: map<Str, Object>, blobKey: Str, metaKey: Str, w: Id, pc: Pc, commits: seq<Id>): State
  {
    State(
      if blobKey in objects && objects[blobKey].Bytes? then Some(objects[blobKey].bytes) else None,
      if metaKey !in objects then Missing
      else if objects[metaKey].Envelope? then Encoded(objects[metaKey].meta) else Corrupt,
      None, map[w := pc], map[], commits)
  }

  /** One step of the writer, from a state its trace so far leads to. */
  lemma Advance(h: Hashes, job: Job, s0: State, trace: seq<Event>, w: Id, act: Action, s: State)
    requires Exec(Config(Only(w, job), h), s0, trace) == s
    requires w in s.writers
    ensures Exec(Config(Only(w, job), h), s0, trace + [Write(w, act)]) == StepWriter(Config(Only(w, job), h), s, w, act)
  {
    assert (trace + [Write(w, act)])[..|trace|] == trace;
  }

  lemma Moved(objects: map<Str, Object>, blobKey: Str, metaKey: Str, w: Id, pc: Pc, pc': Pc, commits: seq<Id>)
    ensures Goto(View(objects, blobKey, metaKey, w, pc, commits), w, pc') ==
      View(objects, blobKey, metaKey, w, pc', commits)
  {
    assert map[w := pc][w := pc'] == map[w := pc'];
  }

  ghost function Only(w: Id, job: Job): map<Id, Job>
  {
    map[w := job]
  }

  /** The check that every declared digest's hash is linked in. */
  method AllAvailable(h: Hashes, expected: seq<Expected>) returns (ok: bool)
    ensures ok <==> Available(h, expected)
  {
    for i := 0 to |expected|
      invariant forall j :: 0 <= j < i ==> h.available(expected[j].alg)
    {
      if !h.available(expected[i].alg) {
        return false;
      }
    }
    return true;
  }

  /** The comparison of the streamed bytes with every declared digest, which also records them. */
  method CheckDigests(h: Hashes, expected: seq<Expected>, sent: Str) returns (ok: bool, digests: map<Alg, Str>)
    ensures ok <==> Verifies(h, expected, sent)
    ensures ok ==> digests == map i | 0 <= i < |expected| :: expected[i].alg := h.sum(expected[i].alg, sent)
  {
    digests := map[];
    for i := 0 to |expected|
      invariant forall j :: 0 <= j < i ==> h.sum(expected[j].alg, sent) == expected[j].sum
      invariant digests == map j | 0 <= j < i :: expected[j].alg := h.sum(expected[j].alg, sent)
    {
      var got := h.sum(expected[i].alg, sent);
      if got != expected[i].sum {
        return false, digests;
      }
      digests := digests[expected[i].alg := got];
    }
    ok := true;
  }

  /** The copy loop: reads of the given sizes until the body ends or a read fails. */
  method CopyBody(ghost h: Hashes, ghost s0: State, ghost before: seq<Event>, w: Id, job: Job, cuts: seq<nat>,
      readAt: Option<nat>)
    returns (ok: bool, sent: Str, ghost trace: seq<Event>)
    requires var s := Exec(Config(Only(w, job), h), s0, before);
      s.writers == map[w := Stream([])]
    ensures sent <= job.body && (ok ==> sent == job.body)
    ensures readAt.None? ==> ok
    ensures Exec(Config(Only(w, job), h), s0, trace) ==
            Exec(Config(Only(w, job), h), s0, before)
              .(writers := map[w := if ok then Verify(sent) else Finished(Failed)])
  {
    sent, trace := [], before;
    ghost var s := Exec(Config(Only(w, job), h), s0, before);
    var turns := 0;
    while true
      invariant sent <= job.body
      invariant Exec(Config(Only(w, job), h), s0, trace) == s.(writers := map[w := Stream(sent)])
      decreases |job.body| - |sent|
    {
      if readAt == Some(turns) {
        Advance(h, job, s0, trace, w, Fail, s.(writers := map[w := Stream(sent)]));
        return false, sent, trace + [Write(w, Fail)];
      }
      if |sent| == |job.body| {
        Advance(h, job, s0, trace, w, Proceed, s.(writers := map[w := Stream(sent)]));
        return true, sent, trace + [Write(w, Proceed)];
      }
      var left := |job.body| - |sent|;
      var n := if turns < |cuts| && 0 < cuts[turns] <= left then cuts[turns] else left;
      Advance(h, job, s0, trace, w, Read(n), s.(writers := map[w := Stream(sent)]));
      trace := trace + [Write(w, Read(n))];
      sent, turns := job.body[..|sent| + n], turns + 1;
    }
  }

  class Bucket {
    var objects: map<Str, Object>

    /** Blob keys hold plain bytes. */
    ghost predicate Valid(blobKey: Str, metaKey: Str)
      reads this
    {
      blobKey != metaKey && (blobKey in objects ==> objects[blobKey].Bytes?)
    }

    constructor ()
      ensures objects == map[]
    {
      objects := map[];
    }

    /** Stores body at blobKey and its record at metaKey; body arrives in chunks of the given sizes. */
    method WriteFile(h: Hashes, blobKey: Str, metaKey: Str, w: Id, job: Job, cuts: seq<nat>, faults: Faults)
      returns (result: Result, ghost trace: seq<Event>, ghost commits: seq<Id>)
      requires Valid(blobKey, metaKey)
      requires !faults.close.Read? && !faults.sidecar.Read?
      modifies this
      ensures Valid(blobKey, metaKey)
      ensures objects - {blobKey, metaKey} == old(objects) - {blobKey, metaKey}
      ensures Exec(Config(Only(w, job), h), View(old(objects), blobKey, metaKey, w, Probe, []), trace) ==
              View(objects, blobKey, metaKey, w, Finished(result), commits)
      ensures result.Success? ==> objects == old(objects)[blobKey := Bytes(job.body)][metaKey := Envelope(result.meta)]
      ensures result.Success? ==> Records(h, result.meta, job)
      ensures result.AlreadyExists? || result.DigestMismatch? || result.Unsupported? ==> objects == old(objects)
      ensures result.Success? ==>
        !faults.open && (job.overwrite || !faults.probe) && faults.close == Proceed && faults.sidecar == Proceed
      ensures result.Failed? ==> LeftBehind(h, old(objects), objects, blobKey, metaKey, job, faults)
      ensures faults == Faults(false, false, None, Proceed, Proceed) ==>
              if !job.overwrite && blobKey in old(objects) then result == AlreadyExists
              else if !Available(h, job.expected) then result == Unsupported
              else if !Verifies(h, job.expected, job.body) then result == DigestMismatch
              else result.Success?
    {
      ghost var s0 := View(objects, blobKey, metaKey, w, Probe, []);
      commits := [];
      var refusal, copied, sent;
      refusal, trace := Begin(h, blobKey, metaKey, w, job, faults);
      if refusal.Some? {
        return refusal.value, trace, commits;
      }
      copied, sent, trace := CopyBody(h, s0, trace, w, job, cuts, faults.readAt);
      if !copied {
        return Failed, trace, commits;
      }
      var verified, digests := CheckDigests(h, job.expected, sent);
      Advance(h, job, s0, trace, w, Proceed, View(objects, blobKey, metaKey, w, Verify(sent), []));
      trace := trace + [Write(w, Proceed)];
      if !verified {
        Moved(objects, blobKey, metaKey, w, Verify(sent), Finished(DigestMismatch), []);
        return DigestMismatch, trace, commits;
      }
      Moved(objects, blobKey, metaKey, w, Verify(sent), Close(sent), []);
      MetaRecords(h, job);
      result, trace, commits := Commit(h, blobKey, metaKey, w, job, s0, trace, digests, faults);
    }

    /** What a failed write has left: nothing if it failed before its commit, else the whole body, and the record
        if the write of the sidecar was applied. */
    static ghost predicate LeftBehind(h: Hashes, was: map<Str, Object>, objects: map<Str, Object>, blobKey: Str,
        metaKey: Str, job: Job, faults: Faults)
    {
      || (objects == was && (faults.open || faults.readAt.Some? || faults.close == Fail
                             || (faults.probe && !job.overwrite)))
      || (objects == was[blobKey := Bytes(job.body)] && (faults.close == FailApplied || faults.sidecar == Fail))
      || (exists m :: Records(h, m, job) && objects == was[blobKey := Bytes(job.body)][metaKey := Envelope(m)]
                      && faults.close == Proceed && faults.sidecar == FailApplied)
    }

    /** The existence probe of a create-only write, the opening of the blob writer and of the hashes. */
    method Begin(h: Hashes, blobKey: Str, metaKey: Str, w: Id, job: Job, faults: Faults)
      returns (refusal: Option<Result>, ghost trace: seq<Event>)
      requires Valid(blobKey, metaKey)
      ensures Exec(Config(Only(w, job), h), View(objects, blobKey, metaKey, w, Probe, []), trace) ==
              View(objects, blobKey, metaKey, w, if refusal.Some? then Finished(refusal.value) else Stream([]), [])
      ensures match refusal
              case Some(r) =>
                || (r == Failed && ((faults.probe && !job.overwrite) || faults.open))
                || (r == AlreadyExists && !job.overwrite && blobKey in objects)
                || (r == Unsupported && (job.overwrite || blobKey !in objects) && !Available(h, job.expected))
              case None =>
                && (job.overwrite || (blobKey !in objects && !faults.probe)) && !faults.open
                && Available(h, job.expected)
    {
      ghost var s0 := View(objects, blobKey, metaKey, w, Probe, []);
      if !job.overwrite {
        if faults.probe {
          Advance(h, job, s0, [], w, Fail, s0);
          Moved(objects, blobKey, metaKey, w, Probe, Finished(Failed), []);
          return Some(Failed), [] + [Write(w, Fail)];
        }
        if blobKey in objects {
          Advance(h, job, s0, [], w, Proceed, s0);
          Moved(objects, blobKey, metaKey, w, Probe, Finished(AlreadyExists), []);
          return Some(AlreadyExists), [] + [Write(w, Proceed)];
        }
      }
      Advance(h, job, s0, [], w, Proceed, s0);
      Moved(objects, blobKey, metaKey, w, Probe, Open, []);
      trace := [] + [Write(w, Proceed)];
      if faults.open {
        Advance(h, job, s0, trace, w, Fail, View(objects, blobKey, metaKey, w, Open, []));
        Moved(objects, blobKey, metaKey, w, Open, Finished(Failed), []);
        return Some(Failed), trace + [Write(w, Fail)];
      }
      Advance(h, job, s0, trace, w, Proceed, View(objects, blobKey, metaKey, w, Open, []));
      trace := trace + [Write(w, Proceed)];
      var available := AllAvailable(h, job.expected);
      refusal := if available then None else Some(Unsupported);
      Moved(objects, blobKey, metaKey, w, Open, if available then Stream([]) else Finished(Unsupported), []);
    }

    /** The conditional commit of the blob and the write of its sidecar. */
    method Commit(h: Hashes, blobKey: Str, metaKey: Str, w: Id, job: Job, ghost s0: State, ghost before: seq<Event>,
                  digests: map<Alg, Str>, faults: Faults)
      returns (result: Result, ghost trace: seq<Event>, ghost commits: seq<Id>)
      requires Valid(blobKey, metaKey) && (job.overwrite || blobKey !in objects)
      requires !faults.close.Read? && !faults.sidecar.Read?
      requires Meta(h.sha256(job.body), |job.body|, digests, job.annotations) == MetaOf(h, job, job.body)
      requires Records(h, MetaOf(h, job, job.body), job)
      requires Exec(Config(Only(w, job), h), s0, before) == View(objects, blobKey, metaKey, w, Close(job.body), [])
      modifies this
      ensures Valid(blobKey, metaKey)
      ensures objects - {blobKey, metaKey} == old(objects) - {blobKey, metaKey}
      ensures Exec(Config(Only(w, job), h), s0, trace) == View(objects, blobKey, metaKey, w, Finished(result), commits)
      ensures match result
              case Success(m) => m == MetaOf(h, job, job.body) &&
                objects == old(objects)[blobKey := Bytes(job.body)][metaKey := Envelope(m)]
              case r => r == Failed && LeftBehind(h, old(objects), objects, blobKey, metaKey, job, faults)
      ensures result.Success? ==> faults.close == Proceed && faults.sidecar == Proceed
    {
      trace, commits := before + [Write(w, faults.close)], [];
      Advance(h, job, s0, before, w, faults.close, View(objects, blobKey, metaKey, w, Close(job.body), []));
      if faults.close.Fail? {
        Moved(objects, blobKey, metaKey, w, Close(job.body), Finished(Failed), []);
        return Failed, trace, commits;
      }
      objects := objects[blobKey := Bytes(job.body)];
      commits := [w];
      if faults.close.FailApplied? {
        Moved(objects, blobKey, metaKey, w, Close(job.body), Finished(Failed), commits);
        return Failed, trace, commits;
      }
      Moved(objects, blobKey, metaKey, w, Close(job.body), WriteSidecar(job.body), commits);

      var meta := Meta(h.sha256(job.body), |job.body|, digests, job.annotations);
      Advance(h, job, s0, trace, w, faults.sidecar,
        View(objects, blobKey, metaKey, w, WriteSidecar(job.body), commits));
      trace := trace + [Write(w, faults.sidecar)];
      if faults.sidecar.Fail? {
        Moved(objects, blobKey, metaKey, w, WriteSidecar(job.body), Finished(Failed), commits);
        return Failed, trace, commits;
      }
      objects := objects[metaKey := Envelope(meta)];
      result := if faults.sidecar.FailApplied? then Failed else Success(meta);
      Moved(objects, blobKey, metaKey, w, WriteSidecar(job.body), Finished(result), commits);
    }
  }
}
