/** Hosted Maven uploads: checksum files are verified against their stored target before they are written, while
    other uploads run. */
module MavenUpload {
  import opened Runs
  import opened Text
  import opened Maven
  import Paths

  /** hex is the hexadecimal digest, fields the whitespace-separated fields of a checksum file. */
  datatype Env = Env(hex: (Algorithm, Str) -> Str, fields: Str -> seq<Str>)

  datatype Place = Place(level: Paths.Level, file: Str)

  type Files = map<Place, Str>

  datatype Status = Created | TargetMissing | Mismatch | AlreadyExists

  /** Hex digits have no case folding outside ASCII. */
  predicate VerifyChecksum(env: Env, alg: Algorithm, target: Str, declared: Str)
  {
    var want := env.fields(declared);
    want != [] && Lower(env.hex(alg, target)) == Lower(want[0])
  }

  predicate AllowOverwrite(always: bool, level: Paths.Level)
  {
    always || (level.Ver? && IsSnapshot(level.v))
  }

  /** Equal up to the case of ASCII letters. */
  predicate SameText(a: Str, b: Str)
  {
    |a| == |b| && forall i | 0 <= i < |a| ::
      a[i] == b[i] || ('A' <= a[i] <= 'Z' && b[i] as int == a[i] as int + 32)
                   || ('A' <= b[i] <= 'Z' && a[i] as int == b[i] as int + 32)
  }

  lemma SameTextIsSameLower(a: Str, b: Str)
    ensures SameText(a, b) <==> Lower(a) == Lower(b)
  {
    assert Lower(a) == Lower(b) <==> |a| == |b| && forall i | 0 <= i < |a| :: Lower(a)[i] == Lower(b)[i];
  }

  /** A checksum file is accepted if and only if it has a first field and that is the target's digest, in any case. */
  lemma VerifiesExactly(env: Env, alg: Algorithm, target: Str, declared: Str)
    ensures VerifyChecksum(env, alg, target, declared) <==>
      exists rest: seq<Str>, first: Str ::
        env.fields(declared) == [first] + rest && SameText(env.hex(alg, target), first)
  {
    var want, got := env.fields(declared), env.hex(alg, target);
    if want != [] {
      assert want == [want[0]] + want[1..];
      SameTextIsSameLower(got, want[0]);
    }
  }

  /** A stored file is replaced if and only if the handler always overwrites or the file belongs to a version whose
      name ends in "-snapshot", in whatever case. */
  lemma ReplacesExactly(always: bool, files: Files, p: Place, body: Str)
    requires p in files && body != files[p]
    ensures Write(always, files, p, body).0[p] == body <==>
      always || (p.level.Ver? && |p.level.v| >= 9 && Lower(p.level.v[|p.level.v| - 9..]) == "-snapshot")
  {
    if p.level.Ver? { SnapshotsExactly(p.level.v); }
  }

  /** Verification of an upload against what is stored now; None lets it through. */
  function Verify(env: Env, files: Files, p: Place, body: Str): Option<Status>
  {
    var (alg, target) := ChecksumTarget(p.file);
    if alg.None? then None
    else if Place(p.level, target) !in files then Some(TargetMissing)
    else if !VerifyChecksum(env, alg.value, files[Place(p.level, target)], body) then Some(Mismatch)
    else None
  }

  function Write(always: bool, files: Files, p: Place, body: Str): (Files, Status)
  {
    if p in files && !AllowOverwrite(always, p.level) then (files, AlreadyExists) else (files[p := body], Created)
  }

  class Handler {
    const always: bool
    var files: Files

    constructor (always: bool)
      ensures this.always == always && files == map[]
    {
      this.always, files := always, map[];
    }

    /** One upload with nothing else running. */
    method Upload(env: Env, r: Request, body: Str) returns (status: Status)
      requires r.checksum == ChecksumTarget(r.file).0 && r.target == ChecksumTarget(r.file).1
      modifies this
      ensures var p := Place(LevelOf(r), r.file);
        if Verify(env, old(files), p, body).Some? then
          files == old(files) && status == Verify(env, old(files), p, body).value
        else (files, status) == Write(always, old(files), p, body)
    {
      var level := LevelOf(r);
      if r.checksum.Some? {
        var target := Place(level, r.target);
        if target !in files {
          return TargetMissing;
        }
        if !VerifyChecksum(env, r.checksum.value, files[target], body) {
          return Mismatch;
        }
      }
      var p := Place(level, r.file);
      var overwrite := AllowOverwrite(always, level);
      if p in files && !overwrite {
        return AlreadyExists;
      }
      files := files[p := body];
      status := Created;
    }
  }

  // ---- Uploads that overlap ----

  type Id = nat

  datatype Upload = Upload(place: Place, body: Str)
  datatype Phase = NotStarted | Verified | Answered(status: Status) | Failed
  datatype State = State(files: Files, phases: map<Id, Phase>)
  datatype Config = Config(env: Env, always: bool, uploads: map<Id, Upload>)

  /** Fail ends an upload; a commit that fails may have landed. */
  datatype Event = Check(u: Id) | Commit(u: Id) | Fail(u: Id, landed: bool)

  function Init(c: Config): State
  {
    State(map[], map u | u in c.uploads :: NotStarted)
  }

  function Step(c: Config, s: State, e: Event): State
  {
    if e.u !in c.uploads || e.u !in s.phases then s
    else
      var up, phase := c.uploads[e.u], s.phases[e.u];
      match e
      case Check(u) =>
        if phase != NotStarted then s
        else
          var bad := Verify(c.env, s.files, up.place, up.body);
          s.(phases := s.phases[u := if bad.Some? then Answered(bad.value) else Verified])
      case Commit(u) =>
        if phase != Verified then s
        else
          var (files, status) := Write(c.always, s.files, up.place, up.body);
          State(files, s.phases[u := Answered(status)])
      case Fail(u, landed) =>
        if phase.Answered? || phase.Failed? then s
        else
          State(if landed && phase == Verified then Write(c.always, s.files, up.place, up.body).0 else s.files,
                s.phases[u := Failed])
  }

  function Steps(c: Config): (State, Event) -> State
  {
    (s, e) => Step(c, s, e)
  }

  function Exec(c: Config, s: State, events: seq<Event>): State
  {
    Fold(Steps(c), s, events)
  }

  // ---- Where nothing may be overwritten ----

  /** The target of a checksum body is stored beside it and hashes to its first field. */
  ghost predicate Attested(env: Env, files: Files, p: Place, body: Str)
  {
    var (alg, target) := ChecksumTarget(p.file);
    alg.Some? ==> Place(p.level, target) in files && VerifyChecksum(env, alg.value, files[Place(p.level, target)], body)
  }

  ghost predicate UploadOk(c: Config, files: Files, up: Upload, phase: Phase)
  {
    phase.Verified? && !AllowOverwrite(c.always, up.place.level) ==> Attested(c.env, files, up.place, up.body)
  }

  ghost predicate Inv(c: Config, s: State)
  {
    && (forall p <- s.files :: !AllowOverwrite(c.always, p.level) ==> Attested(c.env, s.files, p, s.files[p]))
    && (forall u <- s.phases :: u in c.uploads && UploadOk(c, s.files, c.uploads[u], s.phases[u]))
  }

  lemma StepKeepsInv(c: Config, s: State, e: Event)
    requires Inv(c, s)
    ensures Inv(c, Step(c, s, e))
  {
  }

  lemma {:induction false} ExecKeepsInv(c: Config, events: seq<Event>)
    ensures Inv(c, Exec(c, Init(c), events))
  {
    if events != [] {
      ExecKeepsInv(c, events[..|events| - 1]);
      StepKeepsInv(c, Exec(c, Init(c), events[..|events| - 1]), events[|events| - 1]);
    }
  }

  /** Wherever nothing may be overwritten, in every reachable state every stored checksum file has its target
      stored beside it, and its first field is the target's digest in any case, however uploads overlapped. */
  lemma StoredChecksumsAreTrue(c: Config, events: seq<Event>, level: Paths.Level, file: Str)
    requires !AllowOverwrite(c.always, level) && Place(level, file) in Exec(c, Init(c), events).files
    requires ChecksumTarget(file).0.Some?
    ensures var files, alg, target := Exec(c, Init(c), events).files, ChecksumTarget(file).0.value,
      ChecksumTarget(file).1;
      && Place(level, target) in files
      && c.env.fields(files[Place(level, file)]) != []
      && Lower(c.env.fields(files[Place(level, file)])[0]) == Lower(c.env.hex(alg, files[Place(level, target)]))
  {
    ExecKeepsInv(c, events);
    assert Attested(c.env, Exec(c, Init(c), events).files, Place(level, file),
      Exec(c, Init(c), events).files[Place(level, file)]);
  }

  /** What is stored where nothing may be overwritten stays. */
  lemma {:induction false} StoredStays(c: Config, before: seq<Event>, after: seq<Event>, p: Place)
    requires !AllowOverwrite(c.always, p.level) && p in Exec(c, Init(c), before).files
    ensures p in Exec(c, Init(c), before + after).files &&
      Exec(c, Init(c), before + after).files[p] == Exec(c, Init(c), before).files[p]
  {
    if after == [] {
      assert before + after == before;
    } else {
      StoredStays(c, before, after[..|after| - 1], p);
      assert (before + after)[..|before + after| - 1] == before + after[..|after| - 1];
    }
  }

  // ---- Exactly when a stored checksum can become false ----

  /** Some digest and some checksum file tell two bodies apart. */
  ghost predicate CanTell(env: Env)
  {
    exists alg, first, second, declared :: TellsApart(env, alg, first, second, declared)
  }

  ghost predicate TellsApart(env: Env, alg: Algorithm, first: Str, second: Str, declared: Str)
  {
    VerifyChecksum(env, alg, first, declared) && !VerifyChecksum(env, alg, second, declared)
  }

  /** A stored checksum at the level is not what its target hashes to. */
  ghost predicate Broken(env: Env, files: Files, level: Paths.Level)
  {
    exists file :: BrokenAt(env, files, Place(level, file))
  }

  ghost predicate BrokenAt(env: Env, files: Files, p: Place)
  {
    p in files && !Attested(env, files, p, files[p])
  }

  /** Where an accepted path of a repository stores. */
  ghost predicate Addressed(p: Place)
  {
    p == Place(Paths.Format, ARCHETYPE_FILE) || exists ns, dir: seq<Str>, file :: AddressedBy(p, ns, dir, file)
  }

  /** The request for a file of a directory, as accepted paths have them. */
  function AcceptedFile(ns: Str, dir: seq<Str>, file: Str): Option<Request>
  {
    if |dir| < 2 || !ValidSegment(file) || exists s <- dir :: !ValidSegment(s) then None else ParseFile(ns, dir, file)
  }

  predicate AddressedBy(p: Place, ns: Str, dir: seq<Str>, file: Str)
  {
    var r := AcceptedFile(ns, dir, file); r.Some? && p == Place(LevelOf(r.value), r.value.file)
  }

  ghost predicate AllAddressed(uploads: map<Id, Upload>)
  {
    forall u <- uploads :: Addressed(uploads[u].place)
  }

  /** Some uploads by paths, in some run, break a checksum at the level. */
  ghost predicate MayBreak(env: Env, always: bool, level: Paths.Level)
  {
    exists uploads: map<Id, Upload>, events: seq<Event> :: Breaks(env, always, uploads, events, level)
  }

  ghost predicate Breaks(env: Env, always: bool, uploads: map<Id, Upload>, events: seq<Event>, level: Paths.Level)
  {
    var c := Config(env, always, uploads);
    AllAddressed(uploads) && Broken(env, Exec(c, Init(c), events).files, level)
  }

  /** Overwriting or not, a stored or verified checksum has its target stored and was once right about some body. */
  ghost predicate OnceRight(env: Env, files: Files, p: Place, body: Str)
  {
    var (alg, target) := ChecksumTarget(p.file);
    alg.Some? ==> Place(p.level, target) in files && exists first :: VerifyChecksum(env, alg.value, first, body)
  }

  ghost predicate OnceInv(c: Config, s: State)
  {
    && (forall p <- s.files :: OnceRight(c.env, s.files, p, s.files[p]))
    && (forall u <- s.phases :: u in c.uploads
          && (s.phases[u].Verified? ==> OnceRight(c.env, s.files, c.uploads[u].place, c.uploads[u].body)))
  }

  lemma {:induction false} OnceHolds(c: Config, events: seq<Event>)
    ensures OnceInv(c, Exec(c, Init(c), events))
  {
    if events != [] {
      OnceHolds(c, events[..|events| - 1]);
    }
  }

  /** An upload that runs alone and is let through. */
  lemma UploadAlone(c: Config, s: State, u: Id)
    requires u in c.uploads && u in s.phases && s.phases[u].NotStarted?
    requires AllowOverwrite(c.always, c.uploads[u].place.level)
    requires Verify(c.env, s.files, c.uploads[u].place, c.uploads[u].body).None?
    ensures Exec(c, s, [Check(u), Commit(u)]) ==
      State(s.files[c.uploads[u].place := c.uploads[u].body], s.phases[u := Answered(Created)])
  {
    var s1 := Step(c, s, Check(u));
    assert s1 == State(s.files, s.phases[u := Verified]);
    assert s1.phases[u := Answered(Created)] == s.phases[u := Answered(Created)];
    Play(Steps(c), s, [Check(u), Commit(u)], [s, s1, Step(c, s1, Commit(u))]);
  }

  /** Where files may be overwritten, in whatever state a checksum is stored, replacing its target by a body it
      does not fit leaves it false. */
  lemma ReplacingBreaksChecksums(c: Config, before: seq<Event>, u: Id, sum: Place)
    requires var s := Exec(c, Init(c), before);
      && sum in s.files && u in c.uploads && u in s.phases && s.phases[u].NotStarted?
      && ChecksumTarget(sum.file).0.Some? && c.uploads[u].place == Place(sum.level, ChecksumTarget(sum.file).1) != sum
      && !VerifyChecksum(c.env, ChecksumTarget(sum.file).0.value, c.uploads[u].body, s.files[sum])
    requires AllowOverwrite(c.always, sum.level) && ChecksumTarget(c.uploads[u].place.file).0.None?
    ensures BrokenAt(c.env, Exec(c, Init(c), before + [Check(u), Commit(u)]).files, sum)
  {
    UploadAlone(c, Exec(c, Init(c), before), u);
    Concat(Steps(c), Init(c), before, [Check(u), Commit(u)]);
  }

  /** A file, its checksum, and another body for the file. */
  function Three(level: Paths.Level, target: Str, alg: Algorithm, first: Str, second: Str,
      declared: Str): map<Id, Upload>
  {
    map[0 := Upload(Place(level, target), first), 1 := Upload(Place(level, target + Suffix(alg)), declared),
        2 := Upload(Place(level, target), second)]
  }

  /** The file and then its checksum are stored. */
  lemma ChecksumsGetStored(c: Config, level: Paths.Level, target: Str, alg: Algorithm, first: Str, second: Str,
      declared: Str)
    requires c.uploads == Three(level, target, alg, first, second, declared) && AllowOverwrite(c.always, level)
    requires ChecksumTarget(target).0.None? && VerifyChecksum(c.env, alg, first, declared)
    ensures var s, sum := Exec(c, Init(c), [Check(0), Commit(0)] + [Check(1), Commit(1)]),
      Place(level, target + Suffix(alg));
      sum in s.files && s.files[sum] == declared && 2 in s.phases && s.phases[2].NotStarted?
  {
    Suffixed(target, alg);
    var s0 := Init(c);
    UploadAlone(c, s0, 0);
    var s1 := Exec(c, s0, [Check(0), Commit(0)]);
    assert s1.files == map[Place(level, target) := first];
    UploadAlone(c, s1, 1);
    Concat(Steps(c), s0, [Check(0), Commit(0)], [Check(1), Commit(1)]);
  }

  /** A file of a directory that is no checksum itself, whose checksums the same directory stores beside it. */
  function SomeTarget(r: Request): Str
  {
    if r.kind == Artifact then "a" else METADATA_FILE
  }

  lemma MetadataStarts(file: Str)
    requires MetadataFile(file)
    ensures METADATA_FILE <= file
  {
    ChecksumInFinds(ORDER, file);
  }

  lemma TargetIsPlain(ns: Str, dir: seq<Str>, file: Str, r: Request)
    requires AcceptedFile(ns, dir, file) == Some(r)
    ensures ValidSegment(SomeTarget(r)) && ChecksumTarget(SomeTarget(r)).0.None?
  {
    if r.kind == Artifact {
      ChecksumInFinds(ORDER, "a");
    } else {
      NotAChecksum();
      MetadataStarts(file);
    }
  }

  lemma SuffixIsValid(file: Str, alg: Algorithm)
    requires ValidSegment(file)
    ensures ValidSegment(file + Suffix(alg))
  {
    assert forall i | 0 <= i < |Suffix(alg)| :: SegmentByte(Suffix(alg)[i]);
  }

  lemma TargetsAreAddressed(ns: Str, dir: seq<Str>, file: Str, r: Request, alg: Algorithm)
    requires AcceptedFile(ns, dir, file) == Some(r)
    ensures Addressed(Place(LevelOf(r), SomeTarget(r))) && Addressed(Place(LevelOf(r), SomeTarget(r) + Suffix(alg)))
  {
    var target := SomeTarget(r);
    TargetIsPlain(ns, dir, file, r);
    SuffixIsValid(target, alg);
    TargetKinds(r, alg);
    SameKindSameLevel(ns, dir, file, r, target);
    SameKindSameLevel(ns, dir, file, r, target + Suffix(alg));
    assert AddressedBy(Place(LevelOf(r), target), ns, dir, target);
    assert AddressedBy(Place(LevelOf(r), target + Suffix(alg)), ns, dir, target + Suffix(alg));
  }

  lemma TargetKinds(r: Request, alg: Algorithm)
    ensures MetadataFile(SomeTarget(r)) <==> r.kind != Artifact
    ensures MetadataFile(SomeTarget(r) + Suffix(alg)) <==> r.kind != Artifact
  {
    Suffixed(SomeTarget(r), alg);
    NotAChecksum();
    ChecksumInFinds(ORDER, "a");
    assert |"a" + Suffix(alg)| < |METADATA_FILE|;
  }

  /** The run that breaks a checksum by a second upload of its target. */
  lemma ThreeUploadsBreak(c: Config, level: Paths.Level, target: Str, alg: Algorithm, first: Str, second: Str,
      declared: Str)
    requires c.uploads == Three(level, target, alg, first, second, declared) && AllowOverwrite(c.always, level)
    requires ChecksumTarget(target).0.None? && TellsApart(c.env, alg, first, second, declared)
    ensures Broken(c.env,
      Exec(c, Init(c), [Check(0), Commit(0)] + [Check(1), Commit(1)] + [Check(2), Commit(2)]).files, level)
  {
    var before := [Check(0), Commit(0)] + [Check(1), Commit(1)];
    Suffixed(target, alg);
    ChecksumsGetStored(c, level, target, alg, first, second, declared);
    ReplacingBreaksChecksums(c, before, 2, Place(level, target + Suffix(alg)));
  }

  lemma ThreeAddressed(level: Paths.Level, target: Str, alg: Algorithm, first: Str, second: Str, declared: Str)
    requires Addressed(Place(level, target)) && Addressed(Place(level, target + Suffix(alg)))
    ensures AllAddressed(Three(level, target, alg, first, second, declared))
  {
  }

  lemma OverwritingMayBreak(env: Env, always: bool, ns: Str, dir: seq<Str>, file: Str, r: Request,
                            alg: Algorithm, first: Str, second: Str, declared: Str)
    requires AcceptedFile(ns, dir, file) == Some(r)
    requires AllowOverwrite(always, LevelOf(r)) && TellsApart(env, alg, first, second, declared)
    ensures MayBreak(env, always, LevelOf(r))
  {
    TargetIsPlain(ns, dir, file, r);
    TargetsAreAddressed(ns, dir, file, r, alg);
    var uploads := Three(LevelOf(r), SomeTarget(r), alg, first, second, declared);
    ThreeAddressed(LevelOf(r), SomeTarget(r), alg, first, second, declared);
    ThreeUploadsBreak(Config(env, always, uploads), LevelOf(r), SomeTarget(r), alg, first, second, declared);
    BreaksOnce(env, always, uploads, [Check(0), Commit(0)] + [Check(1), Commit(1)] + [Check(2), Commit(2)], LevelOf(r));
  }

  lemma BreaksOnce(env: Env, always: bool, uploads: map<Id, Upload>, events: seq<Event>, level: Paths.Level)
    requires Breaks(env, always, uploads, events, level)
    ensures MayBreak(env, always, level)
  {
  }

  lemma BreakingNeedsOverwriting(env: Env, always: bool, uploads: map<Id, Upload>, events: seq<Event>,
      level: Paths.Level)
    requires Breaks(env, always, uploads, events, level)
    ensures AllowOverwrite(always, level) && CanTell(env)
  {
    var c := Config(env, always, uploads);
    var files := Exec(c, Init(c), events).files;
    var file :| BrokenAt(env, files, Place(level, file));
    ExecKeepsInv(c, events);
    OnceHolds(c, events);
    assert OnceRight(env, files, Place(level, file), files[Place(level, file)]);
    var (alg, target) := ChecksumTarget(file);
    var first :| VerifyChecksum(env, alg.value, first, files[Place(level, file)]);
    assert TellsApart(env, alg.value, first, files[Place(level, target)], files[Place(level, file)]);
  }

  /** Among the files of any accepted path's directory a stored checksum can become false, for some uploads by
      paths in some run, if and only if files there may be overwritten and some digest tells two bodies apart. */
  lemma BreakingExactly(env: Env, always: bool, ns: Str, dir: seq<Str>, file: Str, r: Request)
    requires AcceptedFile(ns, dir, file) == Some(r)
    ensures MayBreak(env, always, LevelOf(r)) <==> AllowOverwrite(always, LevelOf(r)) && CanTell(env)
  {
    var level := LevelOf(r);
    if uploads: map<Id, Upload>, events: seq<Event> :| Breaks(env, always, uploads, events, level) {
      BreakingNeedsOverwriting(env, always, uploads, events, level);
    }
    if AllowOverwrite(always, level) && CanTell(env) {
      var alg, first, second, declared :| TellsApart(env, alg, first, second, declared);
      OverwritingMayBreak(env, always, ns, dir, file, r, alg, first, second, declared);
    }
  }

  // ---- Checksums whose target no path stores ----

  /** Every accepted path stores at an addressed place. */
  lemma PathsAreAddressed(p: Str, r: Request)
    requires ParsePath(p) == Some(r)
    ensures Addressed(Place(LevelOf(r), r.file))
  {
    var (ns, segs) := Decode(p).value;
    DecodedAreValid(p);
    if segs != [ARCHETYPE_FILE] {
      var n := |segs|;
      ParsedFile(ns, segs[..n - 1], segs[n - 1]);
      assert AddressedBy(Place(LevelOf(r), r.file), ns, segs[..n - 1], segs[n - 1]);
    }
  }

  lemma {:induction false} StoredIsAddressed(c: Config, events: seq<Event>)
    requires AllAddressed(c.uploads)
    ensures forall p <- Exec(c, Init(c), events).files :: Addressed(p)
  {
    if events != [] {
      var s, e := Exec(c, Init(c), events[..|events| - 1]), events[|events| - 1];
      StoredIsAddressed(c, events[..|events| - 1]);
      forall p <- Step(c, s, e).files ensures Addressed(p) {
        assert p in s.files || p == c.uploads[e.u].place;
      }
    }
  }

  /** Uploading a checksum of a checksum of an artifact's metadata is refused for want of its target, whatever
      was uploaded before. */
  lemma StrayChecksumsAreRefused(c: Config, events: seq<Event>, r: Request, body: Str)
    requires AllAddressed(c.uploads) && Stray(r) && (r.checksum, r.target) == ChecksumTarget(r.file)
    ensures Verify(c.env, Exec(c, Init(c), events).files, Place(LevelOf(r), r.file), body) == Some(TargetMissing)
  {
    StoredIsAddressed(c, events);
  }
}
