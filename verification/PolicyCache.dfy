/** The per-namespace policy cache of the data plane, and its protocol with catalog changes that run while a
    policy is being loaded. Names do not interact, so the protocol follows one namespace. */
module PolicyCache {
  import opened Runs
  import opened Text

  /** The stored spec of a namespace; None is a missing namespace, cached like any other answer. */
  type Spec = Option<string>

  datatype Entry = Entry(spec: Spec, expires: int)

  // ---- The three critical sections, on one name's slot ----

  function Fresh(slot: Option<Entry>, now: int): Option<Spec>
  {
    if slot.Some? && now < slot.value.expires then Some(slot.value.spec) else None
  }

  function Loaded(spec: Spec, now: int, ttl: int): Option<Entry>
  {
    Some(Entry(spec, now + ttl))
  }

  class Cache {
    const ttl: int
    var entries: map<string, Entry>

    constructor (ttl: int)
      ensures this.ttl == ttl && forall n :: Slot(n) == None
    {
      this.ttl, entries := ttl, map[];
    }

    ghost function Slot(name: string): Option<Entry>
      reads this
    {
      if name in entries then Some(entries[name]) else None
    }

    method FreshEntry(name: string, now: int) returns (hit: Option<Spec>)
      ensures hit == Fresh(Slot(name), now)
    {
      if name in entries && now < entries[name].expires {
        return Some(entries[name].spec);
      }
      hit := None;
    }

    method InsertLoaded(name: string, spec: Spec, now: int)
      modifies this
      ensures Slot(name) == Loaded(spec, now, ttl)
      ensures forall n :: n != name ==> Slot(n) == old(Slot(n))
    {
      entries := entries[name := Entry(spec, now + ttl)];
    }

    /** A get with nothing else running; read is what the load finds, None its failure, which is not cached. */
    method Get(name: string, now: int, read: Option<Spec>) returns (r: Option<Spec>)
      modifies this
      ensures r == if ttl > 0 && Fresh(old(Slot(name)), now).Some? then Fresh(old(Slot(name)), now) else read
      ensures Slot(name) ==
        if ttl > 0 && Fresh(old(Slot(name)), now).None? && read.Some? then Loaded(read.value, now, ttl)
        else old(Slot(name))
      ensures forall n :: n != name ==> Slot(n) == old(Slot(n))
    {
      if ttl <= 0 {
        return read;
      }
      var hit := FreshEntry(name, now);
      if hit.Some? {
        return hit;
      }
      if read.None? {
        return None;
      }
      InsertLoaded(name, read.value, now);
      r := read;
    }

    method Invalidate(name: string)
      modifies this
      ensures Slot(name) == None
      ensures forall n :: n != name ==> Slot(n) == old(Slot(n))
    {
      entries := entries - {name};
    }
  }

  // ---- The protocol of one namespace ----

  type Id = nat

  /** The one call a singleflight group lets run, from its entering the group at since until the group lets go of
      it; whoever enters in between joins it. It looks at the cache again, loads on a miss, and is ready once it
      has an answer. The answer has overlapped a change when one landed after it was read and before the group let
      go, or, for an entry found by the second look, was between landing and its hook at that look. */
  datatype Flight =
    | NoFlight
    | Entered(since: int)
    | Loading(since: int)
    | Read(since: int, spec: Spec, version: nat, overlapped: bool)
    | Ready(since: int, spec: Spec, version: nat, overlapped: bool)

  /** Where the cached answer came from; it has missed a change that landed since and whose write failed. */
  datatype Origin = Origin(version: nat, overlapped: bool, missed: bool)

  /** A get; floor is the newest change completed when it started. */
  datatype Getter =
    | Idle
    | Missed(floor: nat, since: int)
    | Waiting(floor: nat, since: int)
    | Got(floor: nat, since: int, spec: Spec, version: nat, overlapped: bool)
    | Failed(floor: nat, since: int)

  /** A catalog change: the write lands, then the hook runs, then the call returns. A write that fails, whether
      it landed or not, runs no hook. */
  datatype Writer = NotStarted | Landed(version: nat) | Completed(version: nat) | Refused

  /** stored is the catalog's current spec and past the ones before it; the number of those is the version. */
  datatype Name =
    Name(stored: Spec, past: seq<Spec>, completed: nat, slot: Option<Entry>, origin: Origin, flight: Flight)

  datatype State = State(now: int, name: Name, getters: map<Id, Getter>, writers: map<Id, Writer>)

  /** usable says which stored specs decode and compile; a spec that does not is an error and not cached. */
  datatype Config = Config(ttl: int, initial: Spec, usable: string -> bool, gets: set<Id>, changes: map<Id, Spec>)

  /** An insertion happens some time, late, after the load stamped the entry with its expiry. */
  datatype Event =
    | Tick(d: nat)
    | Start(g: Id)
    | Enter(g: Id)
    | Direct(g: Id)
    | LookAgain
    | ReadCatalog
    | LoadFails
    | Insert(late: nat)
    | Deliver
    | Land(w: Id, reported: bool)
    | Refuse(w: Id)
    | Notify(w: Id)

  function SpecAt(n: Name, version: nat): Spec
  {
    if version < |n.past| then n.past[version] else n.stored
  }

  predicate Usable(c: Config, spec: Spec)
  {
    spec.None? || c.usable(spec.value)
  }

  /** The first look, outside the singleflight group. */
  function Lookup(c: Config, n: Name, now: int): Getter
  {
    var hit := Fresh(n.slot, now);
    if c.ttl > 0 && hit.Some? then Got(n.completed, now, hit.value, n.origin.version, n.origin.overlapped)
    else Missed(n.completed, now)
  }

  /** Entering the group: join the call in it, or become it. */
  function EnterGroup(n: Name, now: int): Name
  {
    if n.flight.NoFlight? then n.(flight := Entered(now)) else n
  }

  /** With caching off every get loads for itself. */
  function LoadAlone(c: Config, n: Name, g: Getter): Getter
    requires g.Missed?
  {
    if Usable(c, n.stored) then Got(g.floor, g.since, n.stored, |n.past|, false) else Failed(g.floor, g.since)
  }

  /** The second look, inside the group: a hit is the answer, but the group has yet to let go. */
  function SecondLook(n: Name, now: int, hookPending: bool): Flight
    requires n.flight.Entered?
  {
    var hit := Fresh(n.slot, now);
    if hit.Some? then Ready(n.flight.since, hit.value, n.origin.version, n.origin.overlapped || hookPending)
    else Loading(n.flight.since)
  }

  function InsertEntry(c: Config, n: Name, stamped: int): Name
    requires n.flight.Read?
  {
    var f := n.flight;
    n.(slot := Loaded(f.spec, stamped, c.ttl), origin := Origin(f.version, f.overlapped, false),
       flight := Ready(f.since, f.spec, f.version, f.overlapped))
  }

  /** The flight's own steps. */
  function FlightStep(c: Config, n: Name, now: int, hookPending: bool, e: Event): Name
  {
    match e
    case LookAgain => if n.flight.Entered? then n.(flight := SecondLook(n, now, hookPending)) else n
    case ReadCatalog =>
      if n.flight.Loading? && Usable(c, n.stored) then
        n.(flight := Read(n.flight.since, n.stored, |n.past|, false))
      else n
    case Insert(late) => if n.flight.Read? then InsertEntry(c, n, now - late) else n
    case _ => n
  }

  /** The group lets go of the flight; everyone who joined it shares its outcome. */
  function Settle(f: Flight, g: Getter): Getter
  {
    if !g.Waiting? then g
    else if f.Ready? then Got(g.floor, g.since, f.spec, f.version, f.overlapped)
    else Failed(g.floor, g.since)
  }

  function LandChange(n: Name, spec: Spec, reported: bool): Name
  {
    n.(stored := spec, past := n.past + [n.stored], origin := if reported then n.origin else n.origin.(missed := true),
       flight := if n.flight.Read? || n.flight.Ready? then n.flight.(overlapped := true) else n.flight)
  }

  /** The hook drops the entry; only then does the change return to its caller. */
  function Complete(n: Name, version: nat): Name
  {
    n.(slot := None, completed := if version > n.completed then version else n.completed)
  }

  function LetGo(s: State): State
  {
    s.(name := s.name.(flight := NoFlight), getters := map g | g in s.getters :: Settle(s.name.flight, s.getters[g]))
  }

  /** No change is between landing and running its hook. */
  predicate Quiet(s: State)
  {
    forall w <- s.writers :: !s.writers[w].Landed?
  }

  function Step(c: Config, s: State, e: Event): State
  {
    match e
    case Tick(d) => s.(now := s.now + d)
    case Start(g) =>
      if g in s.getters && s.getters[g].Idle? then s.(getters := s.getters[g := Lookup(c, s.name, s.now)]) else s
    case Enter(g) =>
      if c.ttl > 0 && g in s.getters && s.getters[g].Missed? then
        s.(name := EnterGroup(s.name, s.now),
           getters := s.getters[g := Waiting(s.getters[g].floor, s.getters[g].since)])
      else s
    case Direct(g) =>
      if c.ttl <= 0 && g in s.getters && s.getters[g].Missed? then
        s.(getters := s.getters[g := LoadAlone(c, s.name, s.getters[g])])
      else s
    case LookAgain => s.(name := FlightStep(c, s.name, s.now, !Quiet(s), e))
    case ReadCatalog => s.(name := FlightStep(c, s.name, s.now, !Quiet(s), e))
    case Insert(_) => s.(name := FlightStep(c, s.name, s.now, !Quiet(s), e))
    case LoadFails => if s.name.flight.Loading? then LetGo(s) else s
    case Deliver => if s.name.flight.Ready? then LetGo(s) else s
    case Land(w, reported) =>
      if w in c.changes && w in s.writers && s.writers[w].NotStarted? then
        s.(name := LandChange(s.name, c.changes[w], reported),
           writers := s.writers[w := if reported then Landed(|s.name.past| + 1) else Refused])
      else s
    case Refuse(w) =>
      if w in s.writers && s.writers[w].NotStarted? then s.(writers := s.writers[w := Refused]) else s
    case Notify(w) =>
      if w in s.writers && s.writers[w].Landed? then
        s.(name := Complete(s.name, s.writers[w].version), writers := s.writers[w := Completed(s.writers[w].version)])
      else s
  }

  function Untouched(c: Config): Name
  {
    Name(c.initial, [], 0, None, Origin(0, false, false), NoFlight)
  }

  function Init(c: Config): State
  {
    State(0, Untouched(c), map g | g in c.gets :: Idle, map w | w in c.changes :: NotStarted)
  }

  function Steps(c: Config): (State, Event) -> State
  {
    (s, e) => Step(c, s, e)
  }

  function Exec(c: Config, s: State, events: seq<Event>): State
  {
    Fold(Steps(c), s, events)
  }

  // ---- The invariant ----

  /** A load is behind the catalog exactly when a change overlapped it; an answer or an entry that none
      overlapped holds every completed change. */
  ghost predicate NameOk(n: Name)
  {
    && n.completed <= |n.past|
    && (n.flight.Read? || n.flight.Ready? ==>
      n.flight.version <= |n.past| && n.flight.spec == SpecAt(n, n.flight.version))
    && (n.flight.Read? ==> (n.flight.overlapped <==> n.flight.version < |n.past|))
    && (n.flight.Ready? && !n.flight.overlapped ==> n.completed <= n.flight.version)
    && (n.slot.Some? ==>
      && n.origin.version <= |n.past| && n.slot.value.spec == SpecAt(n, n.origin.version)
      && (n.origin.overlapped || n.origin.missed ==> n.origin.version < |n.past|)
      && (!n.origin.overlapped ==> n.completed <= n.origin.version))
  }

  ghost predicate TimesOk(c: Config, now: int, n: Name)
  {
    && (n.slot.Some? ==> n.slot.value.expires <= now + c.ttl)
    && (!n.flight.NoFlight? ==> c.ttl > 0 && n.flight.since <= now)
  }

  ghost predicate GetterOk(n: Name, g: Getter)
  {
    match g
    case Missed(floor, _) => floor <= n.completed
    case Waiting(floor, _) => floor <= n.completed && !n.flight.NoFlight?
    case Got(floor, _, spec, v, overlapped) => v <= |n.past| && spec == SpecAt(n, v) && (floor <= v || overlapped)
    case _ => true
  }

  ghost predicate WriterOk(n: Name, w: Writer)
  {
    match w
    case Landed(v) => v <= |n.past| && (n.flight.Ready? && !n.flight.overlapped ==> v <= n.flight.version)
    case Completed(v) => v <= n.completed
    case _ => true
  }

  /** An entry behind the catalog for no other reason awaits the hook of a change that landed after it. */
  ghost predicate HookPending(s: State)
  {
    var n := s.name;
    n.slot.Some? && !n.origin.overlapped && !n.origin.missed && n.origin.version < |n.past| ==>
      exists w <- s.writers :: s.writers[w].Landed?
  }

  ghost predicate GettersOk(s: State)
  {
    forall g <- s.getters :: GetterOk(s.name, s.getters[g])
  }

  ghost predicate WritersOk(s: State)
  {
    (forall w <- s.writers :: WriterOk(s.name, s.writers[w])) && HookPending(s)
  }

  ghost predicate Inv(c: Config, s: State)
  {
    NameOk(s.name) && TimesOk(c, s.now, s.name) && GettersOk(s) && WritersOk(s)
  }

  lemma EnterKeepsInv(c: Config, s: State, g: Id)
    requires Inv(c, s)
    ensures Inv(c, Step(c, s, Enter(g)))
  {
    if g in s.getters { assert GetterOk(s.name, s.getters[g]); }
  }

  lemma LetGoKeepsInv(c: Config, s: State)
    requires Inv(c, s)
    ensures Inv(c, LetGo(s))
  {
    forall g <- s.getters ensures GetterOk(LetGo(s).name, LetGo(s).getters[g]) {
      assert GetterOk(s.name, s.getters[g]);
    }
  }

  lemma LandKeepsInv(c: Config, s: State, w: Id, reported: bool)
    requires Inv(c, s) && w in c.changes && w in s.writers && s.writers[w].NotStarted?
    ensures Inv(c, Step(c, s, Land(w, reported)))
  {
    var s' := Step(c, s, Land(w, reported));
    assert reported ==> s'.writers[w].Landed?;
  }

  lemma StepKeepsInv(c: Config, s: State, e: Event)
    requires Inv(c, s)
    ensures Inv(c, Step(c, s, e))
  {
    match e
    case Tick(_) =>
    case Start(g) =>
    case Enter(g) => EnterKeepsInv(c, s, g);
    case Direct(g) =>
    case LookAgain =>
    case ReadCatalog =>
    case Insert(_) =>
    case LoadFails => LetGoKeepsInv(c, s);
    case Deliver => LetGoKeepsInv(c, s);
    case Land(w, reported) =>
      if w in c.changes && w in s.writers && s.writers[w].NotStarted? {
        LandKeepsInv(c, s, w, reported);
      }
    case Refuse(w) => RefuseKeepsInv(c, s, w);
    case Notify(_) =>
  }

  lemma RefuseKeepsInv(c: Config, s: State, w: Id)
    requires Inv(c, s)
    ensures Inv(c, Step(c, s, Refuse(w)))
  {
    var s' := Step(c, s, Refuse(w));
    if x :| x in s.writers && s.writers[x].Landed? {
      assert s'.writers[x].Landed?;
    }
  }

  lemma {:induction false} ExecKeepsInv(c: Config, events: seq<Event>)
    ensures Inv(c, Exec(c, Init(c), events))
  {
    if events != [] {
      ExecKeepsInv(c, events[..|events| - 1]);
      StepKeepsInv(c, Exec(c, Init(c), events[..|events| - 1]), events[|events| - 1]);
    }
  }

  // ---- What every run guarantees ----

  /** While no change is under way, a cached entry is the catalog's newest exactly when no change landed
      between the read and the insertion of the load that made it, and none landed since whose write failed. */
  lemma EntryIsCurrentExactly(c: Config, events: seq<Event>)
    requires var s := Exec(c, Init(c), events); Quiet(s) && s.name.slot.Some?
    ensures var n := Exec(c, Init(c), events).name;
      && (n.origin.version == |n.past| <==> !n.origin.overlapped && !n.origin.missed)
      && (!n.origin.overlapped && !n.origin.missed ==> n.slot.value.spec == n.stored)
  {
    ExecKeepsInv(c, events);
  }

  predicate KeepsApart(s: State, e: Event)
  {
    e.Land? ==> e.reported && !s.name.flight.Read?
  }

  /** The run has no change landing while a load is between its read and its insertion, and none landing
      unreported. */
  ghost predicate Apart(c: Config, events: seq<Event>)
  {
    Throughout(Steps(c), KeepsApart, Init(c), events)
  }

  ghost predicate NeverOverlapped(n: Name)
  {
    (n.flight.Read? ==> !n.flight.overlapped) && !n.origin.overlapped && !n.origin.missed
  }

  lemma {:induction false} ApartRunsNeverOverlap(c: Config, events: seq<Event>)
    requires Apart(c, events)
    ensures NeverOverlapped(Exec(c, Init(c), events).name)
  {
    if events != [] {
      ApartRunsNeverOverlap(c, events[..|events| - 1]);
    }
  }

  /** Loads apart from changes make the cache transparent: whenever no change is under way, a cached entry,
      a missing namespace's included, is what a load would read now. */
  lemma ApartRunsAreTransparent(c: Config, events: seq<Event>)
    requires Apart(c, events)
    requires var s := Exec(c, Init(c), events); Quiet(s) && s.name.slot.Some?
    ensures var n := Exec(c, Init(c), events).name; n.slot.value.spec == n.stored
  {
    ApartRunsNeverOverlap(c, events);
    EntryIsCurrentExactly(c, events);
  }

  // ---- Gets that start after a change has completed ----

  ghost predicate StartedAt(s: State, g: Id, floor: nat, since: int)
  {
    g in s.getters && !s.getters[g].Idle? && s.getters[g].floor == floor && s.getters[g].since == since
  }

  lemma {:induction false} StartedStays(c: Config, s: State, after: seq<Event>, g: Id, floor: nat, since: int)
    requires StartedAt(s, g, floor, since)
    ensures StartedAt(Exec(c, s, after), g, floor, since)
  {
    if after != [] {
      StartedStays(c, s, after[..|after| - 1], g, floor, since);
    }
  }

  /** Change w has returned and get g has not started. */
  ghost predicate ReturnedBefore(s: State, w: Id, g: Id)
  {
    w in s.writers && s.writers[w].Completed? && g in s.getters && s.getters[g].Idle?
  }

  /** A get that starts after a change has returned is answered with that change's spec or a later one, unless
      the flight that answers it overlapped a change, or the load behind the entry it found did. */
  lemma CompletedChangesAreSeen(c: Config, before: seq<Event>, after: seq<Event>, w: Id, g: Id)
    requires ReturnedBefore(Exec(c, Init(c), before), w, g)
    ensures var s := Exec(c, Init(c), before + [Start(g)] + after);
      && g in s.getters
      && (s.getters[g].Got? ==>
        && s.getters[g].spec == SpecAt(s.name, s.getters[g].version)
        && (Exec(c, Init(c), before).writers[w].version <= s.getters[g].version || s.getters[g].overlapped))
  {
    var started := before + [Start(g)];
    var s0, s1 := Exec(c, Init(c), before), Exec(c, Init(c), started);
    ExecKeepsInv(c, before);
    assert WriterOk(s0.name, s0.writers[w]);
    assert started[..|started| - 1] == before;
    assert s1 == Step(c, s0, Start(g));
    StartedStays(c, s1, after, g, s0.name.completed, s0.now);
    Concat(Steps(c), Init(c), started, after);
    ExecKeepsInv(c, started + after);
    var s := Exec(c, Init(c), started + after);
    assert GetterOk(s.name, s.getters[g]);
  }
}
