/** No get of the policy cache gets stuck: while the stored spec can be loaded, each can be answered. */
module PolicyProgress {
  import opened Runs
  import opened Text
  import opened PolicyCache

  /** The steps a get has before it, its own and those of the flight it waits for. */
  function StepsLeft(f: Flight, g: Getter): nat
  {
    match g
    case Missed(_, _) => 5
    case Waiting(_, _) =>
      (match f
       case Entered(_) => 4
       case Loading(_) => 3
       case Read(_, _, _, _) => 2
       case _ => 1)
    case _ => 0
  }

  /** The next of them when nothing fails. */
  function NextEvent(c: Config, s: State, g: Id): Event
    requires g in s.getters
  {
    if s.getters[g].Missed? then if c.ttl > 0 then Enter(g) else Direct(g)
    else
      match s.name.flight
      case Entered(_) => LookAgain
      case Loading(_) => ReadCatalog
      case Read(_, _, _, _) => Insert(0)
      case _ => Deliver
  }

  lemma NextEventHelps(c: Config, s: State, g: Id)
    requires Inv(c, s) && Usable(c, s.name.stored) && g in s.getters
    requires s.getters[g].Missed? || s.getters[g].Waiting?
    ensures var s' := Step(c, s, NextEvent(c, s, g));
      && g in s'.getters && StepsLeft(s'.name.flight, s'.getters[g]) < StepsLeft(s.name.flight, s.getters[g])
      && (s'.getters[g].Missed? || s'.getters[g].Waiting? || s'.getters[g].Got?)
      && s'.name.stored == s.name.stored && s'.now == s.now
  {
    assert GetterOk(s.name, s.getters[g]);
  }

  /** While the stored spec can be loaded, every get that has started and not failed can be answered at once. */
  lemma {:induction false} GetsAreAnswered(c: Config, s: State, g: Id) returns (more: seq<Event>)
    requires Inv(c, s) && Usable(c, s.name.stored) && g in s.getters
    requires s.getters[g].Missed? || s.getters[g].Waiting? || s.getters[g].Got?
    ensures var s' := Exec(c, s, more); g in s'.getters && s'.getters[g].Got? && s'.now == s.now
    decreases StepsLeft(s.name.flight, s.getters[g])
  {
    if s.getters[g].Got? {
      more := [];
    } else {
      var e := NextEvent(c, s, g);
      NextEventHelps(c, s, g);
      StepKeepsInv(c, s, e);
      var rest := GetsAreAnswered(c, Step(c, s, e), g);
      Play(Steps(c), s, [e], [s, Step(c, s, e)]);
      Concat(Steps(c), s, [e], rest);
      more := [e] + rest;
    }
  }

  /** With caching off a get is answered with the spec the catalog has. */
  lemma DirectGetsAreCurrent(c: Config, s: State, g: Id)
    requires c.ttl <= 0 && Usable(c, s.name.stored) && g in s.getters && s.getters[g].Idle?
    ensures var s' := Exec(c, s, [Start(g), Direct(g)]);
      g in s'.getters && s'.getters[g] == Got(s.name.completed, s.now, s.name.stored, |s.name.past|, false)
  {
    var s1 := Step(c, s, Start(g));
    Play(Steps(c), s, [Start(g), Direct(g)], [s, s1, Step(c, s1, Direct(g))]);
  }

  /** A get fails only by a load that fails, its own or that of the flight it waits for; a failed load leaves the
      cache as it was and fails everyone who waits for it. */
  lemma FailuresAreLoads(c: Config, s: State, e: Event, g: Id)
    requires g in s.getters && !s.getters[g].Failed?
    ensures var s' := Step(c, s, e);
      && g in s'.getters
      && (s'.getters[g].Failed? ==>
         (e.LoadFails? && s.name.flight.Loading? && s.getters[g].Waiting?)
         || (e == Direct(g) && !Usable(c, s.name.stored)))
      && (e.LoadFails? && s.name.flight.Loading? ==>
         s'.name == s.name.(flight := NoFlight) && (s.getters[g].Waiting? ==> s'.getters[g].Failed?))
  {
  }

  /** Only a change that was reported as written runs its hook and completes. */
  lemma {:induction false} OnlyReportedChangesComplete(c: Config, events: seq<Event>, w: Id)
    ensures var s := Exec(c, Init(c), events);
      w in s.writers && (s.writers[w].Landed? || s.writers[w].Completed?) ==> Land(w, true) in events
  {
    if events != [] {
      OnlyReportedChangesComplete(c, events[..|events| - 1], w);
    }
  }
}
