/** The proxy's allow/deny/delay filter chain: validation, decisions, and the proxies' habit of resolving a
    publish time only when a decision waits for it. */
module Filter {
  import opened Text

  const MAX_DURATION: int := 0x7fff_ffff_ffff_ffff
  const MIN_DURATION: int := -0x8000_0000_0000_0000

  /** A signed 64-bit count of nanoseconds. */
  type Duration = d: int | MIN_DURATION <= d <= MAX_DURATION

  type PositiveDuration = d: Duration | 0 < d witness 1

  datatype Rule = Rule(package: string, version: string)
  datatype Spec = Spec(kind: string, patterns: seq<string>, rules: seq<Rule>, minAge: string)

  /** glob is the path matcher, None for a malformed pattern; duration reads a duration in nanoseconds. */
  datatype Env = Env(glob: (string, string) -> Option<bool>, duration: string -> Option<Duration>)

  datatype Compiled =
    | Allow(patterns: seq<string>, rules: seq<Rule>)
    | Deny(patterns: seq<string>, rules: seq<Rule>)
    | Delay(minAge: PositiveDuration)

  datatype Ref = Ref(package: string, version: string, publishedAt: Option<int>)
  datatype Decision = Allowed | Denied | NeedsMetadata

  // ---- Validation ----

  predicate ValidGlob(env: Env, p: string)
  {
    p == "" || env.glob(p, "").Some?
  }

  function CompileFilter(env: Env, s: Spec): Option<Compiled>
  {
    if s.kind == "allow" || s.kind == "deny" then
      if s.patterns == [] && s.rules == [] then None
      else if s.minAge != "" then None
      else if exists p <- s.patterns :: !ValidGlob(env, p) then None
      else if exists r <- s.rules ::
        (r.package == "" && r.version == "") || !ValidGlob(env, r.package) || !ValidGlob(env, r.version) then None
      else if s.kind == "allow" then Some(Allow(s.patterns, s.rules)) else Some(Deny(s.patterns, s.rules))
    else if s.kind == "delay" then
      if s.patterns != [] || s.rules != [] then None
      else if s.minAge == "" then None
      else
        var d := env.duration(s.minAge);
        if d.None? || d.value <= 0 then None else Some(Delay(d.value))
    else None
  }

  /** What a compiled chain can rely on. */
  predicate WellFormed(env: Env, f: Compiled)
  {
    if f.Delay? then true
    else
      && (f.patterns != [] || f.rules != [])
      && (forall p <- f.patterns :: p != "" ==> env.glob(p, "") != None)
      && (forall r <- f.rules ::
         && (r.package != "" || r.version != "")
         && (r.package != "" ==> env.glob(r.package, "") != None)
         && (r.version != "" ==> env.glob(r.version, "") != None))
  }

  /** The spec writes out this filter: its kind, patterns and rules, or its parsed age, and nothing else. */
  ghost predicate Writes(env: Env, s: Spec, f: Compiled)
  {
    WellFormed(env, f) && match f
      case Allow(ps, rs) => s == Spec("allow", ps, rs, "")
      case Deny(ps, rs) => s == Spec("deny", ps, rs, "")
      case Delay(d) =>
        && s.kind == "delay" && s.patterns == [] && s.rules == [] && s.minAge != ""
        && env.duration(s.minAge) == Some(d)
  }

  /** A spec compiles to a filter if and only if it writes that filter out. */
  lemma CompilesExactly(env: Env, s: Spec, f: Compiled)
    ensures CompileFilter(env, s) == Some(f) <==> Writes(env, s, f)
  {
  }

  ghost predicate Compiles(env: Env, s: Spec)
  {
    exists f :: Writes(env, s, f)
  }

  datatype Compilation = Chain(filters: seq<Compiled>) | Invalid(index: nat)

  /** The chain of the filters the specs write out, or the first one that writes none. */
  method Compile(env: Env, specs: seq<Spec>) returns (r: Compilation)
    ensures r.Chain? ==> |r.filters| == |specs| && forall i | 0 <= i < |specs| :: Writes(env, specs[i], r.filters[i])
    ensures r.Invalid? ==>
      r.index < |specs| && !Compiles(env, specs[r.index]) && forall i | 0 <= i < r.index :: Compiles(env, specs[i])
  {
    var out: seq<Compiled> := [];
    for i := 0 to |specs|
      invariant |out| == i
      invariant forall j | 0 <= j < i :: Writes(env, specs[j], out[j])
    {
      var f := CompileFilter(env, specs[i]);
      if f.None? {
        forall g ensures !Writes(env, specs[i], g) {
          CompilesExactly(env, specs[i], g);
        }
        assert forall j | 0 <= j < i :: Writes(env, specs[j], out[j]);
        return Invalid(i);
      }
      CompilesExactly(env, specs[i], f.value);
      out := out + [f.value];
    }
    r := Chain(out);
  }

  // ---- Decisions ----

  predicate Matches1(env: Env, p: string, name: string)
  {
    env.glob(p, name) == Some(true)
  }

  predicate MatchRule(env: Env, r: Rule, ref: Ref)
  {
    if r.package != "" && !Matches1(env, r.package, ref.package) then false
    else if r.version != "" && !Matches1(env, r.version, ref.version) then false
    else true
  }

  predicate Matches(env: Env, patterns: seq<string>, rules: seq<Rule>, ref: Ref)
  {
    (exists p <- patterns :: Matches1(env, p, ref.package)) || exists r <- rules :: MatchRule(env, r, ref)
  }

  /** Subtracting instants saturates at the ends of the duration type. */
  function Sub(a: int, b: int): Duration
  {
    if a - b > MAX_DURATION then MAX_DURATION else if a - b < MIN_DURATION then MIN_DURATION else a - b
  }

  function DecideAt(env: Env, chain: seq<Compiled>, ref: Ref, now: int): Decision
  {
    if chain == [] then Allowed
    else match chain[0]
      case Allow(ps, rs) => if Matches(env, ps, rs, ref) then Allowed else DecideAt(env, chain[1..], ref, now)
      case Deny(ps, rs) => if Matches(env, ps, rs, ref) then Denied else DecideAt(env, chain[1..], ref, now)
      case Delay(minAge) =>
        if ref.publishedAt.None? then NeedsMetadata
        else if Sub(now, ref.publishedAt.value) >= minAge then Allowed
        else Denied
  }

  /** Filter i is the first that does not abstain. Publish times play no part in it. */
  predicate Decides(env: Env, chain: seq<Compiled>, ref: Ref, i: int)
  {
    0 <= i < |chain| && !Abstains(env, chain[i], ref) && forall j | 0 <= j < i :: Abstains(env, chain[j], ref)
  }

  predicate Abstains(env: Env, f: Compiled, ref: Ref)
  {
    !f.Delay? && !Matches(env, f.patterns, f.rules, ref)
  }

  /** The pattern, empty for any, fits. */
  predicate Fits(env: Env, pattern: string, value: string)
  {
    pattern == "" || env.glob(pattern, value) == Some(true)
  }

  /** A filter abstains if and only if it is no delay, none of its patterns fits the package, and of each of its
      rules the package or the version pattern does not fit. */
  lemma AbstainsExactly(env: Env, f: Compiled, ref: Ref)
    ensures Abstains(env, f, ref) <==>
      && !f.Delay? && (forall i :: 0 <= i < |f.patterns| ==> env.glob(f.patterns[i], ref.package) != Some(true))
      && forall i :: 0 <= i < |f.rules| ==>
           !(Fits(env, f.rules[i].package, ref.package) && Fits(env, f.rules[i].version, ref.version))
  {
    if !f.Delay? {
      assert forall i :: 0 <= i < |f.patterns| ==> f.patterns[i] in f.patterns;
      assert forall i :: 0 <= i < |f.rules| ==> f.rules[i] in f.rules;
    }
  }

  lemma {:induction false} FirstDecider(env: Env, chain: seq<Compiled>, ref: Ref) returns (i: int)
    ensures if i < 0 then forall f <- chain :: Abstains(env, f, ref) else Decides(env, chain, ref, i)
  {
    if chain == [] {
      i := -1;
    } else if !Abstains(env, chain[0], ref) {
      i := 0;
    } else {
      var k := FirstDecider(env, chain[1..], ref);
      i := if k < 0 then k else k + 1;
      if k < 0 {
        assert chain == [chain[0]] + chain[1..];
      }
    }
  }

  lemma {:induction false} NoDecider(env: Env, chain: seq<Compiled>, ref: Ref, now: int)
    requires forall f <- chain :: Abstains(env, f, ref)
    ensures DecideAt(env, chain, ref, now) == Allowed
  {
    if chain != [] {
      assert Abstains(env, chain[0], ref);
      NoDecider(env, chain[1..], ref, now);
    }
  }

  /** The chain decides as its first filter that does not abstain; saturation of the age changes nothing. */
  lemma {:induction false} DeciderRules(env: Env, chain: seq<Compiled>, ref: Ref, now: int, i: int)
    requires Decides(env, chain, ref, i)
    ensures DecideAt(env, chain, ref, now) == match chain[i]
      case Allow(_, _) => Allowed
      case Deny(_, _) => Denied
      case Delay(minAge) =>
        if ref.publishedAt.None? then NeedsMetadata
        else if now - ref.publishedAt.value >= minAge then Allowed
        else Denied
  {
    if i == 0 {
      match chain[0]
      case Allow(ps, rs) => assert Matches(env, ps, rs, ref);
      case Deny(ps, rs) => assert Matches(env, ps, rs, ref);
      case Delay(minAge) => assert minAge <= MAX_DURATION;
    } else {
      assert Abstains(env, chain[0], ref);
      DeciderRules(env, chain[1..], ref, now, i - 1);
      assert chain[1..][i - 1] == chain[i];
    }
  }

  /** Metadata is asked for exactly when the first filter that does not abstain is a delay and no publish time
      is known; with a time known, never. */
  lemma {:induction false} AsksExactly(env: Env, chain: seq<Compiled>, ref: Ref, now: int)
    ensures DecideAt(env, chain, ref, now) == NeedsMetadata <==>
      ref.publishedAt.None? && exists i :: Decides(env, chain, ref, i) && chain[i].Delay?
  {
    var k := FirstDecider(env, chain, ref);
    if k < 0 {
      NoDecider(env, chain, ref, now);
      assert forall i | 0 <= i < |chain| :: Abstains(env, chain[i], ref);
    } else {
      DeciderRules(env, chain, ref, now, k);
      forall i | Decides(env, chain, ref, i) ensures i == k {}
    }
  }

  /** With a known publish time an allowed artifact stays allowed as time passes. */
  lemma {:induction false} AllowedStays(env: Env, chain: seq<Compiled>, ref: Ref, now: int, later: int)
    requires now <= later && DecideAt(env, chain, ref, now) == Allowed
    ensures DecideAt(env, chain, ref, later) == Allowed
  {
    if chain != [] && Abstains(env, chain[0], ref) {
      AllowedStays(env, chain[1..], ref, now, later);
    }
  }

  /** No filter after the first delay has any effect. */
  lemma {:induction false} DelayEndsTheChain(env: Env, before: seq<Compiled>, minAge: PositiveDuration,
                                             after: seq<Compiled>, after': seq<Compiled>, ref: Ref, now: int)
    ensures DecideAt(env, before + [Delay(minAge)] + after, ref, now) ==
            DecideAt(env, before + [Delay(minAge)] + after', ref, now)
  {
    var chain, chain' := before + [Delay(minAge)] + after, before + [Delay(minAge)] + after';
    if before != [] {
      DelayEndsTheChain(env, before[1..], minAge, after, after', ref, now);
      assert chain[1..] == before[1..] + [Delay(minAge)] + after;
      assert chain'[1..] == before[1..] + [Delay(minAge)] + after';
    }
  }

  // ---- The proxies ----

  /** The PyPI proxy: decide, and only if metadata is needed resolve the time and decide again, at a later instant. */
  function AllowPyPI(env: Env, chain: seq<Compiled>, ref: Ref, resolved: Option<int>, now: int, later: int): bool
  {
    var first := DecideAt(env, chain, ref, now);
    var last :=
      if first == NeedsMetadata && resolved.Some? then DecideAt(env, chain, ref.(publishedAt := resolved), later)
      else first;
    last == Allowed
  }

  /** The Maven proxy never knows the time beforehand, and denies at once when it cannot resolve it. */
  function AllowMaven(env: Env, chain: seq<Compiled>, package: string, version: string, resolved: Option<int>,
                      now: int, later: int): bool
  {
    var ref := Ref(package, version, None);
    var first := DecideAt(env, chain, ref, now);
    if first == NeedsMetadata then
      resolved.Some? && DecideAt(env, chain, ref.(publishedAt := resolved), later) == Allowed
    else first == Allowed
  }

  lemma {:induction false} SameUntilAsked(env: Env, chain: seq<Compiled>, ref: Ref, t: Option<int>, now: int,
      later: int)
    requires ref.publishedAt.None? && DecideAt(env, chain, ref, now) != NeedsMetadata
    ensures DecideAt(env, chain, ref.(publishedAt := t), later) == DecideAt(env, chain, ref, now)
  {
    if chain != [] && Abstains(env, chain[0], ref) {
      SameUntilAsked(env, chain[1..], ref, t, now, later);
    }
  }

  /** Resolving lazily gives what deciding with the time known from the start gives; a time that stays unknown
      counts as a denial only where a delay filter asked for it. */
  lemma {:induction false} LazyIsEager(env: Env, chain: seq<Compiled>, ref: Ref, resolved: Option<int>, now: int,
      later: int)
    requires ref.publishedAt.None?
    ensures AllowPyPI(env, chain, ref, resolved, now, later) <==>
            DecideAt(env, chain, ref.(publishedAt := resolved), later) == Allowed
    ensures AllowMaven(env, chain, ref.package, ref.version, resolved, now, later) <==>
            DecideAt(env, chain, ref.(publishedAt := resolved), later) == Allowed
  {
    if DecideAt(env, chain, ref, now) != NeedsMetadata {
      SameUntilAsked(env, chain, ref, resolved, now, later);
    } else if resolved.None? {
      StillAsks(env, chain, ref, now, later);
    }
  }

  lemma {:induction false} StillAsks(env: Env, chain: seq<Compiled>, ref: Ref, now: int, later: int)
    requires ref.publishedAt.None?
    ensures DecideAt(env, chain, ref, now) == DecideAt(env, chain, ref, later)
  {
    if chain != [] {
      StillAsks(env, chain[1..], ref, now, later);
    }
  }

  /** A publish time known beforehand is not asked for again. */
  lemma {:induction false} KnownTimeIsUsed(env: Env, chain: seq<Compiled>, ref: Ref, resolved: Option<int>, now: int,
      later: int)
    requires ref.publishedAt.Some?
    ensures AllowPyPI(env, chain, ref, resolved, now, later) <==> DecideAt(env, chain, ref, now) == Allowed
  {
    AsksExactly(env, chain, ref, now);
  }
}
