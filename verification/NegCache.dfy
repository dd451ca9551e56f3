/** The in-process memory of upstream 404s: keys joined from three parts, a TTL, and entries dropped lazily. */
module NegCache {
  import opened Text

  const DEFAULT_TTL: int := 30 * 1000 * 1000 * 1000

  datatype Triple = Triple(ns: string, format: string, key: string)

  function CacheKey(t: Triple): string
  {
    t.ns + "\0" + t.format + "\0" + t.key
  }

  /** Namespace and format names hold no NUL; the key may. */
  predicate Wellformed(t: Triple)
  {
    '\0' !in t.ns && '\0' !in t.format
  }

  /** Different triples never share an entry. */
  lemma CacheKeyInjective(t: Triple, u: Triple)
    requires Wellformed(t) && Wellformed(u)
    ensures CacheKey(t) == CacheKey(u) <==> t == u
  {
    if CacheKey(t) == CacheKey(u) {
      var x, y := t.format + "\0" + t.key, u.format + "\0" + u.key;
      assert CacheKey(t) == t.ns + ['\0'] + x && CacheKey(u) == u.ns + ['\0'] + y;
      CutAt('\0', t.ns, x, u.ns, y);
      CutAt('\0', t.format, t.key, u.format, u.key);
    }
  }

  // ---- What each call does to the table of expiries ----

  type Table = map<string, int>

  function Present(e: Table, k: string, now: int): bool
  {
    k in e && now < e[k]
  }

  function Looked(e: Table, k: string, now: int): Table
  {
    if Present(e, k, now) then e else e - {k}
  }

  // ---- Any sequence of calls ----

  datatype Call = Mark(t: Triple, at: int) | Has(t: Triple, at: int) | Delete(t: Triple, at: int)

  function Apply(ttl: int, e: Table, c: Call): Table
  {
    match c
    case Mark(t, at) => e[CacheKey(t) := at + ttl]
    case Has(t, at) => Looked(e, CacheKey(t), at)
    case Delete(t, _) => e - {CacheKey(t)}
  }

  function Run(ttl: int, calls: seq<Call>): Table
  {
    if calls == [] then map[] else Apply(ttl, Run(ttl, calls[..|calls| - 1]), calls[|calls| - 1])
  }

  /** The clock never runs backwards and every name is free of NUL. */
  ghost predicate Orderly(calls: seq<Call>)
  {
    && (forall c <- calls :: Wellformed(c.t))
    && (forall i, j | 0 <= i < j < |calls| :: calls[i].at <= calls[j].at)
  }

  /** The last Mark or Delete of exactly this triple is the Mark made at this index. */
  ghost predicate LastIsMark(calls: seq<Call>, t: Triple, i: int)
  {
    && 0 <= i < |calls| && calls[i].Mark? && calls[i].t == t
    && forall j | i < j < |calls| :: calls[j].t == t ==> calls[j].Has?
  }

  lemma StillLast(calls: seq<Call>, t: Triple, i: int)
    requires calls != []
    ensures var before, c := calls[..|calls| - 1], calls[|calls| - 1];
      LastIsMark(calls, t, i) <==> if c.t == t && !c.Has? then c.Mark? && i == |calls| - 1 else LastIsMark(before, t, i)
  {
    var before, c := calls[..|calls| - 1], calls[|calls| - 1];
    if c.t != t || c.Has? {
      assert forall j | 0 <= j < |before| :: before[j] == calls[j];
    }
  }

  /** Has answers yes exactly when the last Mark or Delete of that very triple is a Mark younger than the TTL. */
  lemma {:induction false} HasIsLastMark(ttl: int, calls: seq<Call>, t: Triple, now: int)
    requires Wellformed(t) && Orderly(calls) && (calls != [] ==> calls[|calls| - 1].at <= now)
    ensures Present(Run(ttl, calls), CacheKey(t), now) <==>
      exists i :: LastIsMark(calls, t, i) && now < calls[i].at + ttl
  {
    if calls != [] {
      var before, c := calls[..|calls| - 1], calls[|calls| - 1];
      assert Orderly(before) by {
        forall d | d in before ensures d in calls {}
        assert forall i, j | 0 <= i < j < |before| :: before[i] == calls[i] && before[j] == calls[j];
      }
      assert before != [] ==> before[|before| - 1].at <= c.at;
      HasIsLastMark(ttl, before, t, now);
      CacheKeyInjective(t, c.t);
      forall i ensures LastIsMark(calls, t, i) <==>
        if c.t == t && !c.Has? then c.Mark? && i == |calls| - 1 else LastIsMark(before, t, i) {
        StillLast(calls, t, i);
      }
      assert c.t == t && c.Mark? ==> LastIsMark(calls, t, |calls| - 1);
      assert forall i :: LastIsMark(before, t, i) ==> calls[i] == before[i];
    }
  }

  // ---- The cache as the program keeps it ----

  class Cache {
    const ttl: int
    var entries: Table
    ghost var calls: seq<Call>

    /** The table is what the calls so far leave of an empty one. */
    ghost predicate Valid()
      reads this
    {
      ttl > 0 && Orderly(calls) && entries == Run(ttl, calls)
    }

    /** The clock has reached now. */
    ghost predicate Reached(now: int)
      reads this
    {
      calls != [] ==> calls[|calls| - 1].at <= now
    }

    /** What asking about a triple at some instant would answer. */
    predicate Remembers(t: Triple, at: int)
      reads this
    {
      Present(entries, CacheKey(t), at)
    }

    /** Nothing is remembered of any triple, and a TTL that is not positive is replaced. */
    constructor (ttl: int)
      ensures Valid() && calls == [] && (ttl > 0 ==> this.ttl == ttl) && (ttl <= 0 ==> this.ttl == DEFAULT_TTL)
      ensures forall t, at :: !Remembers(t, at)
    {
      this.ttl := if ttl <= 0 then DEFAULT_TTL else ttl;
      entries, calls := map[], [];
    }

    /** From now on the triple is remembered for exactly a TTL, and others as before. */
    method Mark(t: Triple, now: int)
      requires Valid() && Wellformed(t) && Reached(now)
      modifies this
      ensures Valid() && calls == old(calls) + [Call.Mark(t, now)]
      ensures forall u, at | Wellformed(u) :: Remembers(u, at) <==>
        if u == t then at < now + ttl else old(Remembers(u, at))
    {
      entries := entries[CacheKey(t) := now + ttl];
      calls := calls + [Call.Mark(t, now)];
      forall u | Wellformed(u) ensures CacheKey(u) == CacheKey(t) <==> u == t { CacheKeyInjective(u, t); }
    }

    /** Yes exactly when the last Mark or Delete of this very triple is a Mark younger than the TTL; an expired
        entry goes, which nobody asking from now on can tell. */
    method Has(t: Triple, now: int) returns (found: bool)
      requires Valid() && Wellformed(t) && Reached(now)
      modifies this
      ensures Valid() && calls == old(calls) + [Call.Has(t, now)]
      ensures found <==> exists i :: LastIsMark(old(calls), t, i) && now < old(calls)[i].at + ttl
      ensures forall u, at | Wellformed(u) && now <= at :: Remembers(u, at) <==> old(Remembers(u, at))
    {
      HasIsLastMark(ttl, calls, t, now);
      found := Look(CacheKey(t), now);
      calls := calls + [Call.Has(t, now)];
    }

    method Look(k: string, now: int) returns (found: bool)
      modifies this`entries
      ensures found == Present(old(entries), k, now) && entries == Looked(old(entries), k, now)
    {
      if k !in entries {
        assert entries == entries - {k};
        return false;
      }
      if !(now < entries[k]) {
        entries := entries - {k};
        return false;
      }
      found := true;
    }

    /** From now on the triple is not remembered, and others as before. */
    method Delete(t: Triple, ghost now: int)
      requires Valid() && Wellformed(t) && Reached(now)
      modifies this
      ensures Valid() && calls == old(calls) + [Call.Delete(t, now)]
      ensures forall u, at | Wellformed(u) :: Remembers(u, at) <==> u != t && old(Remembers(u, at))
    {
      entries := entries - {CacheKey(t)};
      calls := calls + [Call.Delete(t, now)];
      forall u | Wellformed(u) ensures CacheKey(u) == CacheKey(t) <==> u == t { CacheKeyInjective(u, t); }
    }
  }
}
