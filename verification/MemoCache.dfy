/** The capacity-bounded, expiring LRU behind the signed-URL and attribute caches. */
module MemoCache {
  import opened Text

  // ---- The cache as a list of entries, most recently touched first ----

  datatype Entry<V> = Entry(key: Str, val: V, expiry: int)

  ghost predicate DistinctKeys<V>(es: seq<Entry<V>>)
  {
    forall i, j :: 0 <= i < j < |es| ==> es[i].key != es[j].key
  }

  /** Position of a key's entry, or the length when there is none. */
  function IndexOf<V>(es: seq<Entry<V>>, key: Str): (i: nat)
    ensures i <= |es| && (i < |es| ==> es[i].key == key) && forall j :: 0 <= j < i ==> es[j].key != key
  {
    if es == [] || es[0].key == key then 0 else 1 + IndexOf(es[1..], key)
  }

  predicate Has<V>(es: seq<Entry<V>>, key: Str)
  {
    IndexOf(es, key) < |es|
  }

  function Without<V>(es: seq<Entry<V>>, key: Str): seq<Entry<V>>
  {
    if es == [] then [] else if es[0].key == key then es[1..] else [es[0]] + Without(es[1..], key)
  }

  /** A lookup: an expired entry is dropped, a live one moves to the front. */
  function Peek<V>(es: seq<Entry<V>>, key: Str, now: int): (seq<Entry<V>>, Option<V>)
  {
    var i := IndexOf(es, key);
    if i == |es| then (es, None)
    else if now > es[i].expiry then (Without(es, key), None)
    else ([es[i]] + Without(es, key), Some(es[i].val))
  }

  /** A store: the key's entry moves to the front, and the oldest entries beyond the capacity go. */
  function Store<V>(es: seq<Entry<V>>, key: Str, val: V, now: int, ttl: int, cap: int): seq<Entry<V>>
  {
    var more := [Entry(key, val, now + ttl)] + Without(es, key);
    if !Has(es, key) && 0 < cap < |more| then more[..cap] else more
  }

  // ---- What a sequence of calls leaves in the cache ----

  datatype Call<V> = Lookup(key: Str, now: int) | Save(key: Str, val: V, now: int)

  /** The keys a call touches: a hit or a store brings its key to the front. */
  function Touches<V>(es: seq<Entry<V>>, call: Call<V>): set<Str>
  {
    match call
    case Lookup(key, now) => if Peek(es, key, now).1.Some? then {key} else {}
    case Save(key, _, _) => {key}
  }

  function After<V>(es: seq<Entry<V>>, call: Call<V>, ttl: int, cap: int): seq<Entry<V>>
  {
    match call
    case Lookup(key, now) => Peek(es, key, now).0
    case Save(key, val, now) => Store(es, key, val, now, ttl, cap)
  }

  function Run<V>(es: seq<Entry<V>>, calls: seq<Call<V>>, ttl: int, cap: int): seq<Entry<V>>
  {
    if calls == [] then es else After(Run(es, calls[..|calls| - 1], ttl, cap), calls[|calls| - 1], ttl, cap)
  }

  /** All keys touched during a sequence of calls. */
  function Touched<V>(es: seq<Entry<V>>, calls: seq<Call<V>>, ttl: int, cap: int): set<Str>
  {
    if calls == [] then {}
    else
      Touched(es, calls[..|calls| - 1], ttl, cap) +
      Touches(Run(es, calls[..|calls| - 1], ttl, cap), calls[|calls| - 1])
  }

  /** The entry of a key. */
  function Get<V>(es: seq<Entry<V>>, key: Str): Option<Entry<V>>
  {
    if es == [] then None else if es[0].key == key then Some(es[0]) else Get(es[1..], key)
  }

  /** The keys ahead of a key's entry. */
  function Ahead<V>(es: seq<Entry<V>>, key: Str): set<Str>
  {
    if es == [] || es[0].key == key then {} else {es[0].key} + Ahead(es[1..], key)
  }

  lemma {:induction false} GetAt<V>(es: seq<Entry<V>>, key: Str)
    ensures var i := IndexOf(es, key); Get(es, key) == if i < |es| then Some(es[i]) else None
  {
    if es != [] && es[0].key != key { GetAt(es[1..], key); }
  }

  lemma {:induction false} AheadSize<V>(es: seq<Entry<V>>, key: Str)
    requires DistinctKeys(es)
    ensures |Ahead(es, key)| == IndexOf(es, key)
    ensures forall k :: k in Ahead(es, key) ==> k != key && exists i :: 0 <= i < |es| && es[i].key == k
  {
    if es != [] && es[0].key != key {
      AheadSize(es[1..], key);
      assert es[0].key !in Ahead(es[1..], key);
    }
  }

  lemma {:induction false} WithoutOther<V>(es: seq<Entry<V>>, gone: Str, key: Str)
    requires gone != key
    ensures Get(Without(es, gone), key) == Get(es, key) && Ahead(Without(es, gone), key) <= Ahead(es, key)
  {
    if es != [] && es[0].key != gone && es[0].key != key {
      WithoutOther(es[1..], gone, key);
      assert Without(es, gone)[1..] == Without(es[1..], gone);
    }
  }

  lemma {:induction false} WithoutIsSmaller<V>(es: seq<Entry<V>>, key: Str)
    requires DistinctKeys(es)
    ensures var w := Without(es, key);
      && DistinctKeys(w)
      && (forall i :: 0 <= i < |w| ==> w[i].key != key && w[i] in es)
      && |w| == |es| - (if Get(es, key).Some? then 1 else 0)
  {
    if es != [] {
      if es[0].key == key {
      } else {
        WithoutIsSmaller(es[1..], key);
        var w := Without(es[1..], key);
        forall i | 0 <= i < |w| ensures w[i].key != es[0].key && w[i] in es {
          var j :| 0 <= j < |es[1..]| && es[1..][j] == w[i];
          assert es[j + 1] == w[i];
        }
      }
    }
  }

  /** Every sequence of calls keeps keys distinct and the capacity. */
  lemma {:induction false} RunKeepsBound<V>(calls: seq<Call<V>>, ttl: int, cap: int)
    ensures DistinctKeys(Run([], calls, ttl, cap)) && (cap > 0 ==> |Run([], calls, ttl, cap)| <= cap)
  {
    if calls != [] {
      var before := Run([], calls[..|calls| - 1], ttl, cap);
      RunKeepsBound(calls[..|calls| - 1], ttl, cap);
      AfterKeepsBound(before, calls[|calls| - 1], ttl, cap);
    }
  }

  lemma AfterKeepsBound<V>(es: seq<Entry<V>>, call: Call<V>, ttl: int, cap: int)
    requires DistinctKeys(es) && (cap > 0 ==> |es| <= cap)
    ensures DistinctKeys(After(es, call, ttl, cap)) && (cap > 0 ==> |After(es, call, ttl, cap)| <= cap)
  {
    WithoutIsSmaller(es, call.key);
    GetAt(es, call.key);
  }

  /** Some lookup among the calls found the key past its expiry. */
  ghost predicate FoundExpired<V>(calls: seq<Call<V>>, key: Str, expiry: int)
  {
    exists i :: 0 <= i < |calls| && calls[i].Lookup? && calls[i].key == key && calls[i].now > expiry
  }

  /** One call that does not touch a cached key: the key keeps its entry, with nothing but touched keys moving
      ahead of it, unless the call finds it expired, or evicts it from behind a full cache of other keys. */
  lemma OneCall<V>(es: seq<Entry<V>>, call: Call<V>, ttl: int, cap: int, key: Str)
    requires DistinctKeys(es) && Get(es, key).Some? && (cap > 0 ==> |es| <= cap) && key !in Touches(es, call)
    ensures var es' := After(es, call, ttl, cap);
      if Get(es', key).Some? then
        Get(es', key) == Get(es, key) && Ahead(es', key) <= Ahead(es, key) + Touches(es, call)
      else
        || (call.Lookup? && call.key == key && call.now > Get(es, key).value.expiry)
        || (0 < cap && |Ahead(es, key) + Touches(es, call)| >= cap)
  {
    GetAt(es, call.key);
    if call.key == key {
      WithoutIsSmaller(es, key);
      GetAt(Without(es, key), key);
    } else {
      WithoutOther(es, call.key, key);
      match call
      case Lookup(k, now) =>
        if Get(es, k).Some? && now <= Get(es, k).value.expiry { Pushed(Without(es, k), Get(es, k).value, key); }
      case Save(k, val, now) => SaveOther(es, k, val, now, ttl, cap, key);
    }
  }

  lemma Pushed<V>(w: seq<Entry<V>>, e: Entry<V>, key: Str)
    requires e.key != key
    ensures Get([e] + w, key) == Get(w, key) && Ahead([e] + w, key) == {e.key} + Ahead(w, key)
    ensures IndexOf([e] + w, key) == 1 + IndexOf(w, key)
  {
    assert ([e] + w)[1..] == w;
  }

  /** Storing another key, with the eviction it may cause. */
  lemma SaveOther<V>(es: seq<Entry<V>>, k: Str, val: V, now: int, ttl: int, cap: int, key: Str)
    requires DistinctKeys(es) && Get(es, key).Some? && (cap > 0 ==> |es| <= cap) && k != key
    ensures var es' := Store(es, k, val, now, ttl, cap);
      if Get(es', key).Some? then Get(es', key) == Get(es, key) && Ahead(es', key) <= Ahead(es, key) + {k}
      else 0 < cap && |Ahead(es, key) + {k}| >= cap
  {
    var w, e := Without(es, k), Entry(k, val, now + ttl);
    WithoutOther(es, k, key);
    Pushed(w, e, key);
    GetAt(es, k);
    if Get(es, k).None? {
      WithoutAbsent(es, k);
      if 0 < cap < |[e] + w| { EvictsLast(es, e, cap, key); }
    }
  }

  lemma EvictsLast<V>(es: seq<Entry<V>>, e: Entry<V>, cap: nat, key: Str)
    requires DistinctKeys(es) && Get(es, key).Some? && Get(es, e.key).None? && 0 < cap <= |es|
    ensures var es' := ([e] + es)[..cap];
      if Get(es', key).Some? then Get(es', key) == Get(es, key) && Ahead(es', key) <= Ahead(es, key) + {e.key}
      else |Ahead(es, key) + {e.key}| >= cap
  {
    Pushed(es, e, key);
    if IndexOf([e] + es, key) < cap {
      PrefixSame([e] + es, cap, key);
    } else {
      AheadSize(es, key);
      NotAhead(es, e.key, key);
      NotInPrefix([e] + es, cap, key);
    }
  }

  lemma NotInPrefix<V>(es: seq<Entry<V>>, n: nat, key: Str)
    requires n <= IndexOf(es, key) && n <= |es|
    ensures Get(es[..n], key).None?
  {
    GetAt(es[..n], key);
  }

  lemma {:induction false} WithoutAbsent<V>(es: seq<Entry<V>>, k: Str)
    requires Get(es, k).None?
    ensures Without(es, k) == es
  {
    if es != [] { WithoutAbsent(es[1..], k); }
  }

  lemma {:induction false} NotAhead<V>(es: seq<Entry<V>>, k: Str, key: Str)
    requires Get(es, k).None?
    ensures k !in Ahead(es, key)
  {
    if es != [] { NotAhead(es[1..], k, key); }
  }

  lemma {:induction false} PrefixSame<V>(es: seq<Entry<V>>, n: nat, key: Str)
    requires IndexOf(es, key) < n <= |es|
    ensures Get(es[..n], key) == Get(es, key) && Ahead(es[..n], key) == Ahead(es, key)
  {
    if es[0].key != key {
      assert es[..n][1..] == es[1..][..n - 1];
      PrefixSame(es[1..], n - 1, key);
    }
  }

  lemma StaysGone<V>(es: seq<Entry<V>>, call: Call<V>, ttl: int, cap: int, key: Str)
    requires DistinctKeys(es) && Get(es, key).None? && key !in Touches(es, call)
    ensures Get(After(es, call, ttl, cap), key).None?
  {
    GetAt(es, call.key);
    if call.key != key {
      WithoutOther(es, call.key, key);
      match call
      case Lookup(k, _) => if Get(es, k).Some? { Pushed(Without(es, k), Get(es, k).value, key); }
      case Save(k, val, now) =>
        Pushed(Without(es, k), Entry(k, val, now + ttl), key);
        PrefixGone([Entry(k, val, now + ttl)] + Without(es, k), key);
    }
  }

  lemma {:induction false} PrefixGone<V>(es: seq<Entry<V>>, key: Str)
    requires Get(es, key).None?
    ensures forall n :: 0 <= n <= |es| ==> Get(es[..n], key).None?
  {
    if es != [] {
      PrefixGone(es[1..], key);
      forall n | 0 < n <= |es| ensures Get(es[..n], key).None? {
        assert es[..n][1..] == es[1..][..n - 1];
      }
    }
  }

  /** What is known of a key that was at the front, given the other keys touched since. */
  ghost predicate KeptOrExplained<V>(es: seq<Entry<V>>, key: Str, entry: Entry<V>, others: set<Str>,
      calls: seq<Call<V>>, cap: int)
  {
    if Get(es, key).Some? then Get(es, key) == Some(entry) && Ahead(es, key) <= others
    else FoundExpired(calls, key, entry.expiry) || (0 < cap <= |others|)
  }

  /** The LRU law: after a key was touched, and until it is touched again, it stays in the cache with its
      entry, unless a lookup finds it expired or at least as many other keys as the capacity were touched. */
  lemma {:induction false} LeastRecentlyUsed<V>(es: seq<Entry<V>>, calls: seq<Call<V>>, ttl: int, cap: int, key: Str)
    requires DistinctKeys(es) && es != [] && es[0].key == key && (cap > 0 ==> |es| <= cap)
    requires key !in Touched(es, calls, ttl, cap)
    ensures DistinctKeys(Run(es, calls, ttl, cap)) && (cap > 0 ==> |Run(es, calls, ttl, cap)| <= cap)
    ensures KeptOrExplained(Run(es, calls, ttl, cap), key, es[0], Touched(es, calls, ttl, cap), calls, cap)
  {
    if calls != [] {
      var init, call := calls[..|calls| - 1], calls[|calls| - 1];
      var before, others := Run(es, init, ttl, cap), Touched(es, init, ttl, cap);
      LeastRecentlyUsed(es, init, ttl, cap, key);
      AfterKeepsBound(before, call, ttl, cap);
      CallKeepsLaw(before, init, call, ttl, cap, key, es[0], others);
      assert calls == init + [call];
    }
  }

  lemma CallKeepsLaw<V>(es: seq<Entry<V>>, calls: seq<Call<V>>, call: Call<V>, ttl: int, cap: int, key: Str,
      entry: Entry<V>, others: set<Str>)
    requires DistinctKeys(es) && (cap > 0 ==> |es| <= cap) && key !in Touches(es, call)
    requires KeptOrExplained(es, key, entry, others, calls, cap)
    ensures KeptOrExplained(After(es, call, ttl, cap), key, entry, others + Touches(es, call), calls + [call], cap)
  {
    var more := others + Touches(es, call);
    assert (calls + [call])[|calls|] == call;
    if Get(es, key).Some? {
      OneCall(es, call, ttl, cap, key);
      Larger(Ahead(es, key) + Touches(es, call), more);
    } else {
      StaysGone(es, call, ttl, cap, key);
      Larger(others, more);
      if FoundExpired(calls, key, entry.expiry) {
        var i :| 0 <= i < |calls| && calls[i].Lookup? && calls[i].key == key && calls[i].now > entry.expiry;
        assert (calls + [call])[i] == calls[i];
      }
    }
  }

  lemma Larger<T>(a: set<T>, b: set<T>)
    requires a <= b
    ensures |a| <= |b|
  {
    if a != b {
      assert b == a + (b - a);
    }
  }

  // ---- What a hit returns ----

  /** The entry was put there by the i-th call, and no later call stored the same key. */
  ghost predicate LastSave<V>(calls: seq<Call<V>>, i: nat, entry: Entry<V>, ttl: int)
  {
    && i < |calls| && calls[i].Save? && calls[i].key == entry.key && calls[i].val == entry.val
    && entry.expiry == calls[i].now + ttl
    && forall j :: i < j < |calls| ==> !(calls[j].Save? && calls[j].key == entry.key)
  }

  lemma StillLastSave<V>(calls: seq<Call<V>>, i: nat, entry: Entry<V>, ttl: int)
    requires calls != [] && LastSave(calls[..|calls| - 1], i, entry, ttl)
    requires var c := calls[|calls| - 1]; !(c.Save? && c.key == entry.key)
    ensures LastSave(calls, i, entry, ttl)
  {
    var init := calls[..|calls| - 1];
    assert forall j :: 0 <= j < |init| ==> init[j] == calls[j];
  }

  lemma {:induction false} EntryIsLastSave<V>(calls: seq<Call<V>>, ttl: int, cap: int, key: Str)
    ensures var e := Get(Run([], calls, ttl, cap), key);
      e.Some? ==> e.value.key == key && exists i :: LastSave(calls, i, e.value, ttl)
  {
    if calls != [] {
      var init, call := calls[..|calls| - 1], calls[|calls| - 1];
      var before, after := Run([], init, ttl, cap), Run([], calls, ttl, cap);
      RunKeepsBound(init, ttl, cap);
      EntryIsLastSave(init, ttl, cap, key);
      GetAfter(before, call, ttl, cap, key);
      if Get(after, key).Some? {
        if call.Save? && call.key == key {
          assert LastSave(calls, |calls| - 1, Get(after, key).value, ttl);
        } else {
          var i: nat :| LastSave(init, i, Get(before, key).value, ttl);
          StillLastSave(calls, i, Get(after, key).value, ttl);
        }
      }
    }
  }

  lemma GetAfter<V>(es: seq<Entry<V>>, call: Call<V>, ttl: int, cap: int, key: Str)
    requires DistinctKeys(es)
    ensures var e := Get(After(es, call, ttl, cap), key);
      e.Some? ==> e == if call.Save? && call.key == key then Some(Entry(key, call.val, call.now + ttl))
        else Get(es, key)
  {
    if call.key == key { GetAfterOwn(es, call, ttl, cap); } else { GetAfterOther(es, call, ttl, cap, key); }
  }

  lemma GetAfterOwn<V>(es: seq<Entry<V>>, call: Call<V>, ttl: int, cap: int)
    requires DistinctKeys(es)
    ensures var e := Get(After(es, call, ttl, cap), call.key);
      e.Some? ==> e == if call.Save? then Some(Entry(call.key, call.val, call.now + ttl)) else Get(es, call.key)
  {
    GetAt(es, call.key);
    WithoutIsSmaller(es, call.key);
    GetAt(Without(es, call.key), call.key);
  }

  lemma GetAfterOther<V>(es: seq<Entry<V>>, call: Call<V>, ttl: int, cap: int, key: Str)
    requires DistinctKeys(es) && call.key != key
    ensures var e := Get(After(es, call, ttl, cap), key); e.Some? ==> e == Get(es, key)
  {
    WithoutOther(es, call.key, key);
    if call.Save? {
      GetAfterSave(es, call.key, call.val, call.now, ttl, cap, key);
    } else {
      GetAt(es, call.key);
      if Get(es, call.key).Some? { Pushed(Without(es, call.key), Get(es, call.key).value, key); }
    }
  }

  lemma GetAfterSave<V>(es: seq<Entry<V>>, k: Str, val: V, now: int, ttl: int, cap: int, key: Str)
    requires k != key && Get(Without(es, k), key) == Get(es, key)
    ensures var e := Get(Store(es, k, val, now, ttl, cap), key); e.Some? ==> e == Get(es, key)
  {
    var more := [Entry(k, val, now + ttl)] + Without(es, k);
    Pushed(Without(es, k), Entry(k, val, now + ttl), key);
    PrefixGet(more, key);
  }

  lemma {:induction false} PrefixGet<V>(es: seq<Entry<V>>, key: Str)
    ensures forall n :: 0 <= n <= |es| ==> Get(es[..n], key).None? || Get(es[..n], key) == Get(es, key)
  {
    if es != [] {
      PrefixGet(es[1..], key);
      forall n | 0 < n <= |es| ensures Get(es[..n], key).None? || Get(es[..n], key) == Get(es, key) {
        assert es[..n][1..] == es[1..][..n - 1];
      }
    }
  }

  /** The i-th call stored this value under the key, no more than ttl before now, and no later one did. */
  ghost predicate ServedFrom<V>(calls: seq<Call<V>>, i: nat, key: Str, val: V, now: int, ttl: int)
  {
    && i < |calls| && calls[i] == Save(key, val, calls[i].now) && now <= calls[i].now + ttl
    && forall j :: i < j < |calls| ==> !(calls[j].Save? && calls[j].key == key)
  }

  /** A hit at time now returns the value most recently stored under the key, at most ttl after that. */
  lemma HitIsFreshLastSave<V>(calls: seq<Call<V>>, ttl: int, cap: int, key: Str, now: int)
    ensures var hit := Peek(Run([], calls, ttl, cap), key, now).1;
      hit.Some? ==> exists i :: ServedFrom(calls, i, key, hit.value, now, ttl)
  {
    var es := Run([], calls, ttl, cap);
    EntryIsLastSave(calls, ttl, cap, key);
    GetAt(es, key);
    if Peek(es, key, now).1.Some? {
      var i: nat :| LastSave(calls, i, Get(es, key).value, ttl);
      assert ServedFrom(calls, i, key, Get(es, key).value.val, now, ttl);
    }
  }

  // ---- Signed URLs ----

  const MINUTE: int := 60_000_000_000

  /** The cache lifetime of a URL signed for ttl: a margin of a tenth, at most a minute, is taken off. */
  function ClampCacheTTL(ttl: int): int
  {
    if ttl <= 0 then ttl
    else
      var margin := ttl / 10;
      ttl - if margin > MINUTE then MINUTE else margin
  }

  /** What the lifetime of a cached URL leaves of its validity: a tenth, and at most a minute. */
  function Margin(ttl: int): int
  {
    if ttl <= 0 then 0 else if ttl < 10 * MINUTE then ttl / 10 else MINUTE
  }

  /** A URL signed for ttl and cached at stored is still served at time t. */
  predicate Live(stored: int, ttl: int, t: int)
  {
    t <= stored + ClampCacheTTL(ttl)
  }

  datatype SignedUrl = SignedUrl(url: Str, validUntil: int)

  /** A URL signed at one time and stored at another is never served past its validity if and only if the
      delay between the two is at most the margin: signing latency eats the margin, it does not widen it. */
  lemma UrlOutlivesEntryExactly(signed: int, stored: int, ttl: int)
    ensures (forall t :: Live(stored, ttl, t) ==> t <= signed + ttl) <==> stored - signed <= Margin(ttl)
  {
    assert Live(stored, ttl, stored + ClampCacheTTL(ttl));
  }

  /** When every URL was stored within the margin of its signing, every hit of every run is still valid. */
  lemma CachedUrlsAreValid(calls: seq<Call<SignedUrl>>, urlTTL: int, cap: int, key: Str, now: int)
    requires forall i ::
      0 <= i < |calls| && calls[i].Save? ==> calls[i].now - (calls[i].val.validUntil - urlTTL) <= Margin(urlTTL)
    ensures var hit := Peek(Run([], calls, ClampCacheTTL(urlTTL), cap), key, now).1;
      hit.Some? ==> now <= hit.value.validUntil
  {
    var hit := Peek(Run([], calls, ClampCacheTTL(urlTTL), cap), key, now).1;
    HitIsFreshLastSave(calls, ClampCacheTTL(urlTTL), cap, key, now);
    if hit.Some? {
      var i: nat :| ServedFrom(calls, i, key, hit.value, now, ClampCacheTTL(urlTTL));
      assert calls[i].Save?;
      assert Live(calls[i].now, urlTTL, now);
      UrlOutlivesEntryExactly(hit.value.validUntil - urlTTL, calls[i].now, urlTTL);
    }
  }

  predicate ServedLate(es: seq<Entry<SignedUrl>>, key: Str, saved: SignedUrl, now: int)
  {
    Peek(es, key, now).1 == Some(saved) && now > saved.validUntil
  }

  ghost predicate MayServeLate(es: seq<Entry<SignedUrl>>, key: Str, saved: SignedUrl)
  {
    exists now :: ServedLate(es, key, saved, now)
  }

  /** A URL saved too late after its signing is served when it has expired: the margin is exact for the cache
      itself, whatever its capacity. */
  lemma LateUrlIsServed(url: Str, signed: int, stored: int, urlTTL: int, cap: int, key: Str)
    ensures var saved := SignedUrl(url, signed + urlTTL);
      MayServeLate(Run([], [Save(key, saved, stored)], ClampCacheTTL(urlTTL), cap), key, saved) <==>
      stored - signed > Margin(urlTTL)
  {
    var saved, ttl := SignedUrl(url, signed + urlTTL), ClampCacheTTL(urlTTL);
    var calls := [Save(key, saved, stored)];
    assert calls[..0] == [] && Run([], calls[..0], ttl, cap) == [];
    var es := Run([], calls, ttl, cap);
    assert es == [Entry(key, saved, stored + ttl)];
    assert IndexOf(es, key) == 0;
    UrlOutlivesEntryExactly(signed, stored, urlTTL);
    if stored - signed > Margin(urlTTL) {
      assert ServedLate(es, key, saved, stored + ttl);
      assert MayServeLate(es, key, saved);
    } else {
      assert forall now :: ServedLate(es, key, saved, now) ==> Live(stored, urlTTL, now);
    }
  }

  // ---- The cache as the program keeps it: a list and a map that share their elements ----

  /** What a list of element handles holds. */
  function View<V>(ll: seq<nat>, elements: map<nat, Entry<V>>): (es: seq<Entry<V>>)
    requires forall i :: 0 <= i < |ll| ==> ll[i] in elements
    ensures |es| == |ll| && forall i :: 0 <= i < |ll| ==> es[i] == elements[ll[i]]
  {
    seq(|ll|, i requires 0 <= i < |ll| => elements[ll[i]])
  }

  /** List and map hold the same elements, each under its own key. */
  ghost predicate Linked<V>(ll: seq<nat>, items: map<Str, nat>, elements: map<nat, Entry<V>>)
  {
    && (forall i :: 0 <= i < |ll| ==> ll[i] in elements)
    && DistinctKeys(View(ll, elements))
    && (forall i :: 0 <= i < |ll| ==> elements[ll[i]].key in items && items[elements[ll[i]].key] == ll[i])
    && (forall k <- items :: items[k] in ll && elements[items[k]].key == k)
  }

  lemma UniqueIndex<V>(es: seq<Entry<V>>, i: nat)
    requires DistinctKeys(es) && i < |es|
    ensures IndexOf(es, es[i].key) == i
  {
  }

  /** A list without its i-th element. */
  function Cut<T>(s: seq<T>, i: nat): (t: seq<T>)
    requires i < |s|
    ensures |t| == |s| - 1 && forall j :: 0 <= j < |t| ==> t[j] == s[if j < i then j else j + 1]
  {
    s[..i] + s[i + 1..]
  }

  lemma CutView<V>(ll: seq<nat>, elements: map<nat, Entry<V>>, i: nat)
    requires (forall j :: 0 <= j < |ll| ==> ll[j] in elements) && i < |ll| && DistinctKeys(View(ll, elements))
    ensures View(Cut(ll, i), elements) == Without(View(ll, elements), elements[ll[i]].key)
    ensures IndexOf(View(ll, elements), elements[ll[i]].key) == i
    ensures DistinctKeys(View(Cut(ll, i), elements))
  {
    UniqueIndex(View(ll, elements), i);
    WithoutIsCut(View(ll, elements), i);
    assert View(Cut(ll, i), elements) == Cut(View(ll, elements), i);
  }

  lemma {:induction false} WithoutIsCut<V>(es: seq<Entry<V>>, i: nat)
    requires i < |es| && IndexOf(es, es[i].key) == i
    ensures Without(es, es[i].key) == Cut(es, i)
  {
    if i == 0 {
      assert Cut(es, i) == es[1..];
    } else {
      assert es[1..][i - 1] == es[i] && es[0].key != es[i].key;
      WithoutIsCut(es[1..], i - 1);
      CutTail(es, i);
    }
  }

  lemma CutTail<T>(s: seq<T>, i: nat)
    requires 0 < i < |s|
    ensures Cut(s, i) == [s[0]] + Cut(s[1..], i - 1)
  {
  }

  lemma UnlinkKeeps<V>(ll: seq<nat>, items: map<Str, nat>, elements: map<nat, Entry<V>>, i: nat)
    requires Linked(ll, items, elements) && i < |ll|
    ensures Linked(Cut(ll, i), items - {elements[ll[i]].key}, elements) && ll[i] !in Cut(ll, i)
  {
    CutView(ll, elements, i);
  }

  lemma LinkKeeps<V>(ll: seq<nat>, items: map<Str, nat>, elements: map<nat, Entry<V>>, h: nat)
    requires Linked(ll, items, elements) && h in elements && elements[h].key !in items
    ensures Linked([h] + ll, items[elements[h].key := h], elements)
    ensures View([h] + ll, elements) == [elements[h]] + View(ll, elements)
  {
    var ll', items' := [h] + ll, items[elements[h].key := h];
    assert forall j :: 0 < j < |ll'| ==> ll'[j] == ll[j - 1];
    assert forall k <- items' :: items'[k] in ll' && elements[items'[k]].key == k;
  }

  lemma AbsentKey<V>(ll: seq<nat>, items: map<Str, nat>, elements: map<nat, Entry<V>>, key: Str)
    requires Linked(ll, items, elements) && key !in items
    ensures IndexOf(View(ll, elements), key) == |ll| && Without(View(ll, elements), key) == View(ll, elements)
  {
    GetAt(View(ll, elements), key);
    WithoutAbsent(View(ll, elements), key);
  }

  /** Elements outside the list do not show in it. */
  lemma ChangeUnlinked<V>(ll: seq<nat>, items: map<Str, nat>, elements: map<nat, Entry<V>>, h: nat, e: Entry<V>)
    requires Linked(ll, items, elements) && h !in ll
    ensures Linked(ll, items, elements[h := e]) && View(ll, elements[h := e]) == View(ll, elements)
  {
  }

  /** The linked list and the map of the program; list elements are handles into a store of elements, so an
      element changed through the map is changed in the list. */
  class Cache<V> {
    const cap: int
    const ttl: int
    var ll: seq<nat>
    var items: map<Str, nat>
    var elements: map<nat, Entry<V>>
    var next: nat

    constructor (cap: int, ttl: int)
      ensures Valid() && Contents() == [] && this.cap == cap && this.ttl == ttl
    {
      this.cap, this.ttl, ll, items, elements, next := cap, ttl, [], map[], map[], 0;
    }

    ghost predicate Valid()
      reads this
    {
      && Linked(ll, items, elements) && (cap > 0 ==> |ll| <= cap)
      && forall h <- elements :: h < next
    }

    ghost function Contents(): seq<Entry<V>>
      requires Valid()
      reads this
    {
      View(ll, elements)
    }

    /** Position of a linked element. */
    method Find(h: nat) returns (i: nat)
      requires h in ll
      ensures i < |ll| && ll[i] == h
    {
      i := 0;
      while ll[i] != h
        invariant i < |ll| && h in ll[i..]
        decreases |ll| - i
      {
        i := i + 1;
      }
    }

    /** A live cached value, evicting and missing on expiry. */
    method PeekKey(key: Str, now: int) returns (r: Option<V>)
      requires Valid()
      modifies this
      ensures Valid() && (Contents(), r) == Peek(old(Contents()), key, now)
    {
      if key !in items {
        AbsentKey(ll, items, elements, key);
        return None;
      }
      var h := items[key];
      var i := Find(h);
      CutView(ll, elements, i);
      if now > elements[h].expiry {
        UnlinkKeeps(ll, items, elements, i);
        ll, items := Cut(ll, i), items - {key};
        return None;
      }
      MoveToFront(i, elements[h]);
      r := Some(elements[h].val);
    }

    /** Moves the i-th element to the front, holding e from now on. */
    method MoveToFront(i: nat, e: Entry<V>)
      requires Valid() && i < |ll| && e.key == elements[ll[i]].key
      modifies this
      ensures Valid() && Contents() == [e] + Without(old(Contents()), e.key)
      ensures elements == old(elements)[old(ll)[i] := e]
    {
      var h := ll[i];
      CutView(ll, elements, i);
      UnlinkKeeps(ll, items, elements, i);
      ChangeUnlinked(Cut(ll, i), items - {e.key}, elements, h, e);
      LinkKeeps(Cut(ll, i), items - {e.key}, elements[h := e], h);
      assert (items - {e.key})[e.key := h] == items;
      elements := elements[h := e];
      ll := [h] + Cut(ll, i);
    }

    /** Inserts or refreshes an entry, evicting the least recently used ones when over capacity. */
    method StoreKey(key: Str, val: V, now: int)
      requires Valid()
      modifies this
      ensures Valid() && Contents() == Store(old(Contents()), key, val, now, ttl, cap)
    {
      var e := Entry(key, val, now + ttl);
      if key in items {
        var i := Find(items[key]);
        CutView(ll, elements, i);
        MoveToFront(i, e);
        return;
      }
      AbsentKey(ll, items, elements, key);
      ChangeUnlinked(ll, items, elements, next, e);
      LinkKeeps(ll, items, elements[next := e], next);
      elements := elements[next := e];
      ll := [next] + ll;
      items := items[key := next];
      next := next + 1;
      Evict();
    }

    /** Drops the oldest entries until the capacity holds. */
    method Evict()
      requires Linked(ll, items, elements) && (cap > 0 ==> |ll| <= cap + 1) && forall h <- elements :: h < next
      modifies this
      ensures Valid() && Contents() == old(if 0 < cap < |ll| then View(ll, elements)[..cap] else View(ll, elements))
    {
      ghost var more := View(ll, elements);
      while cap > 0 && |ll| > cap
        invariant Linked(ll, items, elements) && (forall h <- elements :: h < next)
        invariant |ll| <= |more| && View(ll, elements) == more[..|ll|]
        invariant cap > 0 ==> |ll| <= cap + 1
        invariant |ll| == |more| || (cap > 0 && |ll| == cap)
        decreases |ll|
      {
        var last := |ll| - 1;
        UnlinkKeeps(ll, items, elements, last);
        items := items - {elements[ll[last]].key};
        assert Cut(ll, last) == ll[..last];
        ll := ll[..last];
      }
    }
  }
}
