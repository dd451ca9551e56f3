/** The least-recently-used law of the cache, told from its calls alone: which lookups hit, and with what. */
module LruLaw {
  import opened Text
  import opened MemoCache

  /** What the last store of a key among the calls put there. */
  function LastSaved<V>(calls: seq<Call<V>>, key: Str, ttl: int): Option<Entry<V>>
  {
    if calls == [] then None
    else
      var call := calls[|calls| - 1];
      if call.Save? && call.key == key then Some(Entry(key, call.val, call.now + ttl))
      else LastSaved(calls[..|calls| - 1], key, ttl)
  }

  /** Since its last store a lookup came past its expiry. */
  predicate ExpiredSince<V>(calls: seq<Call<V>>, key: Str, ttl: int)
  {
    calls != [] &&
    var init, call := calls[..|calls| - 1], calls[|calls| - 1];
    !(call.Save? && call.key == key) &&
    (ExpiredSince(init, key, ttl) || (call.key == key && LastSaved(init, key, ttl).Some?
                                      && call.now > LastSaved(init, key, ttl).value.expiry))
  }

  lemma {:induction false} CachedIsLastSaved<V>(calls: seq<Call<V>>, ttl: int, cap: int, key: Str)
    ensures var e := Get(Run([], calls, ttl, cap), key); e.Some? ==> e == LastSaved(calls, key, ttl)
  {
    if calls != [] {
      var init := calls[..|calls| - 1];
      CachedIsLastSaved(init, ttl, cap, key);
      RunKeepsBound(init, ttl, cap);
      GetAfter(Run([], init, ttl, cap), calls[|calls| - 1], ttl, cap, key);
    }
  }

  /** A touch brings its key to the front. */
  lemma TouchedIsFirst<V>(es: seq<Entry<V>>, call: Call<V>, ttl: int, cap: int, key: Str)
    requires key in Touches(es, call)
    ensures var es' := After(es, call, ttl, cap); es' != [] && es'[0].key == key
  {
  }

  /** A lookup hits if and only if the key has an entry that has not expired, and returns its value. */
  lemma HitsExactly<V>(es: seq<Entry<V>>, key: Str, now: int)
    ensures var hit, e := Peek(es, key, now).1, Get(es, key);
      hit == if e.Some? && now <= e.value.expiry then Some(e.value.val) else None
  {
    GetAt(es, key);
  }

  /** The key's entry is in the cache behind none but these others, or it was found expired. */
  ghost predicate Recent<V>(es: seq<Entry<V>>, calls: seq<Call<V>>, key: Str, ttl: int, others: set<Str>)
  {
    ExpiredSince(calls, key, ttl) || (Get(es, key).Some? && Ahead(es, key) <= others)
  }

  lemma TouchMakesRecent<V>(es: seq<Entry<V>>, calls: seq<Call<V>>, call: Call<V>, ttl: int, cap: int, key: Str,
      others: set<Str>)
    requires key in Touches(es, call)
    ensures Recent(After(es, call, ttl, cap), calls + [call], key, ttl, others)
  {
    TouchedIsFirst(es, call, ttl, cap, key);
  }

  lemma StaysRecent<V>(es: seq<Entry<V>>, calls: seq<Call<V>>, call: Call<V>, ttl: int, cap: int, key: Str,
      others: set<Str>)
    requires DistinctKeys(es) && (cap > 0 ==> |es| <= cap)
    requires Get(es, key).Some? ==> Get(es, key) == LastSaved(calls, key, ttl)
    requires Recent(es, calls, key, ttl, others) && key !in Touches(es, call)
    requires cap > 0 ==> |others + Touches(es, call)| < cap
    ensures Recent(After(es, call, ttl, cap), calls + [call], key, ttl, others + Touches(es, call))
  {
    assert (calls + [call])[..|calls + [call]| - 1] == calls;
    if !ExpiredSince(calls, key, ttl) {
      OneCall(es, call, ttl, cap, key);
      Larger(Ahead(es, key) + Touches(es, call), others + Touches(es, call));
    }
  }

  lemma {:induction false} RunConcat<V>(es: seq<Entry<V>>, a: seq<Call<V>>, b: seq<Call<V>>, ttl: int, cap: int)
    ensures Run(es, a + b, ttl, cap) == Run(Run(es, a, ttl, cap), b, ttl, cap)
  {
    if b == [] {
      assert a + b == a;
    } else {
      assert (a + b)[..|a + b| - 1] == a + b[..|b| - 1];
      RunConcat(es, a, b[..|b| - 1], ttl, cap);
    }
  }

  /** The other keys touched by the later calls, the first ones having been made before. */
  function OthersTouched<V>(first: seq<Call<V>>, after: seq<Call<V>>, ttl: int, cap: int, key: Str): set<Str>
  {
    Touched(Run([], first, ttl, cap), after, ttl, cap) - {key}
  }

  lemma MoreTouched<V>(first: seq<Call<V>>, after: seq<Call<V>>, call: Call<V>, ttl: int, cap: int, key: Str)
    ensures OthersTouched(first, after + [call], ttl, cap, key) ==
      OthersTouched(first, after, ttl, cap, key) + (Touches(Run([], first + after, ttl, cap), call) - {key})
  {
    assert (after + [call])[..|after + [call]| - 1] == after;
    RunConcat([], first, after, ttl, cap);
  }

  lemma RecentStep<V>(first: seq<Call<V>>, after: seq<Call<V>>, call: Call<V>, ttl: int, cap: int, key: Str)
    requires var calls := first + after;
      Recent(Run([], calls, ttl, cap), calls, key, ttl, OthersTouched(first, after, ttl, cap, key))
    requires cap > 0 ==> |OthersTouched(first, after + [call], ttl, cap, key)| < cap
    ensures var calls := first + after + [call];
      Recent(Run([], calls, ttl, cap), calls, key, ttl, OthersTouched(first, after + [call], ttl, cap, key))
  {
    var calls := first + after;
    var es := Run([], calls, ttl, cap);
    var all := OthersTouched(first, after + [call], ttl, cap, key);
    MoreTouched(first, after, call, ttl, cap, key);
    assert (calls + [call])[..|calls + [call]| - 1] == calls;
    if key in Touches(es, call) {
      TouchMakesRecent(es, calls, call, ttl, cap, key, all);
    } else {
      RunKeepsBound(calls, ttl, cap);
      CachedIsLastSaved(calls, ttl, cap, key);
      assert Touches(es, call) - {key} == Touches(es, call);
      StaysRecent(es, calls, call, ttl, cap, key, OthersTouched(first, after, ttl, cap, key));
    }
  }

  lemma {:induction false} RecentKeys<V>(before: seq<Call<V>>, touch: Call<V>, after: seq<Call<V>>, ttl: int, cap: int,
      key: Str)
    requires key in Touches(Run([], before, ttl, cap), touch)
    requires cap > 0 ==> |OthersTouched(before + [touch], after, ttl, cap, key)| < cap
    ensures var calls := before + [touch] + after;
      Recent(Run([], calls, ttl, cap), calls, key, ttl, OthersTouched(before + [touch], after, ttl, cap, key))
  {
    var first := before + [touch];
    if after == [] {
      assert first[..|first| - 1] == before && first + after == first;
      TouchMakesRecent(Run([], before, ttl, cap), before, touch, ttl, cap, key, {});
    } else {
      var most, call := after[..|after| - 1], after[|after| - 1];
      assert after == most + [call] && first + after == first + most + [call];
      MoreTouched(first, most, call, ttl, cap, key);
      Larger(OthersTouched(first, most, ttl, cap, key), OthersTouched(first, after, ttl, cap, key));
      RecentKeys(before, touch, most, ttl, cap, key);
      RecentStep(first, most, call, ttl, cap, key);
    }
  }

  /** The LRU law over calls: once a store or a hit has touched a key, and as long as fewer other keys than the
      capacity are touched, a lookup within the expiry of the key's last store returns what it stored, unless an
      earlier lookup since then came past that expiry. */
  lemma RecentKeysHit<V>(before: seq<Call<V>>, touch: Call<V>, after: seq<Call<V>>, ttl: int, cap: int, key: Str,
      now: int)
    requires key in Touches(Run([], before, ttl, cap), touch)
    requires cap > 0 ==> |OthersTouched(before + [touch], after, ttl, cap, key)| < cap
    ensures var calls := before + [touch] + after;
      var saved := LastSaved(calls, key, ttl);
      !ExpiredSince(calls, key, ttl) ==>
        && saved.Some?
        && (now <= saved.value.expiry ==> Peek(Run([], calls, ttl, cap), key, now).1 == Some(saved.value.val))
  {
    var calls := before + [touch] + after;
    RecentKeys(before, touch, after, ttl, cap, key);
    CachedIsLastSaved(calls, ttl, cap, key);
    HitsExactly(Run([], calls, ttl, cap), key, now);
  }
}
