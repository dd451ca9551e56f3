/** Sorting by an order, and the byte-wise order of strings. */
module Sorting {
  import opened Text

  predicate LessEq(a: Str, b: Str)
  {
    a == [] || (b != [] && (a[0] < b[0] || (a[0] == b[0] && LessEq(a[1..], b[1..]))))
  }

  /** The byte at which two strings first differ. */
  ghost predicate SmallerAt(a: Str, b: Str, k: nat)
  {
    k < |a| && k < |b| && a[..k] == b[..k] && a[k] < b[k]
  }

  /** The order is by prefix, and else by the first byte that differs. */
  lemma {:induction false} LessEqExactly(a: Str, b: Str)
    ensures LessEq(a, b) <==> a <= b || exists k: nat :: SmallerAt(a, b, k)
  {
    if a != [] && b != [] {
      forall k: nat | k > 0 && SmallerAt(a, b, k) ensures a[0] == b[0] {
        assert a[..k][0] == b[..k][0];
      }
      if a[0] == b[0] {
        LessEqExactly(a[1..], b[1..]);
        if k: nat :| SmallerAt(a[1..], b[1..], k) {
          assert a[..k + 1] == [a[0]] + a[1..][..k] && b[..k + 1] == [b[0]] + b[1..][..k];
          assert SmallerAt(a, b, k + 1);
        }
        if k: nat :| SmallerAt(a, b, k) {
          assert a[1..][..k - 1] == a[..k][1..] && b[1..][..k - 1] == b[..k][1..];
          assert SmallerAt(a[1..], b[1..], k - 1);
        }
        assert a <= b <==> a[1..] <= b[1..] by {
          assert a == [a[0]] + a[1..] && b == [b[0]] + b[1..];
          if a[1..] <= b[1..] { assert b[1..][..|a| - 1] == b[..|a|][1..]; }
        }
      } else if a[0] < b[0] {
        assert SmallerAt(a, b, 0);
      }
    }
  }

  lemma {:induction false} Total(a: Str, b: Str)
    ensures LessEq(a, b) || LessEq(b, a)
  {
    if a != [] && b != [] && a[0] == b[0] { Total(a[1..], b[1..]); }
  }

  lemma {:induction false} Transitive(a: Str, b: Str, c: Str)
    requires LessEq(a, b) && LessEq(b, c)
    ensures LessEq(a, c)
  {
    if a != [] && a[0] == b[0] == c[0] { Transitive(a[1..], b[1..], c[1..]); }
  }

  lemma {:induction false} Antisymmetric(a: Str, b: Str)
    requires LessEq(a, b) && LessEq(b, a)
    ensures a == b
  {
    if a != [] {
      Antisymmetric(a[1..], b[1..]);
      assert a == [a[0]] + a[1..] && b == [b[0]] + b[1..];
    }
  }

  ghost predicate Order<T(!new)>(le: (T, T) -> bool)
  {
    && (forall a, b :: le(a, b) || le(b, a))
    && (forall a, b, c :: le(a, b) && le(b, c) ==> le(a, c))
  }

  lemma BytesAreOrdered()
    ensures Order(LessEq)
  {
    forall a, b ensures LessEq(a, b) || LessEq(b, a) { Total(a, b); }
    forall a, b, c | LessEq(a, b) && LessEq(b, c) ensures LessEq(a, c) { Transitive(a, b, c); }
  }

  predicate Sorted<T>(le: (T, T) -> bool, s: seq<T>)
  {
    forall i, j :: 0 <= i < j < |s| ==> le(s[i], s[j])
  }

  predicate Distinct<T(==)>(s: seq<T>)
  {
    forall i, j :: 0 <= i < j < |s| ==> s[i] != s[j]
  }

  function Insert<T>(le: (T, T) -> bool, x: T, s: seq<T>): seq<T>
  {
    if s == [] then [x] else if le(x, s[0]) then [x] + s else [s[0]] + Insert(le, x, s[1..])
  }

  function Sort<T>(le: (T, T) -> bool, s: seq<T>): seq<T>
  {
    if s == [] then [] else Insert(le, s[|s| - 1], Sort(le, s[..|s| - 1]))
  }

  lemma {:induction false} InsertSorts<T(!new)>(le: (T, T) -> bool, x: T, s: seq<T>)
    requires Order(le) && Sorted(le, s)
    ensures Sorted(le, Insert(le, x, s)) && multiset(Insert(le, x, s)) == multiset(s) + multiset{x}
  {
    if s != [] {
      if le(x, s[0]) {
      } else {
        InsertSorts(le, x, s[1..]);
        assert s == [s[0]] + s[1..];
        HeadFirst(le, x, s, Insert(le, x, s[1..]));
      }
    }
  }

  /** Sorting permutes its input into order. */
  lemma {:induction false} SortSorts<T(!new)>(le: (T, T) -> bool, s: seq<T>)
    requires Order(le)
    ensures Sorted(le, Sort(le, s)) && multiset(Sort(le, s)) == multiset(s)
  {
    if s != [] {
      assert s == s[..|s| - 1] + [s[|s| - 1]];
      SortSorts(le, s[..|s| - 1]);
      InsertSorts(le, s[|s| - 1], Sort(le, s[..|s| - 1]));
    }
  }

  lemma HeadFirst<T(!new)>(le: (T, T) -> bool, x: T, s: seq<T>, rest: seq<T>)
    requires Order(le) && s != [] && Sorted(le, s) && !le(x, s[0])
    requires Sorted(le, rest) && multiset(rest) == multiset(s[1..]) + multiset{x}
    ensures Sorted(le, [s[0]] + rest)
  {
    forall j | 0 <= j < |rest|
      ensures le(s[0], rest[j])
    {
      assert rest[j] in multiset(rest);
      if rest[j] != x {
        assert rest[j] in multiset(s[1..]);
        var i :| 0 <= i < |s[1..]| && s[1..][i] == rest[j];
        assert s[i + 1] == rest[j];
      }
    }
  }

  lemma SameMembers<T>(s: seq<T>, t: seq<T>, x: T)
    requires multiset(s) == multiset(t)
    ensures x in s <==> x in t
  {
    assert x in s <==> x in multiset(s);
  }

  lemma {:induction false} DistinctCounts<T>(s: seq<T>)
    ensures Distinct(s) <==> forall x :: multiset(s)[x] <= 1
  {
    if s != [] {
      var last, rest := s[|s| - 1], s[..|s| - 1];
      assert s == rest + [last];
      DistinctCounts(rest);
      if Distinct(s) {
        assert Distinct(rest);
        assert last !in rest;
        assert multiset(rest)[last] == 0;
      } else if Distinct(rest) {
        var i :| 0 <= i < |rest| && rest[i] == last;
        assert last in multiset(rest);
        assert multiset(s)[last] >= 2;
      } else {
        var x :| multiset(rest)[x] > 1;
        assert multiset(s)[x] > 1;
      }
    }
  }

  /** Sorting keeps distinct members distinct. */
  lemma SortDistinct<T(!new)>(le: (T, T) -> bool, s: seq<T>)
    requires Order(le) && Distinct(s)
    ensures Distinct(Sort(le, s))
  {
    SortSorts(le, s);
    DistinctCounts(s);
    DistinctCounts(Sort(le, s));
  }
}
