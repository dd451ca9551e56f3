/** PyPI project names under the "Normalized Names" section of PEP 503, for ASCII names. */
module PyPI {
  import opened Text

  predicate Separator(c: Byte)
  {
    c == '-' || c == '_' || c == '.'
  }

  /** Every run of separators becomes one '-' and letters become lower case; after says that the run before
      goes on. */
  function Fold(s: Str, after: bool): Str
  {
    if s == [] then []
    else if Separator(s[0]) then (if after then [] else ['-']) + Fold(s[1..], true)
    else [ToLower(s[0])] + Fold(s[1..], false)
  }

  predicate ValidProject(s: Str)
  {
    s != [] && s[0] != '.' && '/' !in s && '\\' !in s
  }

  function NormalizeProject(name: Str): Option<Str>
  {
    if ValidProject(name) then Some(Fold(name, false)) else None
  }

  // ---- Normal forms are fixed ----

  lemma {:induction false} FoldTwice(s: Str, after: bool)
    ensures Fold(Fold(s, after), after) == Fold(s, after)
    ensures after && Fold(s, after) != [] ==> !Separator(Fold(s, after)[0])
  {
    if s != [] {
      var rest := Fold(s[1..], Separator(s[0]));
      FoldTwice(s[1..], Separator(s[0]));
      if !Separator(s[0]) {
        assert ([ToLower(s[0])] + rest)[1..] == rest;
      } else if !after {
        assert (['-'] + rest)[1..] == rest;
      } else {
        assert [] + rest == rest;
      }
    }
  }

  lemma {:induction false} FoldBytes(s: Str, after: bool, c: Byte)
    requires c in Fold(s, after) && !Separator(c)
    ensures exists d :: d in s && ToLower(d) == c
  {
    if Separator(s[0]) {
      FoldBytes(s[1..], true, c);
    } else if c != ToLower(s[0]) {
      FoldBytes(s[1..], false, c);
    }
  }

  /** A normal form is accepted and is its own normal form. */
  lemma NormalizeIsIdempotent(name: Str, normal: Str)
    requires NormalizeProject(name) == Some(normal)
    ensures NormalizeProject(normal) == Some(normal)
  {
    FoldTwice(name, false);
    if '/' in normal { FoldBytes(name, false, '/'); }
    if '\\' in normal { FoldBytes(name, false, '\\'); }
  }

  // ---- Which names are the same project ----

  /** One byte in place of another: the same letter in either case, or one separator for another. */
  predicate SameByte(x: Byte, y: Byte)
  {
    ToLower(x) == ToLower(y) || (Separator(x) && Separator(y))
  }

  /** One rewriting step, with what precedes it, what it replaces and by what, and what follows. */
  datatype Rewrite = Rewrite(before: Str, x: Byte, y: Byte, after: Str)

  predicate Substitutes(a: Str, b: Str, r: Rewrite)
  {
    SameByte(r.x, r.y) && a == r.before + [r.x] + r.after && b == r.before + [r.y] + r.after
  }

  predicate Collapses(a: Str, b: Str, r: Rewrite)
  {
    Separator(r.x) && Separator(r.y) && a == r.before + [r.x, r.y] + r.after && b == r.before + [r.x] + r.after
  }

  ghost predicate Step(a: Str, b: Str)
  {
    exists r :: Substitutes(a, b, r) || Collapses(a, b, r) || Collapses(b, a, r)
  }

  /** Equivalent names are joined by a chain of steps. */
  ghost predicate Chain(names: seq<Str>, a: Str, b: Str)
  {
    && names != [] && names[0] == a && names[|names| - 1] == b
    && forall i | 0 <= i < |names| - 1 :: Step(names[i], names[i + 1])
  }

  ghost predicate Equivalent(a: Str, b: Str)
  {
    exists names :: Chain(names, a, b)
  }

  lemma Reflexive(a: Str)
    ensures Equivalent(a, a)
  {
    assert Chain([a], a, a);
  }

  lemma OneStep(a: Str, b: Str)
    requires Step(a, b)
    ensures Equivalent(a, b)
  {
    assert Chain([a, b], a, b);
  }

  lemma Transitive(a: Str, b: Str, c: Str)
    requires Equivalent(a, b) && Equivalent(b, c)
    ensures Equivalent(a, c)
  {
    var p, q :| Chain(p, a, b) && Chain(q, b, c);
    assert Chain(p + q[1..], a, c);
  }

  lemma SameByteStep(before: Str, x: Byte, y: Byte, after: Str)
    requires SameByte(x, y)
    ensures Step(before + [x] + after, before + [y] + after)
  {
    assert Substitutes(before + [x] + after, before + [y] + after, Rewrite(before, x, y, after));
  }

  lemma StepBack(a: Str, b: Str)
    requires Step(a, b)
    ensures Step(b, a)
  {
    var r :| Substitutes(a, b, r) || Collapses(a, b, r) || Collapses(b, a, r);
    if Substitutes(a, b, r) { assert Substitutes(b, a, Rewrite(r.before, r.y, r.x, r.after)); }
  }

  lemma {:induction false} Symmetric(names: seq<Str>, a: Str, b: Str)
    requires Chain(names, a, b)
    ensures Equivalent(b, a)
  {
    if |names| == 1 {
      Reflexive(a);
    } else {
      assert Chain(names[1..], names[1], b);
      Symmetric(names[1..], names[1], b);
      StepBack(a, names[1]);
      OneStep(names[1], a);
      Transitive(b, names[1], a);
    }
  }

  // ---- Steps keep the normal form ----

  lemma {:induction false} FoldSame(before: Str, x: Byte, y: Byte, rest: Str, after: bool)
    requires SameByte(x, y)
    ensures Fold(before + [x] + rest, after) == Fold(before + [y] + rest, after)
  {
    var a, b := before + [x] + rest, before + [y] + rest;
    if before == [] {
      assert a[1..] == rest && b[1..] == rest;
      assert Separator(x) == Separator(y);
    } else {
      assert a[1..] == before[1..] + [x] + rest && b[1..] == before[1..] + [y] + rest;
      FoldSame(before[1..], x, y, rest, Separator(before[0]));
    }
  }

  lemma {:induction false} FoldRun(before: Str, x: Byte, y: Byte, rest: Str, after: bool)
    requires Separator(x) && Separator(y)
    ensures Fold(before + [x, y] + rest, after) == Fold(before + [x] + rest, after)
  {
    var a, b := before + [x, y] + rest, before + [x] + rest;
    if before == [] {
      assert a[1..] == [y] + rest && b[1..] == rest && ([y] + rest)[1..] == rest;
    } else {
      assert a[1..] == before[1..] + [x, y] + rest && b[1..] == before[1..] + [x] + rest;
      FoldRun(before[1..], x, y, rest, Separator(before[0]));
    }
  }

  lemma StepKeepsFold(a: Str, b: Str)
    requires Step(a, b)
    ensures Fold(a, false) == Fold(b, false)
  {
    var r :| Substitutes(a, b, r) || Collapses(a, b, r) || Collapses(b, a, r);
    if Substitutes(a, b, r) {
      FoldSame(r.before, r.x, r.y, r.after, false);
    } else {
      FoldRun(r.before, r.x, r.y, r.after, false);
    }
  }

  lemma {:induction false} ChainKeepsFold(names: seq<Str>, a: Str, b: Str)
    requires Chain(names, a, b)
    ensures Fold(a, false) == Fold(b, false)
  {
    if |names| > 1 {
      StepKeepsFold(a, names[1]);
      assert Chain(names[1..], names[1], b);
      ChainKeepsFold(names[1..], names[1], b);
    }
  }

  // ---- Every name rewrites to its normal form ----

  lemma {:induction false} Reaches(done: Str, s: Str, after: bool)
    requires after ==> done != [] && done[|done| - 1] == '-'
    ensures Equivalent(done + s, done + Fold(s, after))
    decreases |s|, 0
  {
    if s == [] {
      Reflexive(done);
      assert done + s == done;
    } else {
      var c, rest := s[0], s[1..];
      assert done + s == done + [c] + rest;
      if !Separator(c) {
        Advance(done, c, ToLower(c), rest, false);
        assert done + [ToLower(c)] + Fold(rest, false) == done + Fold(s, after);
      } else if !after {
        Advance(done, c, '-', rest, true);
        assert done + ['-'] + Fold(rest, true) == done + Fold(s, after);
      } else {
        var most := done[..|done| - 1];
        assert done == most + ['-'];
        assert done + s == most + ['-', c] + rest && done + rest == most + ['-'] + rest;
        assert Collapses(done + s, done + rest, Rewrite(most, '-', c, rest));
        OneStep(done + s, done + rest);
        Reaches(done, rest, true);
        assert Fold(s, after) == Fold(rest, true);
        Transitive(done + s, done + rest, done + Fold(rest, true));
      }
    }
  }

  lemma {:induction false} Advance(done: Str, c: Byte, d: Byte, rest: Str, after: bool)
    requires SameByte(c, d) && (after ==> d == '-')
    ensures Equivalent(done + [c] + rest, done + [d] + Fold(rest, after))
    decreases |rest|, 1
  {
    SameByteStep(done, c, d, rest);
    OneStep(done + [c] + rest, done + [d] + rest);
    Reaches(done + [d], rest, after);
    Transitive(done + [c] + rest, done + [d] + rest, done + [d] + Fold(rest, after));
  }

  /** Nothing left to rewrite: no upper-case letter, no separator but '-', and no two of those in a row. */
  predicate Canonical(s: Str)
  {
    && (forall i | 0 <= i < |s| :: s[i] != '_' && s[i] != '.' && !('A' <= s[i] <= 'Z'))
    && forall i | 0 <= i < |s| - 1 :: !(s[i] == '-' && s[i + 1] == '-')
  }

  lemma {:induction false} FoldIsCanonical(s: Str, after: bool)
    ensures Canonical(Fold(s, after)) && (after && Fold(s, after) != [] ==> Fold(s, after)[0] != '-')
  {
    if s != [] {
      FoldIsCanonical(s[1..], Separator(s[0]));
    }
  }

  lemma {:induction false} CanonicalIsFixed(s: Str, after: bool)
    requires Canonical(s) && (after && s != [] ==> s[0] != '-')
    ensures Fold(s, after) == s
  {
    if s != [] {
      CanonicalIsFixed(s[1..], s[0] == '-');
      assert s == [s[0]] + s[1..];
    }
  }

  /** The normal form of an accepted name is the one canonical name it is equivalent to, and others have none. */
  lemma NormalFormExactly(name: Str, normal: Str)
    ensures NormalizeProject(name) == Some(normal) <==>
      ValidProject(name) && Canonical(normal) && Equivalent(name, normal)
  {
    if NormalizeProject(name) == Some(normal) {
      FoldIsCanonical(name, false);
      Reaches([], name, false);
      assert [] + name == name && [] + normal == normal;
    } else if ValidProject(name) && Canonical(normal) && Equivalent(name, normal) {
      var names :| Chain(names, name, normal);
      ChainKeepsFold(names, name, normal);
      CanonicalIsFixed(normal, false);
    }
  }

  /** Two accepted names have the same normal form exactly when they are equivalent. */
  lemma NormalFormsIdentify(a: Str, b: Str)
    requires ValidProject(a) && ValidProject(b)
    ensures NormalizeProject(a) == NormalizeProject(b) <==> Equivalent(a, b)
  {
    if Equivalent(a, b) {
      var names :| Chain(names, a, b);
      ChainKeepsFold(names, a, b);
    } else if NormalizeProject(a) == NormalizeProject(b) {
      Reaches([], a, false);
      Reaches([], b, false);
      assert [] + a == a && [] + b == b && [] + Fold(a, false) == Fold(a, false) &&
        [] + Fold(b, false) == Fold(b, false);
      var names :| Chain(names, b, Fold(b, false));
      Symmetric(names, b, Fold(b, false));
      Transitive(a, Fold(a, false), b);
    }
  }
}
