/** Go strings and byte slices: finite sequences of bytes. */
module Text {
  type Byte = c: char | (c as int) < 256 witness 'a'
  type Str = seq<Byte>

  datatype Option<+T> = None | Some(value: T)

  predicate HasSuffix(s: Str, suffix: Str)
  {
    |suffix| <= |s| && s[|s| - |suffix|..] == suffix
  }

  function TrimSuffix(s: Str, suffix: Str): Str
  {
    if HasSuffix(s, suffix) then s[..|s| - |suffix|] else s
  }

  function ToLower(c: Byte): Byte
  {
    if 'A' <= c <= 'Z' then ((c as int) + 32) as char else c
  }

  function Lower(s: Str): (t: Str)
    ensures |t| == |s| && forall i :: 0 <= i < |s| ==> t[i] == ToLower(s[i])
  {
    seq(|s|, i requires 0 <= i < |s| => ToLower(s[i]))
  }

  /** What precedes the first occurrence of a mark, and what follows it, are determined. */
  lemma CutAt(c: char, a: string, x: string, b: string, y: string)
    requires c !in a && c !in b && a + [c] + x == b + [c] + y
    ensures a == b && x == y
  {
    var s := a + [c] + x;
    assert s[|a|] == c && s[|b|] == c;
    assert forall i | 0 <= i < |a| :: s[i] == a[i] != c;
    assert forall i | 0 <= i < |b| :: s[i] == b[i] != c;
    assert a == s[..|a|] && b == s[..|a|];
    assert x == s[|a| + 1..] && y == s[|a| + 1..];
  }

  /** The parts joined by single slashes. */
  function Join(parts: seq<Str>): Str
  {
    if parts == [] then [] else if |parts| == 1 then parts[0] else parts[0] + "/" + Join(parts[1..])
  }

  predicate NoSlash(s: Str)
  {
    '/' !in s
  }

  predicate AllNoSlash(parts: seq<Str>)
  {
    forall i :: 0 <= i < |parts| ==> NoSlash(parts[i])
  }

  /** Index of the first slash, or the length when there is none. */
  function FirstSlash(s: Str): (i: nat)
    ensures i <= |s| && NoSlash(s[..i]) && (i < |s| ==> s[i] == '/')
  {
    if s == [] || s[0] == '/' then 0 else 1 + FirstSlash(s[1..])
  }

  /** The parts of s between its slashes. */
  function Split(s: Str): (parts: seq<Str>)
    ensures |parts| >= 1 && AllNoSlash(parts)
    decreases |s|
  {
    var i := FirstSlash(s);
    if i == |s| then [s] else [s[..i]] + Split(s[i + 1..])
  }

  lemma {:induction false} FirstSlashAfter(a: Str, rest: Str)
    requires NoSlash(a) && (rest == [] || rest[0] == '/')
    ensures FirstSlash(a + rest) == |a|
  {
    if a == [] {
      assert a + rest == rest;
    } else {
      assert (a + rest)[0] == a[0] && (a + rest)[1..] == a[1..] + rest;
      FirstSlashAfter(a[1..], rest);
    }
  }

  lemma SplitHead(a: Str, rest: Str)
    requires NoSlash(a)
    ensures Split(a + "/" + rest) == [a] + Split(rest)
  {
    var s := a + "/" + rest;
    assert s == a + ("/" + rest);
    FirstSlashAfter(a, "/" + rest);
    assert s[..|a|] == a && s[|a| + 1..] == rest;
  }

  /** Splitting undoes joining for parts without slashes. */
  lemma {:induction false} SplitJoin(parts: seq<Str>)
    requires parts != [] && AllNoSlash(parts)
    ensures Split(Join(parts)) == parts
  {
    if |parts| == 1 {
      FirstSlashAfter(parts[0], []);
      assert parts[0] + [] == parts[0];
    } else {
      SplitJoin(parts[1..]);
      SplitHead(parts[0], Join(parts[1..]));
    }
  }

  /** Joining undoes splitting. */
  lemma {:induction false} JoinSplit(s: Str)
    ensures Join(Split(s)) == s
    decreases |s|
  {
    var i := FirstSlash(s);
    if i < |s| {
      JoinSplit(s[i + 1..]);
      assert Split(s)[1..] == Split(s[i + 1..]);
      assert s == s[..i] + "/" + s[i + 1..];
    }
  }

  lemma {:induction false} JoinConcat(a: seq<Str>, b: seq<Str>)
    requires a != [] && b != []
    ensures Join(a + b) == Join(a) + "/" + Join(b)
  {
    if |a| == 1 {
      assert (a + b)[1..] == b;
    } else {
      assert (a + b)[1..] == a[1..] + b;
      JoinConcat(a[1..], b);
      assert a[0] + "/" + (Join(a[1..]) + "/" + Join(b)) == (a[0] + "/" + Join(a[1..])) + "/" + Join(b);
    }
  }

  lemma PartsGivePrefix(dir: seq<Str>, rest: seq<Str>)
    requires dir != [] && rest != []
    ensures Join(dir) + "/" <= Join(dir + rest) && Join(dir + rest)[|Join(dir)| + 1..] == Join(rest)
  {
    JoinConcat(dir, rest);
  }

  lemma PrefixGivesParts(dir: seq<Str>, path: seq<Str>) returns (rest: seq<Str>)
    requires dir != [] && path != [] && AllNoSlash(dir) && AllNoSlash(path)
    requires Join(dir) + "/" <= Join(path)
    ensures rest != [] && path == dir + rest
  {
    var tail := Join(path)[|Join(dir)| + 1..];
    assert Join(path) == Join(dir) + "/" + tail;
    rest := Split(tail);
    JoinSplit(tail);
    JoinConcat(dir, rest);
    assert Join(dir + rest) == Join(path);
    SplitJoin(path);
    SplitJoin(dir + rest);
  }

  /** A directory prefix covers a path exactly when its parts lead the path's parts, and what follows the
      prefix is the join of the remaining parts. */
  lemma PrefixIsParts(dir: seq<Str>, path: seq<Str>)
    requires dir != [] && path != [] && AllNoSlash(dir) && AllNoSlash(path)
    ensures Join(dir) + "/" <= Join(path) <==> |dir| < |path| && dir == path[..|dir|]
    ensures |dir| < |path| && dir == path[..|dir|] ==> Join(path)[|Join(dir)| + 1..] == Join(path[|dir|..])
  {
    if |dir| < |path| && dir == path[..|dir|] {
      PartsGivePrefix(dir, path[|dir|..]);
      assert dir + path[|dir|..] == path;
    } else if Join(dir) + "/" <= Join(path) {
      var rest := PrefixGivesParts(dir, path);
      assert false;
    }
  }
}
