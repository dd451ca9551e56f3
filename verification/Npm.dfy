/** npm package names as store keys, and finding the version that holds a tarball. */
module Npm {
  import opened Text
  import opened Paths
  import Index

  const MAX_NAME: nat := 214
  const TGZ: Str := ".tgz"

  /** scope is empty for an unscoped package. */
  datatype PackageName = PackageName(original: Str, scope: Str, name: Str)

  predicate NameByte(c: Byte)
  {
    'a' <= c <= 'z' || '0' <= c <= '9' || c == '.' || c == '_' || c == '-'
  }

  predicate ValidSegment(s: Str)
  {
    s != [] && s[0] != '.' && s[0] != '_' && forall i | 0 <= i < |s| :: NameByte(s[i])
  }

  function ParsePackageName(raw: Str): Option<PackageName>
  {
    if raw == [] || |raw| > MAX_NAME then None
    else if raw[0] == '@' then
      var rest := raw[1..];
      var slash := FirstSlash(rest);
      if slash == |rest| then None
      else if !ValidSegment(rest[..slash]) || !ValidSegment(rest[slash + 1..]) then None
      else Some(PackageName(raw, rest[..slash], rest[slash + 1..]))
    else if !ValidSegment(raw) then None
    else Some(PackageName(raw, [], raw))
  }

  /** The name a package has in the store. */
  function Core(pn: PackageName): Str
  {
    if pn.scope != [] then "s/" + pn.scope + "/" + pn.name else "u/" + pn.name
  }

  function DecodeCore(core: Str): Option<PackageName>
  {
    if "s/" <= core then
      var rest := core[2..];
      var slash := FirstSlash(rest);
      if slash == |rest| then None
      else Some(PackageName("@" + rest[..slash] + "/" + rest[slash + 1..], rest[..slash], rest[slash + 1..]))
    else if "u/" <= core then Some(PackageName(core[2..], [], core[2..]))
    else None
  }

  predicate WellFormed(pn: PackageName)
  {
    && ValidSegment(pn.name)
    && (if pn.scope == [] then pn.original == pn.name
       else ValidSegment(pn.scope) && pn.original == "@" + pn.scope + "/" + pn.name)
  }

  /** A valid scope or name: lower-case letters, digits, '.', '_' and '-', by their ASCII codes, and neither '.' nor
      '_' first. */
  lemma SegmentsExactly(s: Str)
    ensures ValidSegment(s) <==>
      && s != [] && s[0] as int !in {0x2E, 0x5F}
      && forall i | 0 <= i < |s| :: var n := s[i] as int;
           0x61 <= n <= 0x7A || 0x30 <= n <= 0x39 || n in {0x2D, 0x2E, 0x5F}
  {
    assert forall i | 0 <= i < |s| :: NameByte(s[i]) <==>
      0x61 <= s[i] as int <= 0x7A || 0x30 <= s[i] as int <= 0x39 || s[i] as int in {0x2D, 0x2E, 0x5F};
  }

  lemma CutAtSlash(s: Str, k: nat)
    requires k < |s| && s[k] == '/'
    ensures s == s[..k] + ("/" + s[k + 1..])
  {
  }

  lemma AcceptedIsWellFormed(raw: Str, pn: PackageName)
    requires ParsePackageName(raw) == Some(pn)
    ensures |raw| <= 214 && pn.original == raw && WellFormed(pn)
  {
    if raw[0] == '@' {
      var rest := raw[1..];
      CutAtSlash(rest, FirstSlash(rest));
      assert pn.scope + ("/" + pn.name) == rest;
      assert "@" + pn.scope + "/" + pn.name == "@" + rest == raw;
    }
  }

  lemma ScopedIsAccepted(pn: PackageName)
    requires WellFormed(pn) && pn.scope != [] && |pn.original| <= 214
    ensures ParsePackageName(pn.original) == Some(pn)
  {
    var rest := pn.scope + ("/" + pn.name);
    assert pn.original == "@" + rest && pn.original[1..] == rest;
    FirstSlashAfter(pn.scope, "/" + pn.name);
    assert rest[..|pn.scope|] == pn.scope && rest[|pn.scope| + 1..] == pn.name;
  }

  /** A package name is accepted if and only if it is not too long and written as a name, or as a scope and a name
      behind '@', and it parses to those. */
  lemma AcceptedExactly(raw: Str, pn: PackageName)
    ensures ParsePackageName(raw) == Some(pn) <==> |raw| <= 214 && pn.original == raw && WellFormed(pn)
  {
    if ParsePackageName(raw) == Some(pn) {
      AcceptedIsWellFormed(raw, pn);
    } else if |raw| <= 214 && pn.original == raw && WellFormed(pn) {
      assert !NameByte('@');
      if pn.scope != [] { ScopedIsAccepted(pn); }
    }
  }

  lemma DecodeScoped(pn: PackageName)
    requires WellFormed(pn) && pn.scope != []
    ensures DecodeCore(Core(pn)) == Some(pn)
  {
    var core, rest := Core(pn), pn.scope + ("/" + pn.name);
    assert core == "s/" + rest && core[2..] == rest;
    FirstSlashAfter(pn.scope, "/" + pn.name);
    assert rest[..|pn.scope|] == pn.scope && rest[|pn.scope| + 1..] == pn.name;
  }

  lemma DecodeUnscoped(pn: PackageName)
    requires WellFormed(pn) && pn.scope == []
    ensures DecodeCore(Core(pn)) == Some(pn)
  {
    var core := Core(pn);
    assert core[0] == 'u' && core[2..] == pn.name;
  }

  /** Behind "s/" a scope and a name, cut at the first slash, or behind "u/" a name. */
  predicate Writes(core: Str, pn: PackageName)
  {
    || (core == "u/" + pn.name && pn == PackageName(pn.name, [], pn.name))
    || (core == "s/" + (pn.scope + ("/" + pn.name)) && NoSlash(pn.scope)
        && pn == PackageName("@" + pn.scope + "/" + pn.name, pn.scope, pn.name))
  }

  lemma DecodedIsWritten(core: Str, pn: PackageName)
    requires DecodeCore(core) == Some(pn)
    ensures Writes(core, pn)
  {
    var rest := core[2..];
    if "s/" <= core {
      assert core == "s/" + rest;
      CutAtSlash(rest, FirstSlash(rest));
    } else {
      assert core == "u/" + rest;
    }
  }

  lemma WrittenDecodes(core: Str, pn: PackageName)
    requires Writes(core, pn)
    ensures DecodeCore(core) == Some(pn)
  {
    if core == "u/" + pn.name && pn == PackageName(pn.name, [], pn.name) {
      assert core[0] == 'u' && core[2..] == pn.name;
    } else {
      var rest := pn.scope + ("/" + pn.name);
      assert core[2..] == rest;
      FirstSlashAfter(pn.scope, "/" + pn.name);
      assert rest[..|pn.scope|] == pn.scope && rest[|pn.scope| + 1..] == pn.name;
    }
  }

  /** A store name decodes to exactly what it writes out. */
  lemma DecodesExactly(core: Str, pn: PackageName)
    ensures DecodeCore(core) == Some(pn) <==> Writes(core, pn)
  {
    if DecodeCore(core) == Some(pn) { DecodedIsWritten(core, pn); }
    if Writes(core, pn) { WrittenDecodes(core, pn); }
  }

  /** The store name of every accepted package name is a valid store name and decodes to the very same name. */
  lemma CoreRoundTrip(raw: Str, pn: PackageName)
    requires ParsePackageName(raw) == Some(pn)
    ensures pn.original == raw && ValidName(Core(pn)) && DecodeCore(Core(pn)) == Some(pn)
  {
    if pn.scope != [] { DecodeScoped(pn); } else { DecodeUnscoped(pn); }
    assert Core(pn)[0] == 's' || Core(pn)[0] == 'u';
  }

  /** So different package names never share a store package, scoped or not. */
  lemma CoreInjective(a: Str, b: Str, x: PackageName, y: PackageName)
    requires ParsePackageName(a) == Some(x) && ParsePackageName(b) == Some(y)
    ensures Core(x) == Core(y) <==> a == b
  {
    CoreRoundTrip(a, x);
    CoreRoundTrip(b, y);
  }

  // ---- Tarballs ----

  function DeriveVersion(pn: PackageName, filename: Str): Str
  {
    var trimmed, prefix := TrimSuffix(filename, TGZ), pn.name + "-";
    if prefix <= trimmed then trimmed[|prefix|..] else []
  }

  function DefaultTarball(pn: PackageName, version: Str): Str
  {
    pn.name + "-" + version + TGZ
  }

  /** The version derived from a file name is the one whose default tarball it is, given or without the
      extension, and none for any other file name. */
  lemma DerivedVersionIsTheDefault(pn: PackageName, filename: Str, version: Str)
    ensures version != [] ==>
      (DeriveVersion(pn, filename) == version <==>
        filename == DefaultTarball(pn, version) || (filename == pn.name + "-" + version && !HasSuffix(filename, TGZ)))
  {
    var prefix := pn.name + "-";
    var full := DefaultTarball(pn, version);
    assert full[|full| - |TGZ|..] == TGZ && full[..|full| - |TGZ|] == prefix + version;
    assert (prefix + version)[|prefix|..] == version;
    var trimmed := TrimSuffix(filename, TGZ);
    if prefix <= trimmed {
      assert trimmed == prefix + trimmed[|prefix|..];
      if HasSuffix(filename, TGZ) { assert filename == trimmed + TGZ; }
    }
  }

  datatype Lookup = Found(version: Str) | Absent | InvalidVersion

  function TarballId(ns: Str, p: Str, version: Str, filename: Str): ObjectId
  {
    Stored(ns, "npm", File(Ver(p, version), filename))
  }

  method Holds(b: Index.Bucket, ns: Str, p: Str, version: Str, filename: Str) returns (there: bool)
    requires b.Valid() && Plain(ns) && ValidName(p) && ValidName(version) && ValidName(filename)
    ensures there <==> TarballId(ns, p, version, filename) in b.Ids()
  {
    there := KeyOf(b.prefix, TarballId(ns, p, version, filename)) in b.objects;
  }

  predicate AllValid(versions: seq<Str>)
  {
    forall i | 0 <= i < |versions| :: ValidName(versions[i])
  }

  /** None of the first n versions holds the file. */
  ghost predicate NoneHolds(ids: iset<ObjectId>, ns: Str, p: Str, versions: seq<Str>, n: nat, filename: Str)
    requires n <= |versions|
  {
    forall i | 0 <= i < n :: TarballId(ns, p, versions[i], filename) !in ids
  }

  lemma OneMore(ids: iset<ObjectId>, ns: Str, p: Str, versions: seq<Str>, n: nat, filename: Str)
    requires n < |versions| && NoneHolds(ids, ns, p, versions, n, filename) &&
      TarballId(ns, p, versions[n], filename) !in ids
    ensures NoneHolds(ids, ns, p, versions, n + 1, filename)
  {
  }

  lemma ListedAreValid(ids: iset<ObjectId>, ns: Str, p: Str, versions: seq<Str>)
    requires forall id :: id in ids ==> ValidId(id)
    requires forall v :: v in versions ==> Index.VersionIn(ids, ns, "npm", p, v)
    ensures AllValid(versions)
  {
    forall i | 0 <= i < |versions| ensures ValidName(versions[i]) {
      assert Index.VersionIn(ids, ns, "npm", p, versions[i]);
    }
  }

  /** A version that holds a file is listed, so a scan of the listed ones misses none. */
  lemma ScanIsComplete(ids: iset<ObjectId>, ns: Str, p: Str, versions: seq<Str>, filename: Str)
    requires forall v :: Index.VersionIn(ids, ns, "npm", p, v) ==> v in versions
    requires NoneHolds(ids, ns, p, versions, |versions|, filename)
    ensures forall v :: TarballId(ns, p, v, filename) !in ids
  {
    forall v ensures TarballId(ns, p, v, filename) !in ids {
      var id := TarballId(ns, p, v, filename);
      if id in ids {
        assert Index.InPackage(id, ns, "npm", p) && Index.VersionIn(ids, ns, "npm", p, v);
      }
    }
  }

  method ScanVersions(b: Index.Bucket, ns: Str, p: Str, versions: seq<Str>, filename: Str) returns (r: Lookup)
    requires b.Valid() && Plain(ns) && ValidName(p) && ValidName(filename) && AllValid(versions)
    ensures r != InvalidVersion
    ensures r.Found? ==> TarballId(ns, p, r.version, filename) in b.Ids()
    ensures r.Absent? ==> NoneHolds(b.Ids(), ns, p, versions, |versions|, filename)
  {
    ghost var ids := b.Ids();
    for i := 0 to |versions|
      invariant NoneHolds(ids, ns, p, versions, i, filename)
    {
      var there := Holds(b, ns, p, versions[i], filename);
      if there {
        return Found(versions[i]);
      }
      OneMore(ids, ns, p, versions, i, filename);
    }
    r := Absent;
  }

  /** The derived version first, then every listed version. */
  method FindTarball(b: Index.Bucket, ns: Str, pn: PackageName, filename: Str) returns (r: Lookup)
    requires b.Valid() && Plain(ns) && ValidName(filename) && ParsePackageName(pn.original) == Some(pn)
    ensures var derived := DeriveVersion(pn, filename);
      && (r == InvalidVersion <==> derived != [] && !ValidName(derived))
      && (r.Found? ==> TarballId(ns, Core(pn), r.version, filename) in b.Ids())
      && (r.Absent? ==> forall v :: TarballId(ns, Core(pn), v, filename) !in b.Ids())
      && (ValidName(derived) && TarballId(ns, Core(pn), derived, filename) in b.Ids() ==> r == Found(derived))
  {
    CoreRoundTrip(pn.original, pn);
    var derived := DeriveVersion(pn, filename);
    if derived != [] {
      if !ValidName(derived) {
        return InvalidVersion;
      }
      var there := Holds(b, ns, Core(pn), derived, filename);
      if there {
        return Found(derived);
      }
    }
    var versions := b.Versions(ns, "npm", Core(pn));
    ListedAreValid(b.Ids(), ns, Core(pn), versions);
    r := ScanVersions(b, ns, Core(pn), versions, filename);
    if r.Absent? { ScanIsComplete(b.Ids(), ns, Core(pn), versions, filename); }
  }
}
