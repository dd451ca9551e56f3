/** The bucket as the index: record creation, existence probes, listings and the namespace catalog, all on
    one bucket that starts empty and is written only through these operations. */
module Index {
  import opened Text
  import opened Escape
  import opened Paths
  import opened Listing
  import opened Sorting

  datatype Outcome = Done | InvalidName | AlreadyExists | NotFound | NotEmpty | Unreadable

  /** Something was written under package p, or under version v of it. */
  ghost predicate PackageIn(ids: iset<ObjectId>, ns: Str, format: Str, p: Str)
  {
    exists id :: id in ids && InPackage(id, ns, format, p)
  }

  predicate InPackage(id: ObjectId, ns: Str, format: Str, p: Str)
  {
    id.Stored? && id.ns == ns && id.format == format && PackageOf(id.item) == Some(p)
  }

  ghost predicate VersionIn(ids: iset<ObjectId>, ns: Str, format: Str, p: Str, v: Str)
  {
    exists id :: id in ids && InPackage(id, ns, format, p) && VersionOf(id.item) == Some(v)
  }

  ghost predicate Listed(keys: set<Str>, dir: Str, e: Entry)
  {
    exists k :: k in keys && dir <= k && EntryOf(dir, k) == e
  }

  ghost predicate IsListing(keys: set<Str>, dir: Str, page: seq<Entry>)
  {
    && Distinct(page)
    && (forall i :: 0 <= i < |page| ==> Listed(keys, dir, page[i]))
    && (forall k <- keys :: dir <= k ==> EntryOf(dir, k) in page)
  }

  predicate IsChild(n: Str)
  {
    n != [] && !IsDotEntry(n)
  }

  ghost predicate ChildIn(keys: set<Str>, dir: Str, n: Str)
  {
    IsChild(n) && exists k :: k in keys && dir <= k && ChildOf(dir, k) == n
  }

  /** No child of dir is both an object and a directory. */
  ghost predicate NoClash(keys: set<Str>, dir: Str)
  {
    forall k, k' ::
      k in keys && k' in keys && dir <= k && dir <= k' && ChildOf(dir, k) == ChildOf(dir, k') &&
        IsChild(ChildOf(dir, k))
      ==> EntryOf(dir, k) == EntryOf(dir, k')
  }

  /** The base names a listing loop collects: dot entries and, for the catalog, plain objects are dropped. */
  function ChildNames(dir: Str, page: seq<Entry>, dirsOnly: bool): seq<Str>
  {
    if page == [] then []
    else
      var names, e := ChildNames(dir, page[..|page| - 1], dirsOnly), page[|page| - 1];
      if (dirsOnly && e.Object?) || !IsChild(BaseName(dir, e)) then names else names + [BaseName(dir, e)]
  }

  lemma {:induction false} ChildNamesFrom(dir: Str, page: seq<Entry>, dirsOnly: bool, n: Str)
    ensures n in ChildNames(dir, page, dirsOnly) <==>
            IsChild(n) &&
            exists j :: 0 <= j < |page| && (dirsOnly ==> page[j].Directory?) && BaseName(dir, page[j]) == n
  {
    if page != [] {
      var init := page[..|page| - 1];
      ChildNamesFrom(dir, init, dirsOnly, n);
      assert forall j :: 0 <= j < |init| ==> init[j] == page[j];
    }
  }

  lemma {:induction false} ChildNamesDistinct(keys: set<Str>, dir: Str, page: seq<Entry>, all: seq<Entry>)
    requires IsListing(keys, dir, all) && NoClash(keys, dir) && page <= all
    ensures Distinct(ChildNames(dir, page, false))
  {
    if page != [] {
      var init, i := page[..|page| - 1], |page| - 1;
      ChildNamesDistinct(keys, dir, init, all);
      var n := BaseName(dir, page[i]);
      ChildNamesFrom(dir, init, false, n);
      if IsChild(n) && n in ChildNames(dir, init, false) {
        var j :| 0 <= j < |init| && BaseName(dir, init[j]) == n;
        SameNameSameEntry(keys, dir, all, i, j);
        assert false;
      }
    }
  }

  lemma SameNameSameEntry(keys: set<Str>, dir: Str, page: seq<Entry>, i: nat, j: nat)
    requires IsListing(keys, dir, page) && NoClash(keys, dir) && i < |page| && j < |page|
    requires BaseName(dir, page[i]) == BaseName(dir, page[j]) && IsChild(BaseName(dir, page[i]))
    ensures page[i] == page[j]
  {
    assert Listed(keys, dir, page[i]) && Listed(keys, dir, page[j]);
    var k :| k in keys && dir <= k && EntryOf(dir, k) == page[i];
    var k' :| k' in keys && dir <= k' && EntryOf(dir, k') == page[j];
    BaseNameIsChild(dir, k);
    BaseNameIsChild(dir, k');
  }

  /** What a complete listing's names are, in terms of the keys in the bucket. */
  lemma ListedNames(keys: set<Str>, dir: Str, page: seq<Entry>, n: Str)
    requires IsListing(keys, dir, page)
    ensures n in ChildNames(dir, page, false) <==> ChildIn(keys, dir, n)
    ensures n in ChildNames(dir, page, true) <==> ChildDirIn(keys, dir, n)
  {
    ChildNamesFrom(dir, page, false, n);
    ChildNamesFrom(dir, page, true, n);
    if ChildIn(keys, dir, n) {
      var k :| k in keys && dir <= k && ChildOf(dir, k) == n;
      BaseNameIsChild(dir, k);
      var j :| 0 <= j < |page| && page[j] == EntryOf(dir, k);
    }
    if ChildDirIn(keys, dir, n) {
      var k :| k in keys && dir <= k && EntryOf(dir, k).Directory? && ChildOf(dir, k) == n;
      BaseNameIsChild(dir, k);
      var j :| 0 <= j < |page| && page[j] == EntryOf(dir, k);
    }
    forall j | 0 <= j < |page| && BaseName(dir, page[j]) == n && IsChild(n)
      ensures ChildIn(keys, dir, n) && (page[j].Directory? ==> ChildDirIn(keys, dir, n))
    {
      assert Listed(keys, dir, page[j]);
      var k :| k in keys && dir <= k && EntryOf(dir, k) == page[j];
      BaseNameIsChild(dir, k);
    }
  }

  ghost predicate ChildDirIn(keys: set<Str>, dir: Str, n: Str)
  {
    IsChild(n) && exists k :: k in keys && dir <= k && EntryOf(dir, k).Directory? && ChildOf(dir, k) == n
  }

  // ---- What keys say about packages and versions ----

  ghost predicate AllKnown(prefix: Str, keys: set<Str>)
  {
    ValidPrefix(prefix) && forall k <- keys :: Known(prefix, k)
  }

  /** The objects present under a set of keys. */
  ghost function IdsOf(prefix: Str, keys: set<Str>): iset<ObjectId>
  {
    iset id | ValidId(id) && KeyOf(prefix, id) in keys
  }

  lemma IdOf(prefix: Str, keys: set<Str>, k: Str) returns (id: ObjectId)
    requires AllKnown(prefix, keys) && k in keys
    ensures id in IdsOf(prefix, keys) && ValidId(id) && KeyOf(prefix, id) == k
  {
    assert Known(prefix, k);
    id :| ValidId(id) && KeyOf(prefix, id) == k;
  }

  ghost predicate PackageSegmentIn(ids: iset<ObjectId>, ns: Str, format: Str, n: Str)
  {
    exists p :: n == QueryEscape(p) && PackageIn(ids, ns, format, p)
  }

  lemma PackageSegmentOf(ids: iset<ObjectId>, ns: Str, format: Str, p: Str)
    ensures PackageSegmentIn(ids, ns, format, QueryEscape(p)) <==> PackageIn(ids, ns, format, p)
  {
    if PackageSegmentIn(ids, ns, format, QueryEscape(p)) {
      var q :| QueryEscape(p) == QueryEscape(q) && PackageIn(ids, ns, format, q);
      EscapeInjective(p, q);
    }
  }

  /** The child segments of a scope are exactly the encoded names of its packages, all of them directories. */
  lemma ScopeChildren(prefix: Str, keys: set<Str>, ns: Str, format: Str, n: Str)
    requires AllKnown(prefix, keys) && Plain(ns) && Plain(format)
    ensures var dir := ScopePrefix(ScopeOf(prefix, ns, format));
      && (ChildIn(keys, dir, n) <==> PackageSegmentIn(IdsOf(prefix, keys), ns, format, n))
      && (ChildIn(keys, dir, n) ==> ChildDirIn(keys, dir, n))
  {
    var dir := ScopePrefix(ScopeOf(prefix, ns, format));
    if ChildIn(keys, dir, n) {
      var k :| k in keys && dir <= k && ChildOf(dir, k) == n;
      var id := IdOf(prefix, keys, k);
      UnderScope(prefix, id, ns, format);
      assert InPackage(id, ns, format, PackageOf(id.item).value);
      assert PackageIn(IdsOf(prefix, keys), ns, format, PackageOf(id.item).value);
    }
    if PackageSegmentIn(IdsOf(prefix, keys), ns, format, n) {
      var p :| n == QueryEscape(p) && PackageIn(IdsOf(prefix, keys), ns, format, p);
      var id :| id in IdsOf(prefix, keys) && InPackage(id, ns, format, p);
      UnderScope(prefix, id, ns, format);
      SegmentRoundTrip(p);
    }
  }

  lemma ScopeHasNoClash(prefix: Str, keys: set<Str>, ns: Str, format: Str)
    requires AllKnown(prefix, keys) && Plain(ns) && Plain(format)
    ensures NoClash(keys, ScopePrefix(ScopeOf(prefix, ns, format)))
  {
    var dir := ScopePrefix(ScopeOf(prefix, ns, format));
    forall k, k' | k in keys && k' in keys && dir <= k && dir <= k' && ChildOf(dir, k) == ChildOf(dir, k')
      ensures EntryOf(dir, k) == EntryOf(dir, k')
    {
      var id := IdOf(prefix, keys, k);
      var id' := IdOf(prefix, keys, k');
      UnderScope(prefix, id, ns, format);
      UnderScope(prefix, id', ns, format);
      SameDirectory(dir, k, k');
    }
  }

  lemma SameDirectory(dir: Str, k: Str, k': Str)
    requires dir <= k && dir <= k' && ChildOf(dir, k) == ChildOf(dir, k')
    requires EntryOf(dir, k).Directory? && EntryOf(dir, k').Directory?
    ensures EntryOf(dir, k) == EntryOf(dir, k')
  {
    var r, r' := k[|dir|..], k'[|dir|..];
    var i := FirstSlash(r);
    assert |ChildOf(dir, k)| == i == FirstSlash(r');
    assert r[..i + 1] == r[..i] + "/" && r'[..i + 1] == r'[..i] + "/";
  }

  ghost predicate VersionSegmentIn(ids: iset<ObjectId>, ns: Str, format: Str, p: Str, n: Str)
  {
    exists v :: n == QueryEscape(v) && VersionIn(ids, ns, format, p, v)
  }

  lemma VersionSegmentOf(ids: iset<ObjectId>, ns: Str, format: Str, p: Str, v: Str)
    ensures VersionSegmentIn(ids, ns, format, p, QueryEscape(v)) <==> VersionIn(ids, ns, format, p, v)
  {
    if VersionSegmentIn(ids, ns, format, p, QueryEscape(v)) {
      var q :| QueryEscape(v) == QueryEscape(q) && VersionIn(ids, ns, format, p, q);
      EscapeInjective(v, q);
    }
  }

  /** The child segments of a package are exactly the encoded names of its versions. */
  lemma PackageChildren(prefix: Str, keys: set<Str>, ns: Str, format: Str, p: Str, n: Str)
    requires AllKnown(prefix, keys) && Plain(ns) && Plain(format) && ValidName(p)
    ensures ChildIn(keys, PackagePrefix(ScopeOf(prefix, ns, format), p), n) <==>
            VersionSegmentIn(IdsOf(prefix, keys), ns, format, p, n)
  {
    var dir := PackagePrefix(ScopeOf(prefix, ns, format), p);
    if ChildIn(keys, dir, n) {
      var k :| k in keys && dir <= k && ChildOf(dir, k) == n;
      var id := IdOf(prefix, keys, k);
      UnderPackage(prefix, id, ns, format, p);
      assert InPackage(id, ns, format, p);
      assert VersionIn(IdsOf(prefix, keys), ns, format, p, VersionOf(id.item).value);
    }
    if VersionSegmentIn(IdsOf(prefix, keys), ns, format, p, n) {
      var v :| n == QueryEscape(v) && VersionIn(IdsOf(prefix, keys), ns, format, p, v);
      var id :| id in IdsOf(prefix, keys) && InPackage(id, ns, format, p) && VersionOf(id.item) == Some(v);
      UnderPackage(prefix, id, ns, format, p);
      SegmentRoundTrip(v);
    }
  }

  lemma PackageHasNoClash(prefix: Str, keys: set<Str>, ns: Str, format: Str, p: Str)
    requires AllKnown(prefix, keys) && Plain(ns) && Plain(format) && ValidName(p)
    ensures NoClash(keys, PackagePrefix(ScopeOf(prefix, ns, format), p))
  {
    var dir := PackagePrefix(ScopeOf(prefix, ns, format), p);
    forall k, k' | k in keys && k' in keys && dir <= k && dir <= k' && ChildOf(dir, k) == ChildOf(dir, k') &&
      IsChild(ChildOf(dir, k))
      ensures EntryOf(dir, k) == EntryOf(dir, k')
    {
      var id := IdOf(prefix, keys, k);
      var id' := IdOf(prefix, keys, k');
      UnderPackage(prefix, id, ns, format, p);
      UnderPackage(prefix, id', ns, format, p);
      SameDirectory(dir, k, k');
    }
  }

  ghost predicate AnyBelow(keys: set<Str>, dir: Str)
  {
    exists k :: k in keys && dir <= k
  }

  /** Something lies below a package's directory exactly when the package has an object. */
  lemma BelowPackage(prefix: Str, keys: set<Str>, ns: Str, format: Str, p: Str)
    requires AllKnown(prefix, keys) && Plain(ns) && Plain(format) && ValidName(p)
    ensures AnyBelow(keys, PackagePrefix(ScopeOf(prefix, ns, format), p)) <==>
      PackageIn(IdsOf(prefix, keys), ns, format, p)
  {
    var dir := PackagePrefix(ScopeOf(prefix, ns, format), p);
    if AnyBelow(keys, dir) {
      var k :| k in keys && dir <= k;
      var id := IdOf(prefix, keys, k);
      UnderPackage(prefix, id, ns, format, p);
      assert InPackage(id, ns, format, p);
    }
    if PackageIn(IdsOf(prefix, keys), ns, format, p) {
      var id :| id in IdsOf(prefix, keys) && InPackage(id, ns, format, p);
      UnderPackage(prefix, id, ns, format, p);
    }
  }

  lemma BelowVersion(prefix: Str, keys: set<Str>, ns: Str, format: Str, p: Str, v: Str)
    requires AllKnown(prefix, keys) && Plain(ns) && Plain(format) && ValidName(p) && ValidName(v)
    ensures AnyBelow(keys, VersionPrefix(ScopeOf(prefix, ns, format), p, v)) <==>
      VersionIn(IdsOf(prefix, keys), ns, format, p, v)
  {
    var dir := VersionPrefix(ScopeOf(prefix, ns, format), p, v);
    if AnyBelow(keys, dir) {
      var k :| k in keys && dir <= k;
      var id := IdOf(prefix, keys, k);
      UnderVersion(prefix, id, ns, format, p, v);
      assert InPackage(id, ns, format, p);
    }
    if VersionIn(IdsOf(prefix, keys), ns, format, p, v) {
      var id :| id in IdsOf(prefix, keys) && InPackage(id, ns, format, p) && VersionOf(id.item) == Some(v);
      UnderVersion(prefix, id, ns, format, p, v);
    }
  }

  /** The format directories of a namespace that hold a package directory, as the catalog's emptiness check
      finds them. */
  lemma FormatDirs(prefix: Str, keys: set<Str>, ns: Str, n: Str)
    requires AllKnown(prefix, keys) && Plain(ns)
    ensures ChildDirIn(keys, RootPrefix(prefix) + ns + "/", n) <==>
            exists id :: id in IdsOf(prefix, keys) && id.Stored? && id.ns == ns && id.format == n
  {
    var dir := RootPrefix(prefix) + ns + "/";
    if ChildDirIn(keys, dir, n) {
      var k :| k in keys && dir <= k && EntryOf(dir, k).Directory? && ChildOf(dir, k) == n;
      var id := IdOf(prefix, keys, k);
      UnderNamespace(prefix, id, ns);
    }
    if id :| id in IdsOf(prefix, keys) && id.Stored? && id.ns == ns && id.format == n {
      UnderNamespace(prefix, id, ns);
    }
  }

  ghost predicate FormatEmpty(ids: iset<ObjectId>, ns: Str, format: Str)
  {
    forall p :: !PackageIn(ids, ns, format, p)
  }

  /** The namespace holds no package in any format. */
  ghost predicate HasNoPackage(ids: iset<ObjectId>, ns: Str)
  {
    forall format :: FormatEmpty(ids, ns, format)
  }

  /** The names are exactly dir's child directories. */
  ghost predicate AreChildDirs(keys: set<Str>, dir: Str, names: seq<Str>)
  {
    forall n :: n in names <==> ChildDirIn(keys, dir, n)
  }

  lemma FormatsArePlain(prefix: Str, keys: set<Str>, ns: Str, formats: seq<Str>)
    requires AllKnown(prefix, keys) && Plain(ns)
    requires AreChildDirs(keys, RootPrefix(prefix) + ns + "/", formats)
    ensures forall i :: 0 <= i < |formats| ==> Plain(formats[i])
  {
    forall i | 0 <= i < |formats| ensures Plain(formats[i]) {
      var format := formats[i];
      assert format in formats;
      FormatDirs(prefix, keys, ns, format);
      var id :| id in IdsOf(prefix, keys) && id.Stored? && id.ns == ns && id.format == format;
    }
  }

  /** The catalog sees package directories under a format exactly when the format holds a package. */
  lemma PackageDirs(prefix: Str, keys: set<Str>, ns: Str, format: Str, pkgs: seq<Str>)
    requires AllKnown(prefix, keys) && Plain(ns) && Plain(format)
    requires AreChildDirs(keys, RootPrefix(prefix) + ns + "/" + format + "/", pkgs)
    ensures |pkgs| > 0 <==> !FormatEmpty(IdsOf(prefix, keys), ns, format)
  {
    var dir := ScopePrefix(ScopeOf(prefix, ns, format));
    ValidPrefixTrims(prefix);
    StoreAndCatalogAgree(prefix, ns, format);
    assert dir == RootPrefix(prefix) + ns + "/" + format + "/";
    if |pkgs| > 0 {
      assert pkgs[0] in pkgs;
      assert ChildIn(keys, dir, pkgs[0]);
      ScopeChildren(prefix, keys, ns, format, pkgs[0]);
      var p :| pkgs[0] == QueryEscape(p) && PackageIn(IdsOf(prefix, keys), ns, format, p);
    }
    if p :| PackageIn(IdsOf(prefix, keys), ns, format, p) {
      PackageSegmentOf(IdsOf(prefix, keys), ns, format, p);
      ScopeChildren(prefix, keys, ns, format, QueryEscape(p));
      assert QueryEscape(p) in pkgs;
    }
  }

  ghost predicate NoneHolds(ids: iset<ObjectId>, ns: Str, formats: seq<Str>)
  {
    forall i :: 0 <= i < |formats| ==> FormatEmpty(ids, ns, formats[i])
  }

  lemma NoneHoldsSnoc(ids: iset<ObjectId>, ns: Str, formats: seq<Str>, i: nat)
    requires i < |formats|
    ensures NoneHolds(ids, ns, formats[..i + 1]) <==>
      NoneHolds(ids, ns, formats[..i]) && FormatEmpty(ids, ns, formats[i])
  {
    var more := formats[..i + 1];
    assert forall j :: 0 <= j < i ==> more[j] == formats[..i][j];
    assert more[i] == formats[i];
  }

  /** The formats the catalog sees are enough to tell whether the namespace holds a package. */
  lemma AllFormatsSeen(prefix: Str, keys: set<Str>, ns: Str, formats: seq<Str>)
    requires AllKnown(prefix, keys) && Plain(ns)
    requires AreChildDirs(keys, RootPrefix(prefix) + ns + "/", formats)
    ensures formats[..|formats|] == formats
    ensures NoneHolds(IdsOf(prefix, keys), ns, formats) <==> HasNoPackage(IdsOf(prefix, keys), ns)
  {
    var ids := IdsOf(prefix, keys);
    if NoneHolds(ids, ns, formats) {
      forall format ensures FormatEmpty(ids, ns, format) {
        if p :| PackageIn(ids, ns, format, p) {
          var id :| id in ids && InPackage(id, ns, format, p);
          FormatDirs(prefix, keys, ns, format);
          assert false;
        }
      }
    }
  }

  ghost predicate IsEncoded(n: Str)
  {
    exists x :: n == QueryEscape(x)
  }

  /** Decoded listing names, one per listed segment. */
  method DecodeAll(names: seq<Str>) returns (out: seq<Str>)
    requires Distinct(names) && forall i :: 0 <= i < |names| ==> IsEncoded(names[i])
    ensures forall x :: x in out <==> QueryEscape(x) in names
    ensures Distinct(out)
  {
    out := [];
    for i := 0 to |names|
      invariant |out| == i && forall j :: 0 <= j < i ==> names[j] == QueryEscape(out[j])
    {
      assert IsEncoded(names[i]);
      ghost var x :| names[i] == QueryEscape(x);
      UnescapeEscape(x);
      out := out + [DecodeSegment(names[i])];
    }
    forall x ensures x in out <==> QueryEscape(x) in names {
      if QueryEscape(x) in names {
        var j :| 0 <= j < |names| && names[j] == QueryEscape(x);
        EscapeInjective(x, out[j]);
      }
    }
  }

  class Bucket {
    const prefix: Str
    var objects: map<Str, Str>

    constructor (prefix: Str)
      requires ValidPrefix(prefix)
      ensures Valid() && this.prefix == prefix && Ids() == iset{}
    {
      this.prefix := prefix;
      objects := map[];
    }

    /** Every object in the bucket is one of the store's own. */
    ghost predicate Valid()
      reads this
    {
      AllKnown(prefix, objects.Keys)
    }

    /** The objects present, by what they are. */
    ghost function Ids(): iset<ObjectId>
      requires Valid()
      reads this
    {
      IdsOf(prefix, objects.Keys)
    }

    /** Writes one object of the store, whatever was there before. */
    method WriteObject(id: ObjectId, content: Str)
      requires Valid() && ValidId(id)
      modifies this
      ensures Valid() && Ids() == old(Ids()) + iset{id}
      ensures objects == old(objects)[KeyOf(prefix, id) := content]
    {
      assert Known(prefix, KeyOf(prefix, id));
      objects := objects[KeyOf(prefix, id) := content];
      forall id' ensures id' in Ids() <==> id' in old(Ids()) + iset{id} {
        if ValidId(id') { KeysAreDistinct(prefix, id', id); }
      }
    }

    /** Deletes one object of the store; a missing one is no error. */
    method RemoveObject(id: ObjectId)
      requires Valid() && ValidId(id)
      modifies this
      ensures Valid() && Ids() == old(Ids()) - iset{id}
      ensures objects == old(objects) - {KeyOf(prefix, id)}
    {
      objects := objects - {KeyOf(prefix, id)};
      forall id' ensures id' in Ids() <==> id' in old(Ids()) - iset{id} {
        if ValidId(id') { KeysAreDistinct(prefix, id', id); }
      }
    }

    /** A listing with delimiter '/', in the order the bucket happens to yield. */
    method List(dir: Str) returns (page: seq<Entry>)
      ensures IsListing(objects.Keys, dir, page)
    {
      page := [];
      var todo := objects.Keys;
      while todo != {}
        invariant todo <= objects.Keys
        invariant IsListing(objects.Keys - todo, dir, page)
      {
        var k :| k in todo;
        ghost var was := objects.Keys - todo;
        todo := todo - {k};
        assert objects.Keys - todo == was + {k};
        if dir <= k && EntryOf(dir, k) !in page {
          page := page + [EntryOf(dir, k)];
        }
      }
      assert objects.Keys - todo == objects.Keys;
    }

    /** The sorted base names of dir's children, dot entries dropped. */
    method ListChildNames(dir: Str) returns (names: seq<Str>)
      ensures forall n :: n in names <==> ChildIn(objects.Keys, dir, n)
      ensures Sorted(LessEq, names)
      ensures NoClash(objects.Keys, dir) ==> Distinct(names)
    {
      var page := List(dir);
      var found := [];
      for i := 0 to |page|
        invariant found == ChildNames(dir, page[..i], false)
      {
        assert page[..i + 1][..i] == page[..i];
        var name := BaseName(dir, page[i]);
        if !IsChild(name) {
          continue;
        }
        found := found + [name];
      }
      assert page[..|page|] == page;
      BytesAreOrdered();
      names := Sort(LessEq, found);
      SortSorts(LessEq, found);
      if NoClash(objects.Keys, dir) {
        ChildNamesDistinct(objects.Keys, dir, page, page);
        SortDistinct(LessEq, found);
      }
      forall n ensures n in names <==> ChildIn(objects.Keys, dir, n) {
        SameMembers(found, names, n);
        ListedNames(objects.Keys, dir, page, n);
      }
    }

    /** The catalog's listing: child directories only. */
    method ListChildDirs(dir: Str) returns (names: seq<Str>)
      ensures AreChildDirs(objects.Keys, dir, names)
      ensures Sorted(LessEq, names)
    {
      var page := List(dir);
      var found := [];
      for i := 0 to |page|
        invariant found == ChildNames(dir, page[..i], true)
      {
        assert page[..i + 1][..i] == page[..i];
        if page[i].Object? {
          continue;
        }
        var name := BaseName(dir, page[i]);
        if !IsChild(name) {
          continue;
        }
        found := found + [name];
      }
      assert page[..|page|] == page;
      BytesAreOrdered();
      names := Sort(LessEq, found);
      SortSorts(LessEq, found);
      forall n ensures n in names <==> ChildDirIn(objects.Keys, dir, n) {
        SameMembers(found, names, n);
        ListedNames(objects.Keys, dir, page, n);
      }
    }

    /** Whether anything is stored below dir. */
    method HasDescendant(dir: Str) returns (any: bool)
      ensures any <==> AnyBelow(objects.Keys, dir)
    {
      var page := objects.Keys;
      while page != {}
        invariant page <= objects.Keys
        invariant forall k <- objects :: k !in page ==> !(dir <= k)
      {
        var k :| k in page;
        if dir <= k {
          return true;
        }
        page := page - {k};
      }
      return false;
    }

    // ---- Operations ----

    /** Every package of a scope, exactly once. */
    method Packages(ns: Str, format: Str) returns (names: seq<Str>)
      requires Valid() && Plain(ns) && Plain(format)
      ensures forall p :: p in names <==> PackageIn(Ids(), ns, format, p)
      ensures Distinct(names)
    {
      var segments := ListChildNames(ScopePrefix(ScopeOf(prefix, ns, format)));
      ScopeHasNoClash(prefix, objects.Keys, ns, format);
      ghost var ids := Ids();
      forall n ensures n in segments <==> PackageSegmentIn(ids, ns, format, n) {
        ScopeChildren(prefix, objects.Keys, ns, format, n);
      }
      forall i | 0 <= i < |segments| ensures IsEncoded(segments[i]) {
        assert PackageSegmentIn(ids, ns, format, segments[i]);
      }
      names := DecodeAll(segments);
      forall p ensures p in names <==> PackageIn(ids, ns, format, p) {
        PackageSegmentOf(ids, ns, format, p);
      }
    }

    /** Whether a package exists: by its own record, else by anything written beneath it. */
    method PackageExists(ns: Str, format: Str, p: Str) returns (there: bool)
      requires Valid() && Plain(ns) && Plain(format) && ValidName(p)
      ensures there <==> PackageIn(Ids(), ns, format, p)
    {
      var dir := PackagePrefix(ScopeOf(prefix, ns, format), p);
      BelowPackage(prefix, objects.Keys, ns, format, p);
      if dir + META_NAME in objects {
        assert dir <= dir + META_NAME;
        return true;
      }
      there := HasDescendant(dir);
    }

    /** Every version of a package, exactly once. */
    method Versions(ns: Str, format: Str, p: Str) returns (names: seq<Str>)
      requires Valid() && Plain(ns) && Plain(format) && ValidName(p)
      ensures forall v :: v in names <==> VersionIn(Ids(), ns, format, p, v)
      ensures Distinct(names)
    {
      var segments := ListChildNames(PackagePrefix(ScopeOf(prefix, ns, format), p));
      PackageHasNoClash(prefix, objects.Keys, ns, format, p);
      ghost var ids := Ids();
      forall n ensures n in segments <==> VersionSegmentIn(ids, ns, format, p, n) {
        PackageChildren(prefix, objects.Keys, ns, format, p, n);
      }
      forall i | 0 <= i < |segments| ensures IsEncoded(segments[i]) {
        assert VersionSegmentIn(ids, ns, format, p, segments[i]);
      }
      names := DecodeAll(segments);
      forall v ensures v in names <==> VersionIn(ids, ns, format, p, v) {
        VersionSegmentOf(ids, ns, format, p, v);
      }
    }

    method VersionExists(ns: Str, format: Str, p: Str, v: Str) returns (there: bool)
      requires Valid() && Plain(ns) && Plain(format) && ValidName(p) && ValidName(v)
      ensures there <==> VersionIn(Ids(), ns, format, p, v)
    {
      var dir := VersionPrefix(ScopeOf(prefix, ns, format), p, v);
      BelowVersion(prefix, objects.Keys, ns, format, p, v);
      if dir + META_NAME in objects {
        assert dir <= dir + META_NAME;
        return true;
      }
      there := HasDescendant(dir);
    }

    method NoPackageDir(ns: Str, format: Str) returns (none: bool)
      requires Valid() && Plain(ns) && Plain(format)
      ensures none <==> FormatEmpty(Ids(), ns, format)
    {
      var pkgs := ListChildDirs(RootPrefix(prefix) + ns + "/" + format + "/");
      PackageDirs(prefix, objects.Keys, ns, format, pkgs);
      none := |pkgs| == 0;
    }

    /** The catalog's emptiness check: no format directory of the namespace has a package directory. */
    method IsEmpty(ns: Str) returns (empty: bool)
      requires Valid() && Plain(ns)
      ensures empty <==> HasNoPackage(Ids(), ns)
    {
      var formats := ListChildDirs(RootPrefix(prefix) + ns + "/");
      FormatsArePlain(prefix, objects.Keys, ns, formats);
      AllFormatsSeen(prefix, objects.Keys, ns, formats);
      empty := NoPackageDirs(ns, formats);
    }

    method NoPackageDirs(ns: Str, formats: seq<Str>) returns (none: bool)
      requires Valid() && Plain(ns) && forall i :: 0 <= i < |formats| ==> Plain(formats[i])
      ensures none <==> NoneHolds(Ids(), ns, formats)
    {
      ghost var ids := Ids();
      for i := 0 to |formats|
        invariant NoneHolds(ids, ns, formats[..i])
        invariant Valid() && Ids() == ids
      {
        NoneHoldsSnoc(ids, ns, formats, i);
        none := NoPackageDir(ns, formats[i]);
        if !none {
          return false;
        }
      }
      assert formats[..|formats|] == formats;
      return true;
    }

    /** Deletes a namespace's record. It succeeds exactly when the name is valid, the namespace exists with a
        readable record, and no format of it holds a package. */
    method DeleteNamespace(ns: Str, readable: Str -> bool) returns (r: Outcome)
      requires Valid()
      modifies this
      ensures Valid()
      ensures r == InvalidName <==> !ValidNamespace(ns)
      ensures ValidNamespace(ns) ==>
        && (r == NotFound <==> Namespace(ns) !in old(Ids()))
        && (r == Unreadable <==> Namespace(ns) in old(Ids()) && !readable(old(objects)[KeyOf(prefix, Namespace(ns))]))
        && (r == NotEmpty ==> !HasNoPackage(old(Ids()), ns))
        && (r == Done ==> HasNoPackage(old(Ids()), ns))
        && r in {NotFound, Unreadable, NotEmpty, Done}
      ensures Ids() == if r == Done then old(Ids()) - iset{Namespace(ns)} else old(Ids())
      ensures objects == if r == Done then old(objects) - {KeyOf(prefix, Namespace(ns))} else old(objects)
    {
      if !ValidNamespace(ns) {
        return InvalidName;
      }
      NamesArePlain(ns, []);
      var key := RootPrefix(prefix) + ns + "/" + META_NAME;
      if key !in objects {
        return NotFound;
      }
      if !readable(objects[key]) {
        return Unreadable;
      }
      var empty := IsEmpty(ns);
      if !empty {
        return NotEmpty;
      }
      RemoveObject(Namespace(ns));
      r := Done;
    }

    /** Creates or replaces a namespace's record. */
    method PutNamespace(ns: Str, spec: Str) returns (r: Outcome)
      requires Valid()
      modifies this
      ensures Valid() && (r == Done <==> ValidNamespace(ns)) && (r == Done || r == InvalidName)
      ensures Ids() == if r == Done then old(Ids()) + iset{Namespace(ns)} else old(Ids())
      ensures objects == if r == Done then old(objects)[KeyOf(prefix, Namespace(ns)) := spec] else old(objects)
    {
      if !ValidNamespace(ns) {
        return InvalidName;
      }
      NamesArePlain(ns, []);
      WriteObject(Namespace(ns), spec);
      r := Done;
    }

    /** Creates one of the store's records: a package, a version or the blob of a file. Unless overwriting is
        allowed, an existing one is kept and reported. */
    method Create(ns: Str, format: Str, item: Item, content: Str, overwrite: bool) returns (r: Outcome)
      requires Valid()
      modifies this
      ensures Valid()
      ensures r == InvalidName <==> !(ValidNamespace(ns) && format in FORMATS && ValidItem(item))
      ensures r != InvalidName ==> (r == AlreadyExists <==> !overwrite && Stored(ns, format, item) in old(Ids()))
      ensures r == Done ==> Ids() == old(Ids()) + iset{Stored(ns, format, item)} &&
                            objects == old(objects)[KeyOf(prefix, Stored(ns, format, item)) := content]
      ensures r != Done ==> objects == old(objects) && (r == InvalidName || r == AlreadyExists)
    {
      if !ValidNamespace(ns) || format !in FORMATS || !ValidItem(item) {
        return InvalidName;
      }
      NamesArePlain(ns, format);
      if !overwrite && KeyOf(prefix, Stored(ns, format, item)) in objects {
        return AlreadyExists;
      }
      WriteObject(Stored(ns, format, item), content);
      r := Done;
    }

    /** Deletes a cache file: its blob, then its sidecar. Only cache files can be deleted. */
    method DeleteCache(ns: Str, format: Str, l: Level, k: Str) returns (r: Outcome)
      requires Valid() && ValidNamespace(ns) && format in FORMATS
      modifies this
      ensures Valid() && (r == Done <==> ValidLevel(l) && ValidName(k)) && (r == Done || r == InvalidName)
      ensures Ids() == if r == Done
        then old(Ids()) - iset{Stored(ns, format, CacheFile(l, k)), Stored(ns, format, CacheMeta(l, k))} else old(Ids())
      ensures objects == if r == Done
        then old(objects) -
          {KeyOf(prefix, Stored(ns, format, CacheFile(l, k))), KeyOf(prefix, Stored(ns, format, CacheMeta(l, k)))}
        else old(objects)
    {
      if !ValidLevel(l) || !ValidName(k) {
        return InvalidName;
      }
      NamesArePlain(ns, format);
      RemoveObject(Stored(ns, format, CacheFile(l, k)));
      RemoveObject(Stored(ns, format, CacheMeta(l, k)));
      r := Done;
    }

    // ---- Dist-tags ----

    /** Points a tag at a version: one write of the tag's own object. */
    method SetTag(ns: Str, format: Str, p: Str, tag: Str, target: Str) returns (r: Outcome)
      requires Valid() && Plain(ns) && Plain(format)
      modifies this
      ensures Valid()
      ensures r == Done <==> ValidName(p) && ValidName(tag) && ValidName(target)
      ensures r == Done || r == InvalidName
      ensures objects == if r == Done then old(objects)[KeyOf(prefix, TagId(ns, format, p, tag)) := target]
        else old(objects)
    {
      if !ValidName(p) || !ValidName(tag) || !ValidName(target) {
        return InvalidName;
      }
      WriteObject(TagId(ns, format, p, tag), target);
      r := Done;
    }

    /** Every tag of a package with its trimmed target. The reads run concurrently, so they may complete, and
        be merged, in any order. */
    method TagTargets(ns: Str, format: Str, p: Str, trim: Str -> Str) returns (targets: map<Str, Str>)
      requires Valid() && Plain(ns) && Plain(format) && ValidName(p)
      ensures forall t :: t in targets <==> TagId(ns, format, p, t) in Ids()
      ensures forall t <- targets :: targets[t] == trim(objects[KeyOf(prefix, TagId(ns, format, p, t))])
      ensures (imap t | t in targets :: targets[t]) == TagMap(prefix, objects, ns, format, p, trim)
    {
      var dir := PackagePrefix(ScopeOf(prefix, ns, format), p) + TAGS_NAME + "/";
      var names := ListChildNames(dir);
      TagsHaveNoClash(prefix, objects.Keys, ns, format, p);
      TagNames(prefix, objects.Keys, ns, format, p, names);
      var tags := DecodeAll(names);
      targets := map[];
      var todo := set t | t in tags;
      while todo != {}
        invariant forall t <- todo :: KeyOf(prefix, TagId(ns, format, p, t)) in objects
        invariant forall t :: t in tags <==> t in todo || t in targets
        invariant forall t <- targets :: KeyOf(prefix, TagId(ns, format, p, t)) in objects &&
                                         targets[t] == trim(objects[KeyOf(prefix, TagId(ns, format, p, t))])
      {
        var t :| t in todo;
        targets := targets[t := trim(objects[KeyOf(prefix, TagId(ns, format, p, t))])];
        todo := todo - {t};
      }
      TargetsAreTheMap(prefix, objects, ns, format, p, trim, targets);
    }
  }

  function TagId(ns: Str, format: Str, p: Str, tag: Str): ObjectId
  {
    Stored(ns, format, Tag(p, tag))
  }

  lemma TagChildren(prefix: Str, keys: set<Str>, ns: Str, format: Str, p: Str, n: Str)
    requires AllKnown(prefix, keys) && Plain(ns) && Plain(format) && ValidName(p)
    ensures ChildIn(keys, PackagePrefix(ScopeOf(prefix, ns, format), p) + TAGS_NAME + "/", n) <==>
            exists t :: n == QueryEscape(t) && TagId(ns, format, p, t) in IdsOf(prefix, keys)
  {
    var dir := PackagePrefix(ScopeOf(prefix, ns, format), p) + TAGS_NAME + "/";
    if ChildIn(keys, dir, n) {
      var k :| k in keys && dir <= k && ChildOf(dir, k) == n;
      var id := IdOf(prefix, keys, k);
      UnderTags(prefix, id, ns, format, p);
      assert id == TagId(ns, format, p, id.item.t);
    }
    if t :| n == QueryEscape(t) && TagId(ns, format, p, t) in IdsOf(prefix, keys) {
      var id := TagId(ns, format, p, t);
      UnderTags(prefix, id, ns, format, p);
      SegmentRoundTrip(t);
    }
  }

  /** The names listed in a package's tag directory are the encoded names of its tags. */
  lemma TagNames(prefix: Str, keys: set<Str>, ns: Str, format: Str, p: Str, names: seq<Str>)
    requires AllKnown(prefix, keys) && Plain(ns) && Plain(format) && ValidName(p)
    requires forall n :: n in names <==>
      ChildIn(keys, PackagePrefix(ScopeOf(prefix, ns, format), p) + TAGS_NAME + "/", n)
    ensures forall i :: 0 <= i < |names| ==> IsEncoded(names[i])
    ensures forall t :: QueryEscape(t) in names <==> TagId(ns, format, p, t) in IdsOf(prefix, keys)
  {
    forall i | 0 <= i < |names| ensures IsEncoded(names[i]) {
      assert names[i] in names;
      TagChildren(prefix, keys, ns, format, p, names[i]);
    }
    forall t ensures QueryEscape(t) in names <==> TagId(ns, format, p, t) in IdsOf(prefix, keys) {
      TagChildren(prefix, keys, ns, format, p, QueryEscape(t));
      if q :| QueryEscape(t) == QueryEscape(q) && TagId(ns, format, p, q) in IdsOf(prefix, keys) {
        EscapeInjective(t, q);
      }
    }
  }

  lemma TagsHaveNoClash(prefix: Str, keys: set<Str>, ns: Str, format: Str, p: Str)
    requires AllKnown(prefix, keys) && Plain(ns) && Plain(format) && ValidName(p)
    ensures NoClash(keys, PackagePrefix(ScopeOf(prefix, ns, format), p) + TAGS_NAME + "/")
  {
    var dir := PackagePrefix(ScopeOf(prefix, ns, format), p) + TAGS_NAME + "/";
    forall k, k' | k in keys && k' in keys && dir <= k && dir <= k' && ChildOf(dir, k) == ChildOf(dir, k')
      ensures EntryOf(dir, k) == EntryOf(dir, k')
    {
      var id := IdOf(prefix, keys, k);
      var id' := IdOf(prefix, keys, k');
      UnderTags(prefix, id, ns, format, p);
      UnderTags(prefix, id', ns, format, p);
      EscapeInjective(id.item.t, id'.item.t);
    }
  }

  // ---- Concurrent tag writes ----

  datatype Put = Put(key: Str, value: Str)

  function Apply(objects: map<Str, Str>, puts: seq<Put>): map<Str, Str>
  {
    if puts == [] then objects
    else Apply(objects, puts[..|puts| - 1])[puts[|puts| - 1].key := puts[|puts| - 1].value]
  }

  ghost predicate DistinctKeys(puts: seq<Put>)
  {
    forall i, j :: 0 <= i < j < |puts| ==> puts[i].key != puts[j].key
  }

  lemma {:induction false} Applied(objects: map<Str, Str>, puts: seq<Put>, k: Str)
    requires DistinctKeys(puts)
    ensures forall i ::
      0 <= i < |puts| && puts[i].key == k ==> k in Apply(objects, puts) && Apply(objects, puts)[k] == puts[i].value
    ensures (forall i :: 0 <= i < |puts| ==> puts[i].key != k) ==>
            (k in Apply(objects, puts) <==> k in objects) && (k in objects ==> Apply(objects, puts)[k] == objects[k])
  {
    if puts != [] {
      var init := puts[..|puts| - 1];
      Applied(objects, init, k);
      assert forall i :: 0 <= i < |init| ==> init[i] == puts[i];
    }
  }

  lemma PutsCommute(objects: map<Str, Str>, a: seq<Put>, b: seq<Put>)
    requires DistinctKeys(a) && DistinctKeys(b) && forall w :: w in a <==> w in b
    ensures Apply(objects, a) == Apply(objects, b)
  {
    var x, y := Apply(objects, a), Apply(objects, b);
    forall k ensures (k in x <==> k in y) && (k in x ==> x[k] == y[k]) {
      Applied(objects, a, k);
      Applied(objects, b, k);
      if i :| 0 <= i < |a| && a[i].key == k {
        assert a[i] in b;
        var j :| 0 <= j < |b| && b[j] == a[i];
      } else if j :| 0 <= j < |b| && b[j].key == k {
        assert b[j] in a;
      }
    }
  }

  datatype TagWrite = TagWrite(tag: Str, target: Str)

  /** The object writes a series of SetTag calls on one package makes. */
  function TagPuts(prefix: Str, ns: Str, format: Str, p: Str, writes: seq<TagWrite>): (puts: seq<Put>)
    ensures |puts| == |writes|
  {
    seq(|writes|,
      i requires 0 <= i < |writes| => Put(KeyOf(prefix, TagId(ns, format, p, writes[i].tag)), writes[i].target))
  }

  ghost predicate DistinctTags(writes: seq<TagWrite>)
  {
    forall i, j :: 0 <= i < j < |writes| ==> writes[i].tag != writes[j].tag
  }

  lemma TagPutsDistinct(prefix: Str, ns: Str, format: Str, p: Str, writes: seq<TagWrite>)
    requires ValidPrefix(prefix) && Plain(ns) && Plain(format) && ValidName(p)
    requires DistinctTags(writes) && forall i :: 0 <= i < |writes| ==> ValidName(writes[i].tag)
    ensures DistinctKeys(TagPuts(prefix, ns, format, p, writes))
  {
    forall i, j | 0 <= i < j < |writes|
      ensures KeyOf(prefix, TagId(ns, format, p, writes[i].tag)) != KeyOf(prefix, TagId(ns, format, p, writes[j].tag))
    {
      KeysAreDistinct(prefix, TagId(ns, format, p, writes[i].tag), TagId(ns, format, p, writes[j].tag));
    }
  }

  /** Any two orders of the same writes to distinct tags leave the same bucket, hence the same tag map. */
  lemma TagWritesCommute(prefix: Str, ns: Str, format: Str, p: Str, objects: map<Str, Str>, a: seq<TagWrite>,
      b: seq<TagWrite>)
    requires ValidPrefix(prefix) && Plain(ns) && Plain(format) && ValidName(p)
    requires DistinctTags(a) && DistinctTags(b) && forall w :: w in a <==> w in b
    requires forall w <- a :: ValidName(w.tag)
    ensures Apply(objects, TagPuts(prefix, ns, format, p, a)) == Apply(objects, TagPuts(prefix, ns, format, p, b))
  {
    var x, y := TagPuts(prefix, ns, format, p, a), TagPuts(prefix, ns, format, p, b);
    TagPutsDistinct(prefix, ns, format, p, a);
    TagPutsDistinct(prefix, ns, format, p, b);
    SamePuts(prefix, ns, format, p, a, b);
    SamePuts(prefix, ns, format, p, b, a);
    PutsCommute(objects, x, y);
  }

  lemma SamePuts(prefix: Str, ns: Str, format: Str, p: Str, a: seq<TagWrite>, b: seq<TagWrite>)
    requires forall w <- a :: w in b
    ensures forall w <- TagPuts(prefix, ns, format, p, a) :: w in TagPuts(prefix, ns, format, p, b)
  {
    var x, y := TagPuts(prefix, ns, format, p, a), TagPuts(prefix, ns, format, p, b);
    forall i | 0 <= i < |x| ensures x[i] in y {
      assert a[i] in b;
      var j :| 0 <= j < |b| && b[j] == a[i];
      assert y[j] == x[i];
    }
  }

  // ---- The tag map ----

  /** What TagTargets answers: every tag of the package with its trimmed target. */
  ghost function TagMap(prefix: Str, objects: map<Str, Str>, ns: Str, format: Str, p: Str,
      trim: Str -> Str): imap<Str, Str>
  {
    imap t | ValidName(t) && KeyOf(prefix, TagId(ns, format, p, t)) in objects ::
      trim(objects[KeyOf(prefix, TagId(ns, format, p, t))])
  }

  /** After writes to distinct tags each written tag has the trimmed target of its own write, and every other
      tag has what it had. */
  lemma WrittenTags(prefix: Str, ns: Str, format: Str, p: Str, objects: map<Str, Str>, writes: seq<TagWrite>,
      trim: Str -> Str, t: Str)
    requires ValidPrefix(prefix) && Plain(ns) && Plain(format) && ValidName(p) && ValidName(t)
    requires DistinctTags(writes) && forall i :: 0 <= i < |writes| ==> ValidName(writes[i].tag)
    ensures var written := Apply(objects, TagPuts(prefix, ns, format, p, writes));
      var before := TagMap(prefix, objects, ns, format, p, trim);
      var after := TagMap(prefix, written, ns, format, p, trim);
      && (forall i :: 0 <= i < |writes| && writes[i].tag == t ==> t in after && after[t] == trim(writes[i].target))
      && ((forall i :: 0 <= i < |writes| ==> writes[i].tag != t) ==>
            (t in after <==> t in before) && (t in before ==> after[t] == before[t]))
  {
    var puts, key := TagPuts(prefix, ns, format, p, writes), KeyOf(prefix, TagId(ns, format, p, t));
    TagPutsDistinct(prefix, ns, format, p, writes);
    Applied(objects, puts, key);
    forall i | 0 <= i < |writes| ensures puts[i].key == key <==> writes[i].tag == t {
      KeysAreDistinct(prefix, TagId(ns, format, p, writes[i].tag), TagId(ns, format, p, t));
    }
  }

  /** Whatever order SetTag calls on distinct tags take effect in, the package ends up with the same tag map. */
  lemma InterleavingsAgree(prefix: Str, ns: Str, format: Str, p: Str, objects: map<Str, Str>, a: seq<TagWrite>,
      b: seq<TagWrite>, trim: Str -> Str)
    requires ValidPrefix(prefix) && Plain(ns) && Plain(format) && ValidName(p)
    requires DistinctTags(a) && DistinctTags(b) && forall w :: w in a <==> w in b
    requires forall w <- a :: ValidName(w.tag)
    ensures TagMap(prefix, Apply(objects, TagPuts(prefix, ns, format, p, a)), ns, format, p, trim) ==
            TagMap(prefix, Apply(objects, TagPuts(prefix, ns, format, p, b)), ns, format, p, trim)
  {
    TagWritesCommute(prefix, ns, format, p, objects, a, b);
  }

  /** The answer of TagTargets is the tag map. */
  lemma TargetsAreTheMap(prefix: Str, objects: map<Str, Str>, ns: Str, format: Str, p: Str, trim: Str -> Str,
      targets: map<Str, Str>)
    requires AllKnown(prefix, objects.Keys) && Plain(ns) && Plain(format) && ValidName(p)
    requires forall t :: t in targets <==> TagId(ns, format, p, t) in IdsOf(prefix, objects.Keys)
    requires forall t <- targets :: targets[t] == trim(objects[KeyOf(prefix, TagId(ns, format, p, t))])
    ensures (imap t | t in targets :: targets[t]) == TagMap(prefix, objects, ns, format, p, trim)
  {
  }
}
