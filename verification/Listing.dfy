/** Delimiter listings of the bucket, and what they say on buckets that only hold the store's own keys. */
module Listing {
  import opened Text
  import opened Escape
  import opened Paths

  /** One element of a listing with delimiter '/': an object, or everything below one child directory. */
  datatype Entry = Object(key: Str) | Directory(key: Str)

  function EntryOf(dir: Str, key: Str): Entry
    requires dir <= key
  {
    var rest := key[|dir|..];
    var i := FirstSlash(rest);
    if i < |rest| then Directory(dir + rest[..i + 1]) else Object(key)
  }

  /** The base name of a listed entry. */
  function BaseName(dir: Str, e: Entry): Str
  {
    TrimSuffix(if dir <= e.key then e.key[|dir|..] else e.key, "/")
  }

  /** The child segment of dir that a key lies in. */
  function ChildOf(dir: Str, key: Str): Str
    requires dir <= key
  {
    key[|dir|..][..FirstSlash(key[|dir|..])]
  }

  lemma BaseNameIsChild(dir: Str, key: Str)
    requires dir <= key
    ensures BaseName(dir, EntryOf(dir, key)) == ChildOf(dir, key)
  {
    var rest := key[|dir|..];
    var i := FirstSlash(rest);
    if i < |rest| {
      assert (dir + rest[..i + 1])[|dir|..] == rest[..i + 1];
      assert rest[..i + 1][i..] == "/";
      assert rest[..i + 1][..i] == rest[..i];
    } else {
      assert rest[..i] == rest;
      NoSlashSuffix(rest);
    }
  }

  lemma NoSlashSuffix(s: Str)
    requires NoSlash(s)
    ensures !HasSuffix(s, "/")
  {
    if |s| > 0 {
      assert s[|s| - 1] != '/';
      assert s[|s| - 1..] == [s[|s| - 1]];
    }
  }

  /** The package and version an item lies under. */
  function PackageOf(i: Item): Option<Str>
  {
    match i
    case PackageMeta(p) => Some(p)
    case VersionMeta(p, _) => Some(p)
    case Tag(p, _) => Some(p)
    case _ => LevelPackage(i.l)
  }

  function LevelPackage(l: Level): Option<Str>
  {
    match l
    case Format => None
    case Pkg(p) => Some(p)
    case Ver(p, _) => Some(p)
  }

  function VersionOf(i: Item): Option<Str>
  {
    match i
    case PackageMeta(_) => None
    case VersionMeta(_, v) => Some(v)
    case Tag(_, _) => None
    case _ => if i.l.Ver? then Some(i.l.v) else None
  }

  /** The key is the key of some object of the store. */
  ghost predicate Known(prefix: Str, key: Str)
  {
    exists id :: ValidId(id) && KeyOf(prefix, id) == key
  }

  lemma HeadPart(rest: seq<Str>)
    requires rest != [] && NoSlash(rest[0])
    ensures FirstSlash(Join(rest)) == |rest[0]| && Join(rest)[..|rest[0]|] == rest[0]
    ensures FirstSlash(Join(rest)) < |Join(rest)| <==> |rest| > 1
  {
    if |rest| == 1 {
      FirstSlashAfter(rest[0], []);
      assert rest[0] + [] == rest[0] == Join(rest);
    } else {
      FirstSlashAfter(rest[0], "/" + Join(rest[1..]));
      assert Join(rest) == rest[0] + ("/" + Join(rest[1..]));
    }
  }

  /** A directory prefix given by segments covers a known key exactly when they lead the key's segments;
      the child it lies in is the next segment, and it is a plain object exactly when that is the last. */
  lemma UnderDir(prefix: Str, id: ObjectId, below: seq<Str>)
    requires ValidPrefix(prefix) && ValidId(id) && AllNoSlash(below)
    ensures var dir, key, parts := Dir(RootParts(prefix) + below), KeyOf(prefix, id), IdParts(id);
      && (dir <= key <==> |below| < |parts| && below == parts[..|below|])
      && (dir <= key ==> ChildOf(dir, key) == parts[|below|] && (EntryOf(dir, key).Object? <==> |parts| == |below| + 1))
  {
    var root := RootParts(prefix);
    KeyIsJoined(prefix, id);
    RootIsDir(prefix);
    PartsHaveNoSlash(id);
    UnderJoined(root, below, IdParts(id));
  }

  lemma UnderJoined(root: seq<Str>, below: seq<Str>, parts: seq<Str>)
    requires root != [] && parts != [] && AllNoSlash(root + below) && AllNoSlash(root + parts) && AllNoSlash(parts)
    ensures var dir, key := Dir(root + below), Join(root + parts);
      && (dir <= key <==> |below| < |parts| && below == parts[..|below|])
      && (dir <= key ==> ChildOf(dir, key) == parts[|below|] && (EntryOf(dir, key).Object? <==> |parts| == |below| + 1))
  {
    PrefixIsParts(root + below, root + parts);
    LeadingParts(root, below, parts);
    if |below| < |parts| && below == parts[..|below|] {
      ChildPart(root, below, parts[|below|..]);
      assert below + parts[|below|..] == parts;
    }
  }

  lemma ChildPart(root: seq<Str>, below: seq<Str>, rest: seq<Str>)
    requires root != [] && rest != [] && NoSlash(rest[0])
    ensures var dir, key := Dir(root + below), Join(root + (below + rest));
      dir <= key && ChildOf(dir, key) == rest[0] && (EntryOf(dir, key).Object? <==> |rest| == 1)
  {
    assert root + (below + rest) == (root + below) + rest;
    PartsGivePrefix(root + below, rest);
    HeadPart(rest);
  }

  lemma LeadingParts(root: seq<Str>, below: seq<Str>, parts: seq<Str>)
    ensures |root + below| < |root + parts| && root + below == (root + parts)[..|root + below|] <==>
            |below| < |parts| && below == parts[..|below|]
  {
    if |below| < |parts| {
      assert (root + parts)[..|root + below|] == root + parts[..|below|];
      if root + below == root + parts[..|below|] {
        assert (root + below)[|root|..] == below;
        assert (root + parts[..|below|])[|root|..] == parts[..|below|];
      }
    }
  }

  lemma ItemHeads(i: Item)
    requires ValidItem(i)
    ensures |ItemParts(i)| >= 2
    ensures ItemParts(i)[0] != [] && (IsDotEntry(ItemParts(i)[0]) <==> PackageOf(i).None?)
    ensures PackageOf(i).Some? ==> ItemParts(i)[0] == QueryEscape(PackageOf(i).value) && ValidName(PackageOf(i).value)
    ensures VersionOf(i).Some? ==> PackageOf(i).Some?
    ensures PackageOf(i).Some? ==> ItemParts(i)[1] != [] && (IsDotEntry(ItemParts(i)[1]) <==> VersionOf(i).None?)
    ensures VersionOf(i).Some? ==>
      |ItemParts(i)| >= 3 && ItemParts(i)[1] == QueryEscape(VersionOf(i).value) && ValidName(VersionOf(i).value)
  {
    match i
    case PackageMeta(p) => SegmentRoundTrip(p);
    case VersionMeta(p, v) => SegmentRoundTrip(p); SegmentRoundTrip(v);
    case Tag(p, _) => SegmentRoundTrip(p);
    case _ =>
      match i.l
      case Format =>
      case Pkg(p) => SegmentRoundTrip(p);
      case Ver(p, v) => SegmentRoundTrip(p); SegmentRoundTrip(v);
  }

  /** A known key in a scope's directory, its child segment and its kind of listing entry. */
  lemma UnderScope(prefix: Str, id: ObjectId, ns: Str, format: Str)
    requires ValidPrefix(prefix) && ValidId(id) && Plain(ns) && Plain(format)
    ensures var dir, key := ScopePrefix(ScopeOf(prefix, ns, format)), KeyOf(prefix, id);
      && (dir <= key <==> id.Stored? && id.ns == ns && id.format == format)
      && (dir <= key ==>
            && EntryOf(dir, key).Directory?
            && ChildOf(dir, key) != []
            && (IsDotEntry(ChildOf(dir, key)) <==> PackageOf(id.item).None?)
            && (PackageOf(id.item).Some? ==>
                  ChildOf(dir, key) == QueryEscape(PackageOf(id.item).value) && ValidName(PackageOf(id.item).value)))
  {
    ScopeIsDir(prefix, ns, format);
    UnderDir(prefix, id, [ns, format]);
    if id.Stored? {
      ItemHeads(id.item);
      assert IdParts(id)[..2] == [id.ns, id.format];
      assert IdParts(id)[2] == ItemParts(id.item)[0];
    }
  }

  /** A known key in a package's directory. */
  lemma UnderPackage(prefix: Str, id: ObjectId, ns: Str, format: Str, p: Str)
    requires ValidPrefix(prefix) && ValidId(id) && Plain(ns) && Plain(format) && ValidName(p)
    ensures var dir, key := PackagePrefix(ScopeOf(prefix, ns, format), p), KeyOf(prefix, id);
      && (dir <= key <==> id.Stored? && id.ns == ns && id.format == format && PackageOf(id.item) == Some(p))
      && (dir <= key ==>
            && ChildOf(dir, key) != []
            && (IsDotEntry(ChildOf(dir, key)) <==> VersionOf(id.item).None?)
            && (VersionOf(id.item).Some? ==>
                  && EntryOf(dir, key).Directory?
                  && ChildOf(dir, key) == QueryEscape(VersionOf(id.item).value) && ValidName(VersionOf(id.item).value)))
  {
    EscapedIsOneSegment(p);
    ScopeIsDir(prefix, ns, format);
    var below := [ns, format, QueryEscape(p)];
    DirSnoc(RootParts(prefix) + [ns, format], QueryEscape(p));
    assert RootParts(prefix) + [ns, format] + [QueryEscape(p)] == RootParts(prefix) + below;
    UnderDir(prefix, id, below);
    if id.Stored? {
      ItemHeads(id.item);
      PackageSegment(id, p);
      assert IdParts(id)[3] == ItemParts(id.item)[1];
    }
  }

  lemma PackageSegment(id: ObjectId, p: Str)
    requires ValidId(id) && id.Stored? && ValidName(p)
    ensures |IdParts(id)| >= 4
    ensures forall ns, format :: IdParts(id)[..3] == [ns, format, QueryEscape(p)] <==>
              id.ns == ns && id.format == format && PackageOf(id.item) == Some(p)
  {
    ItemHeads(id.item);
    SegmentRoundTrip(p);
    assert IdParts(id)[..3] == [id.ns, id.format, ItemParts(id.item)[0]];
    forall ns, format
      ensures IdParts(id)[..3] == [ns, format, QueryEscape(p)] <==>
              id.ns == ns && id.format == format && PackageOf(id.item) == Some(p)
    {
      if IdParts(id)[..3] == [ns, format, QueryEscape(p)] {
        assert [ns, format, QueryEscape(p)][2] == ItemParts(id.item)[0];
        if PackageOf(id.item).Some? { EscapeInjective(p, PackageOf(id.item).value); }
      }
    }
  }

  /** A known key in a version's directory. */
  lemma UnderVersion(prefix: Str, id: ObjectId, ns: Str, format: Str, p: Str, v: Str)
    requires ValidPrefix(prefix) && ValidId(id) && Plain(ns) && Plain(format) && ValidName(p) && ValidName(v)
    ensures VersionPrefix(ScopeOf(prefix, ns, format), p, v) <= KeyOf(prefix, id) <==>
            id.Stored? && id.ns == ns && id.format == format && PackageOf(id.item) == Some(p) &&
              VersionOf(id.item) == Some(v)
  {
    EscapedIsOneSegment(p);
    EscapedIsOneSegment(v);
    SegmentRoundTrip(v);
    ScopeIsDir(prefix, ns, format);
    var below := [ns, format, QueryEscape(p), QueryEscape(v)];
    DirSnoc(RootParts(prefix) + [ns, format], QueryEscape(p));
    DirSnoc(RootParts(prefix) + [ns, format] + [QueryEscape(p)], QueryEscape(v));
    assert RootParts(prefix) + [ns, format] + [QueryEscape(p)] + [QueryEscape(v)] == RootParts(prefix) + below;
    UnderDir(prefix, id, below);
    if id.Stored? {
      VersionSegment(id, ns, format, p, v);
    }
  }

  lemma VersionSegment(id: ObjectId, ns: Str, format: Str, p: Str, v: Str)
    requires ValidId(id) && id.Stored? && ValidName(p) && ValidName(v)
    ensures |IdParts(id)| > 4 && IdParts(id)[..4] == [ns, format, QueryEscape(p), QueryEscape(v)] <==>
            id.ns == ns && id.format == format && PackageOf(id.item) == Some(p) && VersionOf(id.item) == Some(v)
  {
    ItemHeads(id.item);
    PackageSegment(id, p);
    SegmentRoundTrip(v);
    var parts, pkg := IdParts(id), [ns, format, QueryEscape(p)];
    assert [ns, format, QueryEscape(p), QueryEscape(v)] == pkg + [QueryEscape(v)];
    assert parts[..4] == parts[..3] + [ItemParts(id.item)[1]];
    SnocEquals(parts[..3], ItemParts(id.item)[1], pkg, QueryEscape(v));
    assert parts[..3] == pkg <==> id.ns == ns && id.format == format && PackageOf(id.item) == Some(p);
    if VersionOf(id.item).Some? && QueryEscape(v) == QueryEscape(VersionOf(id.item).value) {
      EscapeInjective(v, VersionOf(id.item).value);
    }
  }

  lemma SnocEquals<T>(a: seq<T>, x: T, b: seq<T>, y: T)
    ensures a + [x] == b + [y] <==> a == b && x == y
  {
    if a + [x] == b + [y] {
      assert (a + [x])[..|a|] == a && (b + [y])[..|b|] == b;
      assert (a + [x])[|a|] == x && (b + [y])[|b|] == y;
    }
  }

  /** A known key in a namespace's directory: the format directories and the namespace's own record. */
  lemma UnderNamespace(prefix: Str, id: ObjectId, ns: Str)
    requires ValidPrefix(prefix) && ValidId(id) && Plain(ns)
    ensures var dir, key := RootPrefix(prefix) + ns + "/", KeyOf(prefix, id);
      && (dir <= key <==> id.ns == ns)
      && (dir <= key ==> ChildOf(dir, key) == (if id.Stored? then id.format else META_NAME)
                         && (EntryOf(dir, key).Directory? <==> id.Stored?))
  {
    RootIsDir(prefix);
    DirSnoc(RootParts(prefix), ns);
    UnderDir(prefix, id, [ns]);
    assert IdParts(id)[..1] == [id.ns];
    if id.Stored? { ItemIsDeep(id.item); }
  }

  /** A known key in a package's dist-tag directory. */
  lemma UnderTags(prefix: Str, id: ObjectId, ns: Str, format: Str, p: Str)
    requires ValidPrefix(prefix) && ValidId(id) && Plain(ns) && Plain(format) && ValidName(p)
    ensures var dir, key := PackagePrefix(ScopeOf(prefix, ns, format), p) + TAGS_NAME + "/", KeyOf(prefix, id);
      && (dir <= key <==> id.Stored? && id.ns == ns && id.format == format && id.item.Tag? && id.item.p == p)
      && (dir <= key ==> EntryOf(dir, key).Object? && ChildOf(dir, key) == QueryEscape(id.item.t))
  {
    EscapedIsOneSegment(p);
    ScopeIsDir(prefix, ns, format);
    var scope := RootParts(prefix) + [ns, format];
    var below := [ns, format, QueryEscape(p), TAGS_NAME];
    DirSnoc(scope, QueryEscape(p));
    DirSnoc(scope + [QueryEscape(p)], TAGS_NAME);
    assert scope + [QueryEscape(p)] + [TAGS_NAME] == RootParts(prefix) + below;
    UnderDir(prefix, id, below);
    if id.Stored? {
      TagSegment(id, ns, format, p);
    }
  }

  lemma TagSegment(id: ObjectId, ns: Str, format: Str, p: Str)
    requires ValidId(id) && id.Stored? && ValidName(p)
    ensures |IdParts(id)| > 4 && IdParts(id)[..4] == [ns, format, QueryEscape(p), TAGS_NAME] <==>
            id.ns == ns && id.format == format && id.item.Tag? && id.item.p == p
    ensures id.item.Tag? ==> |IdParts(id)| == 5 && IdParts(id)[4] == QueryEscape(id.item.t)
  {
    PackageSegment(id, p);
    var parts, pkg := IdParts(id), [ns, format, QueryEscape(p)];
    assert [ns, format, QueryEscape(p), TAGS_NAME] == pkg + [TAGS_NAME];
    assert parts[..4] == parts[..3] + [ItemParts(id.item)[1]];
    SnocEquals(parts[..3], ItemParts(id.item)[1], pkg, TAGS_NAME);
    TagsFolder(id.item);
    assert parts[..3] == pkg <==> id.ns == ns && id.format == format && PackageOf(id.item) == Some(p);
  }

  lemma TagsFolder(i: Item)
    requires ValidItem(i)
    ensures |ItemParts(i)| >= 2
    ensures PackageOf(i).Some? ==> (ItemParts(i)[1] == TAGS_NAME <==> i.Tag?)
  {
    ItemHeads(i);
  }
}
