/** The on-bucket key space: how scopes, names and object kinds become keys. */
module Paths {
  import opened Text
  import opened Escape

  const ROOT: Str := "open-artifact/v1/"
  const META_NAME: Str := ".meta"
  const META_FILE_PREFIX: Str := ".meta."
  const TAGS_NAME: Str := ".tags"
  const CACHE_NAME: Str := ".cache"
  const FILES_NAME: Str := ".files"
  const FORMATS: set<Str> := {"pypi", "npm", "maven", "debian", "generic"}
  const RESERVED: set<Str> := {"admin", "healthz", "readyz", "metrics", "simple", "maven2", "v2", "npm", "pypi",
                               "debian", "generic", "_control", "_proxy-cache", "open-artifact"}

  // ---- Names ----

  /** What the store accepts as a package, version, file, tag or cache name. */
  predicate ValidName(name: Str)
  {
    name != [] && name[0] != '.'
  }

  predicate ValidNamespace(ns: Str)
  {
    && 1 <= |ns| <= 64
    && (forall i :: 0 <= i < |ns| ==> 'a' <= ns[i] <= 'z' || '0' <= ns[i] <= '9' || ns[i] == '-')
    && ns[0] != '-' && ns[|ns| - 1] != '-'
    && ns !in RESERVED
  }

  /** A namespace name: up to 64 lower-case letters, digits and '-', by their ASCII codes, no '-' first or last, and
      none of the reserved names. */
  lemma NamespacesExactly(ns: Str)
    ensures ValidNamespace(ns) <==>
      && ns != [] && |ns| < 65 && ns[0] as int != 0x2D && ns[|ns| - 1] as int != 0x2D && ns !in RESERVED
      && forall i :: 0 <= i < |ns| ==>
           var n := ns[i] as int; 0x61 <= n <= 0x7A || 0x30 <= n <= 0x39 || n == 0x2D
  {
  }

  /** What the command line accepts as a deployment prefix. */
  predicate ValidPrefix(prefix: Str)
  {
    prefix == [] ||
    (prefix[0] != '/' && forall i :: 0 <= i < |Split(prefix)| ==> ValidName(Split(prefix)[i]))
  }

  /** A listed child segment as a name; a segment that does not decode is kept as it is. */
  function DecodeSegment(seg: Str): Str
  {
    match Unescape(seg, true)
    case Some(name) => name
    case None => seg
  }

  // ---- Scopes ----

  function TrimLeft(s: Str): Str
  {
    if s != [] && s[0] == '/' then TrimLeft(s[1..]) else s
  }

  function TrimRight(s: Str): Str
  {
    if s != [] && s[|s| - 1] == '/' then TrimRight(s[..|s| - 1]) else s
  }

  function Trim(s: Str): Str
  {
    TrimRight(TrimLeft(s))
  }

  /** The directory under which the catalog keeps namespaces. */
  function RootPrefix(prefix: Str): Str
  {
    if Trim(prefix) == [] then ROOT else ROOT + Trim(prefix) + "/"
  }

  function ScopeOf(prefix: Str, ns: Str, format: Str): Str
  {
    if prefix != [] then prefix + "/" + (ns + "/" + format) else ns + "/" + format
  }

  /** The directory of a store bound to a scope. */
  function ScopePrefix(scope: Str): Str
  {
    if Trim(scope) == [] then ROOT else ROOT + Trim(scope) + "/"
  }

  lemma {:induction false} TrimLeftOver(a: Str, rest: Str)
    requires rest != [] && rest[0] != '/'
    ensures TrimLeft(a + "/" + rest) == if TrimLeft(a) == [] then rest else TrimLeft(a) + "/" + rest
  {
    if a == [] {
      assert (a + "/" + rest)[1..] == rest;
    } else if a[0] == '/' {
      assert (a + "/" + rest)[1..] == a[1..] + "/" + rest;
      TrimLeftOver(a[1..], rest);
    }
  }

  lemma {:induction false} TrimLeftEnds(s: Str)
    ensures TrimLeft(s) != [] ==> s != [] && TrimLeft(s)[|TrimLeft(s)| - 1] == s[|s| - 1]
    ensures |TrimLeft(s)| <= |s|
  {
    if s != [] && s[0] == '/' { TrimLeftEnds(s[1..]); }
  }

  lemma {:induction false} TrimRightShrinks(s: Str)
    ensures |TrimRight(s)| <= |s| && (|TrimRight(s)| == |s| <==> s == [] || s[|s| - 1] != '/')
  {
    if s != [] && s[|s| - 1] == '/' { TrimRightShrinks(s[..|s| - 1]); }
  }

  /** Trimming a scope whose last byte is no slash. */
  lemma TrimScope(prefix: Str, tail: Str)
    requires tail != [] && tail[0] != '/' && tail[|tail| - 1] != '/'
    ensures Trim(prefix + "/" + tail) == if TrimLeft(prefix) == [] then tail else TrimLeft(prefix) + "/" + tail
    ensures Trim(tail) == tail
  {
    TrimLeftOver(prefix, tail);
    TrimRightShrinks(tail);
    TrimRightShrinks(TrimLeft(prefix) + "/" + tail);
  }

  lemma SameDir(root: Str, a: Str, b: Str, ns: Str, format: Str)
    ensures root + (a + "/" + (ns + "/" + format)) + "/" == (root + b + "/") + ns + "/" + format + "/" <==> a == b
  {
    var tail := "/" + ns + "/" + format + "/";
    assert root + (a + "/" + (ns + "/" + format)) + "/" == root + a + tail;
    assert (root + b + "/") + ns + "/" + format + "/" == root + b + tail;
    if root + a + tail == root + b + tail {
      assert |a| == |b|;
      assert a == (root + a + tail)[|root|..|root| + |a|];
      assert b == (root + b + tail)[|root|..|root| + |b|];
    }
  }

  /** One path segment that no listing hides, as every accepted namespace and format name is. */
  predicate Plain(s: Str)
  {
    s != [] && NoSlash(s) && s[0] != '.'
  }

  lemma NamesArePlain(ns: Str, format: Str)
    ensures ValidNamespace(ns) ==> Plain(ns)
    ensures format in FORMATS ==> Plain(format)
  {
  }

  lemma TrimmedScope(prefix: Str, ns: Str, format: Str)
    requires Plain(ns) && Plain(format)
    ensures Trim(ScopeOf(prefix, ns, format)) ==
            if TrimLeft(prefix) == [] then ns + "/" + format else TrimLeft(prefix) + "/" + (ns + "/" + format)
  {
    var tail := ns + "/" + format;
    assert tail[0] == ns[0] && tail[|tail| - 1] == format[|format| - 1];
    TrimScope(prefix, tail);
  }

  /** The data plane puts a namespace's objects inside the directory the catalog looks in exactly when the
      deployment prefix does not end in a slash, or is nothing but slashes. */
  lemma StoreAndCatalogAgree(prefix: Str, ns: Str, format: Str)
    requires Plain(ns) && Plain(format)
    ensures ScopePrefix(ScopeOf(prefix, ns, format)) == RootPrefix(prefix) + ns + "/" + format + "/" <==>
            TrimLeft(prefix) == [] || prefix[|prefix| - 1] != '/'
  {
    TrimmedScope(prefix, ns, format);
    if TrimLeft(prefix) == [] {
      AgreeOnSlashes(prefix, ns, format);
    } else {
      AgreeOtherwise(prefix, ns, format);
    }
  }

  lemma AgreeOnSlashes(prefix: Str, ns: Str, format: Str)
    requires TrimLeft(prefix) == [] && Trim(ScopeOf(prefix, ns, format)) == ns + "/" + format
    ensures ScopePrefix(ScopeOf(prefix, ns, format)) == RootPrefix(prefix) + ns + "/" + format + "/"
  {
    assert Trim(prefix) == [];
  }

  lemma AgreeOtherwise(prefix: Str, ns: Str, format: Str)
    requires TrimLeft(prefix) != []
    requires Trim(ScopeOf(prefix, ns, format)) == TrimLeft(prefix) + "/" + (ns + "/" + format)
    ensures prefix != []
    ensures ScopePrefix(ScopeOf(prefix, ns, format)) == RootPrefix(prefix) + ns + "/" + format + "/" <==>
      prefix[|prefix| - 1] != '/'
  {
    TrimLeftEnds(prefix);
    TrimRightShrinks(TrimLeft(prefix));
    AgreeFor(prefix, TrimLeft(prefix), ns, format);
    assert |Trim(prefix)| == |TrimLeft(prefix)| ==> Trim(prefix) == TrimLeft(prefix);
  }

  lemma AgreeFor(prefix: Str, left: Str, ns: Str, format: Str)
    requires left != []
    ensures ROOT + (left + "/" + (ns + "/" + format)) + "/" == RootPrefix(prefix) + ns + "/" + format + "/" <==>
      Trim(prefix) == left
  {
    if Trim(prefix) == [] {
    } else {
      SameDir(ROOT, left, Trim(prefix), ns, format);
    }
  }

  // ---- Keys ----

  datatype Level = Format | Pkg(p: Str) | Ver(p: Str, v: Str)

  datatype Item =
    | PackageMeta(p: Str)
    | VersionMeta(p: Str, v: Str)
    | Tag(p: Str, t: Str)
    | File(l: Level, f: Str)
    | FileMeta(l: Level, f: Str)
    | CacheFile(l: Level, k: Str)
    | CacheMeta(l: Level, k: Str)

  datatype ObjectId = Namespace(ns: Str) | Stored(ns: Str, format: Str, item: Item)

  predicate ValidLevel(l: Level)
  {
    match l
    case Format => true
    case Pkg(p) => ValidName(p)
    case Ver(p, v) => ValidName(p) && ValidName(v)
  }

  predicate ValidItem(i: Item)
  {
    match i
    case PackageMeta(p) => ValidName(p)
    case VersionMeta(p, v) => ValidName(p) && ValidName(v)
    case Tag(p, t) => ValidName(p) && ValidName(t)
    case File(l, f) => ValidLevel(l) && ValidName(f)
    case FileMeta(l, f) => ValidLevel(l) && ValidName(f)
    case CacheFile(l, k) => ValidLevel(l) && ValidName(k)
    case CacheMeta(l, k) => ValidLevel(l) && ValidName(k)
  }

  predicate ValidId(id: ObjectId)
  {
    && Plain(id.ns)
    && (id.Stored? ==> Plain(id.format) && ValidItem(id.item))
  }

  function PackagePrefix(scope: Str, p: Str): Str
  {
    ScopePrefix(scope) + QueryEscape(p) + "/"
  }

  function VersionPrefix(scope: Str, p: Str, v: Str): Str
  {
    PackagePrefix(scope, p) + QueryEscape(v) + "/"
  }

  function LevelPrefix(scope: Str, l: Level): Str
  {
    match l
    case Format => ScopePrefix(scope)
    case Pkg(p) => PackagePrefix(scope, p)
    case Ver(p, v) => VersionPrefix(scope, p, v)
  }

  function InFolder(dir: Str, folder: Str, leaf: Str): Str
  {
    dir + (folder + "/") + leaf
  }

  function ItemKey(scope: Str, i: Item): Str
  {
    match i
    case PackageMeta(p) => PackagePrefix(scope, p) + META_NAME
    case VersionMeta(p, v) => VersionPrefix(scope, p, v) + META_NAME
    case Tag(p, t) => InFolder(PackagePrefix(scope, p), TAGS_NAME, QueryEscape(t))
    case File(l, f) => InFolder(LevelPrefix(scope, l), FILES_NAME, QueryEscape(f))
    case FileMeta(l, f) => InFolder(LevelPrefix(scope, l), FILES_NAME, META_FILE_PREFIX + QueryEscape(f))
    case CacheFile(l, k) => InFolder(LevelPrefix(scope, l), CACHE_NAME, QueryEscape(k))
    case CacheMeta(l, k) => InFolder(LevelPrefix(scope, l), CACHE_NAME, META_FILE_PREFIX + QueryEscape(k))
  }

  function KeyOf(prefix: Str, id: ObjectId): Str
  {
    match id
    case Namespace(ns) => RootPrefix(prefix) + ns + "/" + META_NAME
    case Stored(ns, format, item) => ItemKey(ScopeOf(prefix, ns, format), item)
  }

  // ---- Keys as lists of path segments ----

  function RootParts(prefix: Str): seq<Str>
  {
    ["open-artifact", "v1"] + if prefix == [] then [] else Split(prefix)
  }

  function LevelParts(l: Level): seq<Str>
  {
    match l
    case Format => []
    case Pkg(p) => [QueryEscape(p)]
    case Ver(p, v) => [QueryEscape(p), QueryEscape(v)]
  }

  function ItemParts(i: Item): seq<Str>
  {
    match i
    case PackageMeta(p) => [QueryEscape(p), META_NAME]
    case VersionMeta(p, v) => [QueryEscape(p), QueryEscape(v), META_NAME]
    case Tag(p, t) => [QueryEscape(p), TAGS_NAME, QueryEscape(t)]
    case File(l, f) => LevelParts(l) + [FILES_NAME, QueryEscape(f)]
    case FileMeta(l, f) => LevelParts(l) + [FILES_NAME, META_FILE_PREFIX + QueryEscape(f)]
    case CacheFile(l, k) => LevelParts(l) + [CACHE_NAME, QueryEscape(k)]
    case CacheMeta(l, k) => LevelParts(l) + [CACHE_NAME, META_FILE_PREFIX + QueryEscape(k)]
  }

  /** The segments below the root. */
  function IdParts(id: ObjectId): seq<Str>
  {
    match id
    case Namespace(ns) => [ns, META_NAME]
    case Stored(ns, format, item) => [ns, format] + ItemParts(item)
  }

  function Dir(parts: seq<Str>): Str
  {
    Join(parts) + "/"
  }

  lemma DirSnoc(parts: seq<Str>, seg: Str)
    requires parts != []
    ensures Dir(parts) + seg == Join(parts + [seg]) && Dir(parts) + seg + "/" == Dir(parts + [seg])
  {
    JoinConcat(parts, [seg]);
    assert Join([seg]) == seg;
  }

  lemma {:induction false} ValidPrefixTrims(prefix: Str)
    requires ValidPrefix(prefix)
    ensures Trim(prefix) == prefix && (prefix != [] ==> prefix[0] != '/' && prefix[|prefix| - 1] != '/')
  {
    if prefix != [] {
      if prefix[|prefix| - 1] == '/' { LastPartNotEmpty(prefix); }
      TrimRightShrinks(prefix);
    }
  }

  lemma {:induction false} LastPartNotEmpty(s: Str)
    requires s != [] && s[|s| - 1] == '/'
    ensures Split(s)[|Split(s)| - 1] == []
  {
    var i := FirstSlash(s);
    if i + 1 < |s| {
      LastPartNotEmpty(s[i + 1..]);
      assert Split(s)[|Split(s)| - 1] == Split(s[i + 1..])[|Split(s[i + 1..])| - 1];
    } else {
      assert s[i + 1..] == [];
      assert Split(s) == [s[..i]] + Split([]);
    }
  }

  lemma RootIsDir(prefix: Str)
    requires ValidPrefix(prefix)
    ensures RootPrefix(prefix) == Dir(RootParts(prefix)) && AllNoSlash(RootParts(prefix))
  {
    var base: seq<Str> := ["open-artifact", "v1"];
    assert base[1..] == ["v1"] && Join(["v1"]) == "v1";
    assert Join(base) == "open-artifact" + "/" + "v1";
    assert ROOT == Dir(base);
    ValidPrefixTrims(prefix);
    if prefix != [] {
      JoinConcat(base, Split(prefix));
      JoinSplit(prefix);
    } else {
      assert base + [] == base;
    }
  }

  lemma ScopeIsDir(prefix: Str, ns: Str, format: Str)
    requires ValidPrefix(prefix) && Plain(ns) && Plain(format)
    ensures ScopePrefix(ScopeOf(prefix, ns, format)) == Dir(RootParts(prefix) + [ns, format])
  {
    ValidPrefixTrims(prefix);
    StoreAndCatalogAgree(prefix, ns, format);
    RootIsDir(prefix);
    DirSnoc(RootParts(prefix), ns);
    DirSnoc(RootParts(prefix) + [ns], format);
    assert RootParts(prefix) + [ns] + [format] == RootParts(prefix) + [ns, format];
  }

  lemma LevelIsDir(scope: Str, base: seq<Str>, l: Level)
    requires base != [] && ScopePrefix(scope) == Dir(base)
    ensures LevelPrefix(scope, l) == Dir(base + LevelParts(l))
  {
    match l
    case Format => assert base + [] == base;
    case Pkg(p) => DirSnoc(base, QueryEscape(p));
    case Ver(p, v) =>
      DirSnoc(base, QueryEscape(p));
      DirSnoc(base + [QueryEscape(p)], QueryEscape(v));
      assert base + [QueryEscape(p)] + [QueryEscape(v)] == base + LevelParts(l);
  }

  lemma LeafKey(scope: Str, base: seq<Str>, l: Level, leaf: Str)
    requires base != [] && ScopePrefix(scope) == Dir(base)
    ensures LevelPrefix(scope, l) + leaf == Join(base + (LevelParts(l) + [leaf]))
  {
    LevelIsDir(scope, base, l);
    DirSnoc(base + LevelParts(l), leaf);
    assert base + LevelParts(l) + [leaf] == base + (LevelParts(l) + [leaf]);
  }

  lemma FolderKey(scope: Str, base: seq<Str>, l: Level, folder: Str, leaf: Str)
    requires base != [] && ScopePrefix(scope) == Dir(base)
    ensures InFolder(LevelPrefix(scope, l), folder, leaf) == Join(base + (LevelParts(l) + [folder, leaf]))
  {
    var dir := base + LevelParts(l);
    LevelIsDir(scope, base, l);
    DirSnoc(dir, folder);
    DirSnoc(dir + [folder], leaf);
    assert Dir(dir) + (folder + "/") == Dir(dir) + folder + "/";
    assert dir + [folder] + [leaf] == base + (LevelParts(l) + [folder, leaf]);
  }

  lemma ItemIsJoined(scope: Str, base: seq<Str>, i: Item)
    requires base != [] && ScopePrefix(scope) == Dir(base)
    ensures ItemKey(scope, i) == Join(base + ItemParts(i))
  {
    match i
    case PackageMeta(p) =>
      LeafKey(scope, base, Pkg(p), META_NAME);
      assert LevelParts(Pkg(p)) + [META_NAME] == ItemParts(i);
    case VersionMeta(p, v) =>
      LeafKey(scope, base, Ver(p, v), META_NAME);
      assert LevelParts(Ver(p, v)) + [META_NAME] == ItemParts(i);
    case Tag(p, t) =>
      FolderKey(scope, base, Pkg(p), TAGS_NAME, QueryEscape(t));
      assert LevelParts(Pkg(p)) + [TAGS_NAME, QueryEscape(t)] == ItemParts(i);
    case File(l, f) => FolderKey(scope, base, l, FILES_NAME, QueryEscape(f));
    case FileMeta(l, f) => FolderKey(scope, base, l, FILES_NAME, META_FILE_PREFIX + QueryEscape(f));
    case CacheFile(l, k) => FolderKey(scope, base, l, CACHE_NAME, QueryEscape(k));
    case CacheMeta(l, k) => FolderKey(scope, base, l, CACHE_NAME, META_FILE_PREFIX + QueryEscape(k));
  }

  /** Every key is the join of its segments, none of which holds a slash. */
  lemma KeyIsJoined(prefix: Str, id: ObjectId)
    requires ValidPrefix(prefix) && ValidId(id)
    ensures KeyOf(prefix, id) == Join(RootParts(prefix) + IdParts(id))
    ensures AllNoSlash(RootParts(prefix) + IdParts(id))
  {
    RootIsDir(prefix);
    PartsHaveNoSlash(id);
    match id
    case Namespace(ns) => NamespaceIsJoined(prefix, ns);
    case Stored(ns, format, item) =>
      ScopeIsDir(prefix, ns, format);
      StoredIsJoined(ScopeOf(prefix, ns, format), RootParts(prefix), ns, format, item);
  }

  lemma NamespaceIsJoined(prefix: Str, ns: Str)
    requires RootPrefix(prefix) == Dir(RootParts(prefix))
    ensures KeyOf(prefix, Namespace(ns)) == Join(RootParts(prefix) + IdParts(Namespace(ns)))
  {
    DirSnoc(RootParts(prefix), ns);
    DirSnoc(RootParts(prefix) + [ns], META_NAME);
    assert RootParts(prefix) + [ns] + [META_NAME] == RootParts(prefix) + IdParts(Namespace(ns));
  }

  lemma StoredIsJoined(scope: Str, root: seq<Str>, ns: Str, format: Str, item: Item)
    requires root != [] && ScopePrefix(scope) == Dir(root + [ns, format])
    ensures ItemKey(scope, item) == Join(root + IdParts(Stored(ns, format, item)))
  {
    ItemIsJoined(scope, root + [ns, format], item);
    Regroup(root, [ns, format], ItemParts(item));
  }

  lemma Regroup(a: seq<Str>, b: seq<Str>, c: seq<Str>)
    ensures a + b + c == a + (b + c)
  {
  }

  lemma PartsHaveNoSlash(id: ObjectId)
    requires ValidId(id)
    ensures AllNoSlash(IdParts(id))
  {
    if id.Stored? {
      ItemPartsHaveNoSlash(id.item);
    }
  }

  lemma ItemPartsHaveNoSlash(i: Item)
    ensures AllNoSlash(ItemParts(i))
  {
    match i
    case PackageMeta(p) => EscapedIsOneSegment(p);
    case VersionMeta(p, v) => EscapedIsOneSegment(p); EscapedIsOneSegment(v);
    case Tag(p, t) => EscapedIsOneSegment(p); EscapedIsOneSegment(t);
    case File(l, f) => FolderHasNoSlash(l, FILES_NAME, [], f);
    case FileMeta(l, f) => FolderHasNoSlash(l, FILES_NAME, META_FILE_PREFIX, f);
    case CacheFile(l, k) => FolderHasNoSlash(l, CACHE_NAME, [], k);
    case CacheMeta(l, k) => FolderHasNoSlash(l, CACHE_NAME, META_FILE_PREFIX, k);
  }

  lemma FolderHasNoSlash(l: Level, folder: Str, mark: Str, name: Str)
    requires NoSlash(folder) && NoSlash(mark)
    ensures AllNoSlash(LevelParts(l) + [folder, mark + QueryEscape(name)])
    ensures [] + QueryEscape(name) == QueryEscape(name)
  {
    EscapedIsOneSegment(name);
    LevelHasNoSlash(l);
    var leaf := mark + QueryEscape(name);
    assert NoSlash(leaf);
    assert AllNoSlash([folder, leaf]);
  }

  lemma LevelHasNoSlash(l: Level)
    ensures AllNoSlash(LevelParts(l))
  {
    match l
    case Format =>
    case Pkg(p) => EscapedIsOneSegment(p);
    case Ver(p, v) => EscapedIsOneSegment(p); EscapedIsOneSegment(v);
  }

  // ---- A key names its object ----

  predicate IsDotEntry(seg: Str)
  {
    seg != [] && seg[0] == '.'
  }

  /** The object an item's segments stand for: the names up to the first dot entry are its level. */
  function ReadItem(parts: seq<Str>): Option<Item>
  {
    if |parts| >= 1 && IsDotEntry(parts[0]) then ReadLeaf(Format, parts)
    else if |parts| >= 2 && IsDotEntry(parts[1]) then ReadLeaf(Pkg(DecodeSegment(parts[0])), parts[1..])
    else if |parts| >= 3 && IsDotEntry(parts[2])
      then ReadLeaf(Ver(DecodeSegment(parts[0]), DecodeSegment(parts[1])), parts[2..])
    else None
  }

  function ReadLeaf(l: Level, rest: seq<Str>): Option<Item>
    requires rest != []
  {
    if |rest| == 1 && rest[0] == META_NAME && l.Pkg? then Some(PackageMeta(l.p))
    else if |rest| == 1 && rest[0] == META_NAME && l.Ver? then Some(VersionMeta(l.p, l.v))
    else if |rest| != 2 then None
    else if rest[0] == TAGS_NAME && l.Pkg? then Some(Tag(l.p, DecodeSegment(rest[1])))
    else if rest[0] == FILES_NAME then
      Some(if META_FILE_PREFIX <= rest[1] then FileMeta(l, DecodeSegment(rest[1][|META_FILE_PREFIX|..]))
           else File(l, DecodeSegment(rest[1])))
    else if rest[0] == CACHE_NAME then
      Some(if META_FILE_PREFIX <= rest[1] then CacheMeta(l, DecodeSegment(rest[1][|META_FILE_PREFIX|..]))
           else CacheFile(l, DecodeSegment(rest[1])))
    else None
  }

  lemma SegmentRoundTrip(name: Str)
    ensures DecodeSegment(QueryEscape(name)) == name
    ensures ValidName(name) ==> QueryEscape(name) != [] && !IsDotEntry(QueryEscape(name))
    ensures ValidName(name) ==> !(META_FILE_PREFIX <= QueryEscape(name))
  {
    UnescapeEscape(name);
    EscapedIsOneSegment(name);
  }

  /** Reading skips a valid level's names. */
  lemma ReadAtLevel(l: Level, rest: seq<Str>)
    requires ValidLevel(l) && rest != [] && IsDotEntry(rest[0])
    ensures ReadItem(LevelParts(l) + rest) == ReadLeaf(l, rest)
  {
    var parts := LevelParts(l) + rest;
    match l
    case Format => assert parts == rest;
    case Pkg(p) =>
      SegmentRoundTrip(p);
      assert parts[1..] == rest;
    case Ver(p, v) =>
      SegmentRoundTrip(p);
      SegmentRoundTrip(v);
      assert parts[2..] == rest;
  }

  lemma LeafRoundTrip(l: Level, folder: Str, name: Str)
    requires ValidLevel(l) && ValidName(name) && (folder == FILES_NAME || folder == CACHE_NAME)
    ensures ReadItem(LevelParts(l) + [folder, QueryEscape(name)]) ==
            Some(if folder == FILES_NAME then File(l, name) else CacheFile(l, name))
    ensures ReadItem(LevelParts(l) + [folder, META_FILE_PREFIX + QueryEscape(name)]) ==
            Some(if folder == FILES_NAME then FileMeta(l, name) else CacheMeta(l, name))
  {
    SegmentRoundTrip(name);
    ReadAtLevel(l, [folder, QueryEscape(name)]);
    ReadAtLevel(l, [folder, META_FILE_PREFIX + QueryEscape(name)]);
    assert (META_FILE_PREFIX + QueryEscape(name))[|META_FILE_PREFIX|..] == QueryEscape(name);
  }

  lemma ItemRoundTrip(i: Item)
    requires ValidItem(i)
    ensures ReadItem(ItemParts(i)) == Some(i)
  {
    match i
    case PackageMeta(p) =>
      ReadAtLevel(Pkg(p), [META_NAME]);
      assert LevelParts(Pkg(p)) + [META_NAME] == ItemParts(i);
    case VersionMeta(p, v) =>
      ReadAtLevel(Ver(p, v), [META_NAME]);
      assert LevelParts(Ver(p, v)) + [META_NAME] == ItemParts(i);
    case Tag(p, t) =>
      SegmentRoundTrip(t);
      ReadAtLevel(Pkg(p), [TAGS_NAME, QueryEscape(t)]);
      assert LevelParts(Pkg(p)) + [TAGS_NAME, QueryEscape(t)] == ItemParts(i);
    case File(l, f) => LeafRoundTrip(l, FILES_NAME, f);
    case FileMeta(l, f) => LeafRoundTrip(l, FILES_NAME, f);
    case CacheFile(l, k) => LeafRoundTrip(l, CACHE_NAME, k);
    case CacheMeta(l, k) => LeafRoundTrip(l, CACHE_NAME, k);
  }

  function ReadParts(parts: seq<Str>): Option<ObjectId>
  {
    if |parts| < 2 then None
    else if |parts| == 2 then Some(Namespace(parts[0]))
    else
      match ReadItem(parts[2..])
      case None => None
      case Some(item) => Some(Stored(parts[0], parts[1], item))
  }

  /** The object a key stands for, read off the key itself. */
  function ReadKey(prefix: Str, key: Str): Option<ObjectId>
  {
    var n := |RootParts(prefix)|;
    if |Split(key)| < n then None else ReadParts(Split(key)[n..])
  }

  lemma PartsRoundTrip(id: ObjectId)
    requires id.Stored? ==> ValidItem(id.item)
    ensures ReadParts(IdParts(id)) == Some(id)
  {
    if id.Stored? {
      ItemRoundTrip(id.item);
      ItemIsDeep(id.item);
      assert IdParts(id)[2..] == ItemParts(id.item);
    }
  }

  /** Every object, of whatever family, level, format and namespace, can be read back from its key. */
  lemma KeyRoundTrip(prefix: Str, id: ObjectId)
    requires ValidPrefix(prefix) && ValidId(id)
    ensures ReadKey(prefix, KeyOf(prefix, id)) == Some(id)
  {
    KeyIsJoined(prefix, id);
    SplitJoin(RootParts(prefix) + IdParts(id));
    PartsRoundTrip(id);
  }

  lemma ItemIsDeep(i: Item)
    ensures |ItemParts(i)| >= 2
  {
  }

  /** Distinct objects never share a key. */
  lemma KeysAreDistinct(prefix: Str, a: ObjectId, b: ObjectId)
    requires ValidPrefix(prefix) && ValidId(a) && ValidId(b)
    ensures KeyOf(prefix, a) == KeyOf(prefix, b) ==> a == b
  {
    KeyRoundTrip(prefix, a);
    KeyRoundTrip(prefix, b);
  }
}
