/** Listing the files of a level, and the project page built from the listings. */
module FileIndex {
  import opened Text
  import opened Escape
  import opened Paths
  import opened Listing
  import opened Sorting
  import opened Index

  predicate AtFiles(i: Item, l: Level)
  {
    (i.File? || i.FileMeta?) && i.l == l
  }

  function FilesDir(prefix: Str, ns: Str, format: Str, l: Level): Str
  {
    LevelPrefix(ScopeOf(prefix, ns, format), l) + (FILES_NAME + "/")
  }

  function LeafSegment(i: Item): Str
    requires i.File? || i.FileMeta?
  {
    if i.File? then QueryEscape(i.f) else META_FILE_PREFIX + QueryEscape(i.f)
  }

  lemma ReadInFolder(l: Level, tail: seq<Str>)
    requires ValidLevel(l) && tail != []
    ensures var read := ReadItem(LevelParts(l) + ([FILES_NAME] + tail)); read.Some? ==> AtFiles(read.value, l)
  {
    ReadAtLevel(l, [FILES_NAME] + tail);
  }

  /** An item lies in a level's file folder exactly when its segments start with the folder's. */
  lemma FolderItems(i: Item, l: Level)
    requires ValidItem(i) && ValidLevel(l)
    ensures var folder := LevelParts(l) + [FILES_NAME];
      |folder| < |ItemParts(i)| && ItemParts(i)[..|folder|] == folder <==> AtFiles(i, l)
    ensures AtFiles(i, l) ==> ItemParts(i) == LevelParts(l) + [FILES_NAME] + [LeafSegment(i)]
  {
    var folder, parts := LevelParts(l) + [FILES_NAME], ItemParts(i);
    if AtFiles(i, l) {
      assert parts == folder + [LeafSegment(i)];
    } else if |folder| < |parts| && parts[..|folder|] == folder {
      assert parts == LevelParts(l) + ([FILES_NAME] + parts[|folder|..]);
      ReadInFolder(l, parts[|folder|..]);
      ItemRoundTrip(i);
      assert false;
    }
  }

  lemma FolderDir(prefix: Str, ns: Str, format: Str, l: Level)
    requires ValidPrefix(prefix) && Plain(ns) && Plain(format)
    ensures FilesDir(prefix, ns, format, l) == Dir(RootParts(prefix) + ([ns, format] + (LevelParts(l) + [FILES_NAME])))
  {
    ScopeIsDir(prefix, ns, format);
    var base := RootParts(prefix) + [ns, format];
    LevelIsDir(ScopeOf(prefix, ns, format), base, l);
    DirSnoc(base + LevelParts(l), FILES_NAME);
    assert base + LevelParts(l) + [FILES_NAME] == RootParts(prefix) + ([ns, format] + (LevelParts(l) + [FILES_NAME]));
    assert FilesDir(prefix, ns, format, l) == Dir(base + LevelParts(l)) + FILES_NAME + "/";
  }

  lemma LevelPartsHaveNoSlash(l: Level)
    ensures AllNoSlash(LevelParts(l) + [FILES_NAME])
  {
    match l
    case Format => assert LevelParts(l) + [FILES_NAME] == [FILES_NAME];
    case Pkg(p) =>
      EscapedIsOneSegment(p);
      assert LevelParts(l) + [FILES_NAME] == [QueryEscape(p), FILES_NAME];
    case Ver(p, v) =>
      EscapedIsOneSegment(p);
      EscapedIsOneSegment(v);
      assert LevelParts(l) + [FILES_NAME] == [QueryEscape(p), QueryEscape(v), FILES_NAME];
  }

  lemma FolderHasNoSlashes(ns: Str, format: Str, l: Level)
    requires Plain(ns) && Plain(format)
    ensures AllNoSlash([ns, format] + (LevelParts(l) + [FILES_NAME]))
  {
    LevelPartsHaveNoSlash(l);
    var rest := LevelParts(l) + [FILES_NAME];
    forall i | 0 <= i < |[ns, format] + rest| ensures NoSlash(([ns, format] + rest)[i]) {
      assert i >= 2 ==> ([ns, format] + rest)[i] == rest[i - 2];
    }
  }

  lemma FolderIds(id: ObjectId, ns: Str, format: Str, l: Level)
    requires ValidId(id) && ValidLevel(l)
    ensures var below := [ns, format] + (LevelParts(l) + [FILES_NAME]);
      |below| < |IdParts(id)| && below == IdParts(id)[..|below|] <==>
        id.Stored? && id.ns == ns && id.format == format && AtFiles(id.item, l)
    ensures id.Stored? && AtFiles(id.item, l) ==>
      |IdParts(id)| == |LevelParts(l)| + 4 && IdParts(id)[|LevelParts(l)| + 3] == LeafSegment(id.item)
  {
    var folder := LevelParts(l) + [FILES_NAME];
    var below := [ns, format] + folder;
    if id.Stored? {
      FolderItems(id.item, l);
      var parts := [id.ns, id.format] + ItemParts(id.item);
      if |below| < |parts| {
        assert parts[..|below|] == [id.ns, id.format] + ItemParts(id.item)[..|folder|];
        assert below[0] == ns && below[1] == format && below[2..] == folder;
        assert parts[..|below|][2..] == ItemParts(id.item)[..|folder|];
      }
    }
  }

  /** A known key in a level's file folder: a blob under its encoded name, or a sidecar behind a dot. */
  lemma UnderFiles(prefix: Str, id: ObjectId, ns: Str, format: Str, l: Level)
    requires ValidPrefix(prefix) && ValidId(id) && Plain(ns) && Plain(format) && ValidLevel(l)
    ensures var dir, key := FilesDir(prefix, ns, format, l), KeyOf(prefix, id);
      && (dir <= key <==> id.Stored? && id.ns == ns && id.format == format && AtFiles(id.item, l))
      && (dir <= key ==> EntryOf(dir, key).Object? && ChildOf(dir, key) == LeafSegment(id.item))
  {
    FolderDir(prefix, ns, format, l);
    FolderHasNoSlashes(ns, format, l);
    FolderIds(id, ns, format, l);
    UnderDir(prefix, id, [ns, format] + (LevelParts(l) + [FILES_NAME]));
  }

  function BlobId(ns: Str, format: Str, l: Level, f: Str): ObjectId
  {
    Stored(ns, format, File(l, f))
  }

  ghost predicate FileSegmentIn(ids: iset<ObjectId>, ns: Str, format: Str, l: Level, n: Str)
  {
    exists f :: n == QueryEscape(f) && BlobId(ns, format, l, f) in ids
  }

  lemma FileSegmentOf(ids: iset<ObjectId>, ns: Str, format: Str, l: Level, f: Str)
    ensures FileSegmentIn(ids, ns, format, l, QueryEscape(f)) <==> BlobId(ns, format, l, f) in ids
  {
    if g :| QueryEscape(f) == QueryEscape(g) && BlobId(ns, format, l, g) in ids { EscapeInjective(f, g); }
  }

  /** The children listed in the folder are the blobs; sidecars are dot entries and are dropped. */
  lemma FileChildren(prefix: Str, keys: set<Str>, ns: Str, format: Str, l: Level, n: Str)
    requires AllKnown(prefix, keys) && Plain(ns) && Plain(format) && ValidLevel(l)
    ensures ChildIn(keys, FilesDir(prefix, ns, format, l), n) <==> FileSegmentIn(IdsOf(prefix, keys), ns, format, l, n)
  {
    var dir := FilesDir(prefix, ns, format, l);
    if ChildIn(keys, dir, n) {
      var k :| k in keys && dir <= k && ChildOf(dir, k) == n;
      var id := IdOf(prefix, keys, k);
      UnderFiles(prefix, id, ns, format, l);
      assert n[0] != '.' && LeafSegment(id.item) == n;
      assert id == BlobId(ns, format, l, id.item.f);
    }
    if f :| n == QueryEscape(f) && BlobId(ns, format, l, f) in IdsOf(prefix, keys) {
      UnderFiles(prefix, BlobId(ns, format, l, f), ns, format, l);
      SegmentRoundTrip(f);
    }
  }

  lemma FilesHaveNoClash(prefix: Str, keys: set<Str>, ns: Str, format: Str, l: Level)
    requires AllKnown(prefix, keys) && Plain(ns) && Plain(format) && ValidLevel(l)
    ensures NoClash(keys, FilesDir(prefix, ns, format, l))
  {
    var dir := FilesDir(prefix, ns, format, l);
    forall k, k' | k in keys && k' in keys && dir <= k && dir <= k' && ChildOf(dir, k) == ChildOf(dir, k')
      ensures EntryOf(dir, k) == EntryOf(dir, k')
    {
      var id := IdOf(prefix, keys, k);
      var id' := IdOf(prefix, keys, k');
      UnderFiles(prefix, id, ns, format, l);
      UnderFiles(prefix, id', ns, format, l);
    }
  }

  /** Every file of a level, exactly once. */
  method Files(b: Bucket, ns: Str, format: Str, l: Level) returns (names: seq<Str>)
    requires b.Valid() && Plain(ns) && Plain(format) && ValidLevel(l)
    ensures forall f :: f in names <==> BlobId(ns, format, l, f) in b.Ids()
    ensures Distinct(names)
  {
    var segments := b.ListChildNames(FilesDir(b.prefix, ns, format, l));
    FilesHaveNoClash(b.prefix, b.objects.Keys, ns, format, l);
    ghost var ids := b.Ids();
    forall n ensures n in segments <==> FileSegmentIn(ids, ns, format, l, n) {
      FileChildren(b.prefix, b.objects.Keys, ns, format, l, n);
    }
    forall i | 0 <= i < |segments| ensures IsEncoded(segments[i]) {
      assert FileSegmentIn(ids, ns, format, l, segments[i]);
    }
    names := DecodeAll(segments);
    forall f ensures f in names <==> BlobId(ns, format, l, f) in ids {
      FileSegmentOf(ids, ns, format, l, f);
    }
  }

  // ---- The project page ----

  datatype Link = Link(version: Str, file: Str)

  function LinkId(ns: Str, project: Str, link: Link): ObjectId
  {
    BlobId(ns, "pypi", Ver(project, link.version), link.file)
  }

  /** The links of one version, in the order listed. */
  method VersionLinks(b: Bucket, ns: Str, project: Str, version: Str) returns (links: seq<Link>)
    requires b.Valid() && Plain(ns) && ValidName(project) && ValidName(version)
    ensures forall link :: link in links <==> link.version == version && LinkId(ns, project, link) in b.Ids()
    ensures forall i, j | 0 <= i < j < |links| :: links[i] != links[j]
  {
    var files := Files(b, ns, "pypi", Ver(project, version));
    links := [];
    for i := 0 to |files|
      invariant |links| == i && forall j | 0 <= j < i :: links[j] == Link(version, files[j])
    {
      links := links + [Link(version, files[i])];
    }
    forall link ensures link in links <==> link.version == version && link.file in files {
      if link.version == version && link.file in files {
        var j :| 0 <= j < |files| && files[j] == link.file;
        assert links[j] == link;
      }
    }
  }

  ghost predicate LinksOf(ids: iset<ObjectId>, ns: Str, project: Str, versions: seq<Str>, n: nat, links: seq<Link>)
    requires n <= |versions|
  {
    && (forall link :: link in links <==> link.version in versions[..n] && LinkId(ns, project, link) in ids)
    && (forall i, j | 0 <= i < j < |links| :: links[i] != links[j])
  }

  /** What a file's metadata contributes to its link. */
  datatype Details = Details(sha256: Str, requiresPython: Str)

  datatype FileLink = FileLink(file: Str, url: Str, details: Details)

  /** By file name, then by URL. */
  predicate LinkLessEq(a: FileLink, b: FileLink)
  {
    if a.file == b.file then LessEq(a.url, b.url) else LessEq(a.file, b.file)
  }

  lemma LinksAreOrdered()
    ensures Order(LinkLessEq)
  {
    BytesAreOrdered();
    forall a, b, c | LinkLessEq(a, b) && LinkLessEq(b, c) ensures LinkLessEq(a, c) {
      if a.file == c.file && a.file != b.file { Antisymmetric(a.file, b.file); }
    }
  }

  /** Strictly by file name, by URL only among links to files of one name. */
  lemma LinksAreOrderedBy(a: FileLink, b: FileLink)
    ensures LinkLessEq(a, b) <==>
      (a.file != b.file && LessEq(a.file, b.file)) || (a.file == b.file && LessEq(a.url, b.url))
    ensures LinkLessEq(a, b) && LinkLessEq(b, a) ==> a.file == b.file && a.url == b.url
  {
    if LessEq(a.file, b.file) && LessEq(b.file, a.file) { Antisymmetric(a.file, b.file); }
    if LessEq(a.url, b.url) && LessEq(b.url, a.url) { Antisymmetric(a.url, b.url); }
  }

  /** What the links say, given each file's metadata and URL; details is None where metadata cannot be read. */
  function Described(links: seq<Link>, details: Link -> Option<Details>, url: Link -> Str): seq<FileLink>
    requires forall i | 0 <= i < |links| :: details(links[i]).Some?
  {
    seq(|links|, i requires 0 <= i < |links| => FileLink(links[i].file, url(links[i]), details(links[i]).value))
  }

  method Describe(links: seq<Link>, details: Link -> Option<Details>, url: Link -> Str)
    returns (r: Option<seq<FileLink>>)
    ensures r.None? <==> exists i :: 0 <= i < |links| && details(links[i]).None?
    ensures r.Some? ==> r.value == Described(links, details, url)
  {
    var out := [];
    for i := 0 to |links|
      invariant |out| == i && forall j | 0 <= j < i :: details(links[j]).Some?
      invariant forall j | 0 <= j < i :: out[j] == FileLink(links[j].file, url(links[j]), details(links[j]).value)
    {
      var d := details(links[i]);
      if d.None? {
        return None;
      }
      out := out + [FileLink(links[i].file, url(links[i]), d.value)];
    }
    r := Some(out);
  }

  /** The links of all versions: every file stored for the project, each once, and nothing else. */
  method ProjectLinks(b: Bucket, ns: Str, project: Str) returns (links: seq<Link>)
    requires b.Valid() && Plain(ns) && ValidName(project)
    ensures forall link :: link in links <==> LinkId(ns, project, link) in b.Ids()
    ensures forall i, j | 0 <= i < j < |links| :: links[i] != links[j]
  {
    var versions := b.Versions(ns, "pypi", project);
    ghost var ids := b.Ids();
    VersionsAreValid(ids, ns, project, versions);
    links := [];
    for i := 0 to |versions|
      invariant LinksOf(ids, ns, project, versions, i, links)
    {
      var more := VersionLinks(b, ns, project, versions[i]);
      links := links + more;
    }
    PageIsComplete(ids, ns, project, versions, links);
  }

  /** These are the files stored for the project, each once. */
  ghost predicate AllLinks(ids: iset<ObjectId>, ns: Str, project: Str, links: seq<Link>)
  {
    && (forall link :: link in links <==> LinkId(ns, project, link) in ids)
    && (forall i, j | 0 <= i < j < |links| :: links[i] != links[j])
  }

  /** The page shows each of the files with its own details, in order; there is none exactly when the metadata of
      one of them cannot be read. */
  ghost predicate PageOf(links: seq<Link>, details: Link -> Option<Details>, url: Link -> Str,
      page: Option<seq<FileLink>>)
  {
    && (page.None? <==> exists i :: 0 <= i < |links| && details(links[i]).None?)
    && (page.Some? ==>
       multiset(page.value) == multiset(Described(links, details, url)) && Sorted(LinkLessEq, page.value))
  }

  /** The page of exactly the files stored for the project. */
  method BuildProjectPage(b: Bucket, ns: Str, project: Str, details: Link -> Option<Details>, url: Link -> Str)
    returns (page: Option<seq<FileLink>>)
    requires b.Valid() && Plain(ns) && ValidName(project)
    ensures exists links :: AllLinks(b.Ids(), ns, project, links) && PageOf(links, details, url, page)
  {
    var links := ProjectLinks(b, ns, project);
    assert AllLinks(b.Ids(), ns, project, links);
    var rows := Describe(links, details, url);
    if rows.None? {
      page := None;
    } else {
      LinksAreOrdered();
      SortSorts(LinkLessEq, rows.value);
      page := Some(Sort(LinkLessEq, rows.value));
    }
    assert PageOf(links, details, url, page);
  }

  lemma VersionsAreValid(ids: iset<ObjectId>, ns: Str, project: Str, versions: seq<Str>)
    requires forall id :: id in ids ==> ValidId(id)
    requires forall v :: v in versions ==> VersionIn(ids, ns, "pypi", project, v)
    ensures forall i | 0 <= i < |versions| :: ValidName(versions[i])
  {
    forall i | 0 <= i < |versions| ensures ValidName(versions[i]) {
      assert VersionIn(ids, ns, "pypi", project, versions[i]);
    }
  }

  lemma PageIsComplete(ids: iset<ObjectId>, ns: Str, project: Str, versions: seq<Str>, links: seq<Link>)
    requires LinksOf(ids, ns, project, versions, |versions|, links)
    requires forall v :: VersionIn(ids, ns, "pypi", project, v) ==> v in versions
    ensures forall link :: link in links <==> LinkId(ns, project, link) in ids
  {
    assert versions[..|versions|] == versions;
    forall link ensures link in links <==> LinkId(ns, project, link) in ids {
      var id := LinkId(ns, project, link);
      if id in ids { assert InPackage(id, ns, "pypi", project) && VersionIn(ids, ns, "pypi", project, link.version); }
    }
  }
}
