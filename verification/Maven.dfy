/** Maven repository paths: parsing, where they store, and how the proxy rebuilds them. */
module Maven {
  import opened Text
  import opened Escape
  import opened Paths

  const METADATA_FILE: Str := "maven-metadata.xml"
  const ARCHETYPE_FILE: Str := "archetype-catalog.xml"

  datatype Kind = Artifact | ArtifactMetadata | VersionMetadata | ArchetypeCatalog
  datatype Algorithm = MD5 | SHA1 | SHA256 | SHA512

  datatype Request = Request(ns: Str, kind: Kind, group: seq<Str>, groupId: Str, artifact: Str, package: Str,
                             version: Str, file: Str, checksum: Option<Algorithm>, target: Str)

  // ---- Checksum files ----

  function Suffix(a: Algorithm): Str
  {
    match a
    case MD5 => ".md5"
    case SHA1 => ".sha1"
    case SHA256 => ".sha256"
    case SHA512 => ".sha512"
  }

  /** The first suffix that fits, in the order a map of them happens to be walked. */
  function ChecksumIn(order: seq<Algorithm>, file: Str): (Option<Algorithm>, Str)
  {
    if order == [] then (None, [])
    else if HasSuffix(file, Suffix(order[0])) then (Some(order[0]), TrimSuffix(file, Suffix(order[0])))
    else ChecksumIn(order[1..], file)
  }

  const ORDER: seq<Algorithm> := [MD5, SHA1, SHA256, SHA512]

  function ChecksumTarget(file: Str): (Option<Algorithm>, Str)
  {
    ChecksumIn(ORDER, file)
  }

  lemma OneSuffix(a: Algorithm, b: Algorithm, file: Str)
    requires HasSuffix(file, Suffix(a)) && HasSuffix(file, Suffix(b))
    ensures a == b
  {
    var n := |file|;
    assert Suffix(a)[|Suffix(a)| - 1] == file[n - 1] == Suffix(b)[|Suffix(b)| - 1];
    assert Suffix(a)[|Suffix(a)| - 2] == file[n - 2] == Suffix(b)[|Suffix(b)| - 2];
  }

  lemma {:induction false} ChecksumInFinds(order: seq<Algorithm>, file: Str)
    ensures var (alg, target) := ChecksumIn(order, file);
      && (alg.Some? ==> alg.value in order && file == target + Suffix(alg.value))
      && (alg.None? ==> target == [] && forall a <- order :: !HasSuffix(file, Suffix(a)))
  {
    if order != [] && !HasSuffix(file, Suffix(order[0])) { ChecksumInFinds(order[1..], file); }
  }

  /** Whatever order the suffixes are tried in, the answer is the same. */
  lemma OrderIsIrrelevant(order: seq<Algorithm>, file: Str)
    requires multiset(order) == multiset(ORDER)
    ensures ChecksumIn(order, file) == ChecksumTarget(file)
  {
    ChecksumInFinds(order, file);
    ChecksumInFinds(ORDER, file);
    forall a ensures a in order <==> a in ORDER {
      assert a in multiset(order) <==> a in order;
      assert a in multiset(ORDER) <==> a in ORDER;
    }
    var x, y := ChecksumIn(order, file), ChecksumIn(ORDER, file);
    if x.0.Some? && y.0.Some? {
      OneSuffix(x.0.value, y.0.value, file);
      assert x.1 == file[..|file| - |Suffix(x.0.value)|] == y.1;
    }
  }

  // ---- Parsing ----

  function Upper(s: Str): Str
  {
    seq(|s|, i requires 0 <= i < |s| => if 'a' <= s[i] <= 'z' then (s[i] as int - 32) as char else s[i])
  }

  predicate IsSnapshot(version: Str)
  {
    HasSuffix(Upper(version), "-SNAPSHOT")
  }

  predicate SegmentByte(c: Byte)
  {
    'A' <= c <= 'Z' || 'a' <= c <= 'z' || '0' <= c <= '9' || c == '.' || c == '_' || c == '-'
  }

  predicate ValidSegment(s: Str)
  {
    s != [] && s[0] != '.' && forall i | 0 <= i < |s| :: SegmentByte(s[i])
  }

  function UnescapeAll(raw: seq<Str>): Option<seq<Str>>
  {
    if raw == [] then Some([])
    else match Unescape(raw[0], false)
      case None => None
      case Some(seg) => match UnescapeAll(raw[1..])
        case None => None
        case Some(rest) => Some([seg] + rest)
  }

  /** The namespace and the decoded segments below the repository root. */
  function Decode(path: Str): Option<(Str, seq<Str>)>
  {
    if path == [] || path[0] != '/' then None
    else
      var raw := Split(path[1..]);
      if |raw| < 3 then None
      else
        var ns, root, segs := Unescape(raw[0], false), Unescape(raw[1], false), UnescapeAll(raw[2..]);
        if ns.None? || !ValidNamespace(ns.value) then None
        else if root != Some("maven2") then None
        else if segs.None? || exists s <- segs.value :: !ValidSegment(s) then None
        else Some((ns.value, segs.value))
  }

  function DotJoin(parts: seq<Str>): Str
  {
    if parts == [] then [] else if |parts| == 1 then parts[0] else parts[0] + "." + DotJoin(parts[1..])
  }

  function Coordinate(ns: Str, kind: Kind, group: seq<Str>, artifact: Str, version: Str, file: Str,
                      checksum: Option<Algorithm>, target: Str): Option<Request>
  {
    if group == [] then None
    else Some(Request(ns, kind, group, DotJoin(group), artifact, Join(group + [artifact]), version, file, checksum,
      target))
  }

  /** A file under the segments of its directory. */
  function ParseFile(ns: Str, dir: seq<Str>, file: Str): Option<Request>
    requires |dir| >= 2
  {
    var d := |dir|;
    var (checksum, target) := ChecksumTarget(file);
    var metadata := target == METADATA_FILE || file == METADATA_FILE;
    if metadata && d >= 3 && IsSnapshot(dir[d - 1]) then
      Coordinate(ns, VersionMetadata, dir[..d - 2], dir[d - 2], dir[d - 1], file, checksum, target)
    else if metadata then
      Coordinate(ns, ArtifactMetadata, dir[..d - 1], dir[d - 1], [], file, checksum, target)
    else if d < 3 then None
    else Coordinate(ns, Artifact, dir[..d - 2], dir[d - 2], dir[d - 1], file, checksum, target)
  }

  function ParseSegments(ns: Str, segs: seq<Str>): Option<Request>
  {
    if segs == [ARCHETYPE_FILE] then Some(Request(ns, ArchetypeCatalog, [], [], [], [], [], ARCHETYPE_FILE, None, []))
    else if |segs| < 3 then None
    else ParseFile(ns, segs[..|segs| - 1], segs[|segs| - 1])
  }

  function ParsePath(path: Str): Option<Request>
  {
    match Decode(path)
    case None => None
    case Some((ns, segs)) => ParseSegments(ns, segs)
  }

  // ---- What the proxy asks the upstream for ----

  function CoordinateSegments(r: Request): seq<Str>
  {
    r.group + [r.artifact] + (if r.version != [] then [r.version] else []) + [r.file]
  }

  function CoordinatePath(r: Request): Str
  {
    Join(CoordinateSegments(r))
  }

  /** The parsed request holds every segment in its place. */
  predicate Rebuilds(segs: seq<Str>, r: Request)
  {
    if r.kind == ArchetypeCatalog then segs == [r.file] && r.file == ARCHETYPE_FILE
    else
      && CoordinateSegments(r) == segs && r.group != [] && (r.kind == ArtifactMetadata <==> r.version == [])
      && r.groupId == DotJoin(r.group) && r.package == Join(r.group + [r.artifact])
  }

  lemma Rebuilt(ns: Str, kind: Kind, group: seq<Str>, artifact: Str, version: Str, file: Str,
                checksum: Option<Algorithm>, target: Str, segs: seq<Str>)
    requires kind != ArchetypeCatalog && (kind == ArtifactMetadata <==> version == [])
    requires segs == group + [artifact] + (if version != [] then [version] else []) + [file]
    ensures var c := Coordinate(ns, kind, group, artifact, version, file, checksum, target);
      c.Some? ==> c.value.ns == ns && Rebuilds(segs, c.value)
  {
  }

  lemma ParsedFile(ns: Str, dir: seq<Str>, file: Str)
    requires |dir| >= 2 && forall s <- dir :: ValidSegment(s)
    ensures var r := ParseFile(ns, dir, file); r.Some? ==> r.value.ns == ns && Rebuilds(dir + [file], r.value)
  {
    var d := |dir|;
    var (checksum, target) := ChecksumTarget(file);
    assert ValidSegment(dir[d - 1]);
    assert dir == dir[..d - 1] + [dir[d - 1]];
    Rebuilt(ns, ArtifactMetadata, dir[..d - 1], dir[d - 1], [], file, checksum, target, dir + [file]);
    if d >= 3 {
      assert dir == dir[..d - 2] + [dir[d - 2]] + [dir[d - 1]];
      Rebuilt(ns, Artifact, dir[..d - 2], dir[d - 2], dir[d - 1], file, checksum, target, dir + [file]);
      Rebuilt(ns, VersionMetadata, dir[..d - 2], dir[d - 2], dir[d - 1], file, checksum, target, dir + [file]);
    }
  }

  lemma ParsedSegments(ns: Str, segs: seq<Str>, r: Request)
    requires (forall s <- segs :: ValidSegment(s)) && ParseSegments(ns, segs) == Some(r)
    ensures r.ns == ns && Rebuilds(segs, r)
  {
    if segs != [ARCHETYPE_FILE] {
      var n := |segs|;
      ParsedFile(ns, segs[..n - 1], segs[n - 1]);
      assert segs == segs[..n - 1] + [segs[n - 1]];
    }
  }

  lemma DecodedAreValid(path: Str)
    ensures Decode(path).Some? ==>
      ValidNamespace(Decode(path).value.0) && forall s <- Decode(path).value.1 :: ValidSegment(s)
  {
  }

  /** Every accepted path but the catalog's is asked for upstream under exactly its decoded segments. */
  lemma CoordinateIsThePath(path: Str, r: Request)
    requires ParsePath(path) == Some(r) && r.kind != ArchetypeCatalog
    ensures CoordinatePath(r) == Join(Decode(path).value.1)
  {
    DecodedAreValid(path);
    ParsedSegments(Decode(path).value.0, Decode(path).value.1, r);
  }

  // ---- Where a path stores ----

  function LevelOf(r: Request): Level
  {
    match r.kind
    case ArchetypeCatalog => Format
    case ArtifactMetadata => Pkg(r.package)
    case _ => Ver(r.package, r.version)
  }

  function Stores(r: Request, name: Str): ObjectId
  {
    Stored(r.ns, "maven", File(LevelOf(r), name))
  }

  /** The segments can be read back from where the path stores. */
  function SegmentsAt(l: Level, file: Str): seq<Str>
  {
    match l
    case Format => [file]
    case Pkg(p) => Split(p) + [file]
    case Ver(p, v) => Split(p) + [v] + [file]
  }

  lemma ValidSegmentsHaveNoSlash(segs: seq<Str>)
    requires forall s <- segs :: ValidSegment(s)
    ensures AllNoSlash(segs)
  {
    forall i | 0 <= i < |segs| ensures NoSlash(segs[i]) {
      assert segs[i] in segs;
      assert !SegmentByte('/');
    }
  }

  lemma PackageName(dir: seq<Str>)
    requires dir != [] && forall s <- dir :: ValidSegment(s)
    ensures ValidName(Join(dir)) && Split(Join(dir)) == dir
  {
    ValidSegmentsHaveNoSlash(dir);
    SplitJoin(dir);
    assert ValidSegment(dir[0]);
  }

  lemma StoresItsSegments(ns: Str, segs: seq<Str>, r: Request)
    requires Plain(ns) && (forall s <- segs :: ValidSegment(s)) && ParseSegments(ns, segs) == Some(r)
    ensures ValidId(Stores(r, r.file)) && SegmentsAt(LevelOf(r), r.file) == segs
  {
    ParsedSegments(ns, segs, r);
    assert ValidSegment(segs[|segs| - 1]);
    if r.kind != ArchetypeCatalog {
      LevelHoldsSegments(segs, r);
    }
  }

  lemma LevelHoldsSegments(segs: seq<Str>, r: Request)
    requires r.kind != ArchetypeCatalog && Rebuilds(segs, r) && forall s <- segs :: ValidSegment(s)
    ensures ValidLevel(LevelOf(r)) && SegmentsAt(LevelOf(r), r.file) == segs
  {
    var dir := r.group + [r.artifact];
    forall s <- dir ensures ValidSegment(s) { assert s in segs; }
    PackageName(dir);
    if r.version != [] { assert r.version in segs; }
  }

  lemma DecodedStore(path: Str, r: Request)
    requires ParsePath(path) == Some(r)
    ensures ValidId(Stores(r, r.file)) && Decode(path) == Some((r.ns, SegmentsAt(LevelOf(r), r.file)))
  {
    var (ns, segs) := Decode(path).value;
    DecodedAreValid(path);
    NamesArePlain(ns, []);
    ParsedSegments(ns, segs, r);
    StoresItsSegments(ns, segs, r);
  }

  /** Two accepted paths store under the same key exactly when they decode to the same namespace and segments. */
  lemma PathsAreFiles(prefix: Str, p: Str, q: Str, r: Request, t: Request)
    requires ValidPrefix(prefix) && ParsePath(p) == Some(r) && ParsePath(q) == Some(t)
    ensures KeyOf(prefix, Stores(r, r.file)) == KeyOf(prefix, Stores(t, t.file)) <==> Decode(p) == Decode(q)
  {
    DecodedStore(p, r);
    DecodedStore(q, t);
    KeysAreDistinct(prefix, Stores(r, r.file), Stores(t, t.file));
  }

  // ---- Where a checksum's target is ----

  lemma SuffixEnds(a: Algorithm)
    ensures Suffix(a) != [] && Suffix(a)[|Suffix(a)| - 1] != 'l'
  {
  }

  lemma NotAChecksum()
    ensures ChecksumTarget(METADATA_FILE) == (None, [])
  {
    ChecksumInFinds(ORDER, METADATA_FILE);
    var (alg, target) := ChecksumTarget(METADATA_FILE);
    if alg.Some? {
      SuffixEnds(alg.value);
    }
  }

  /** A file that is an artifact's or version's metadata or a checksum of it. */
  predicate MetadataFile(file: Str)
  {
    file == METADATA_FILE || ChecksumTarget(file).1 == METADATA_FILE
  }

  /** Whether a file is metadata, or a checksum of it, decides the level a directory stores it at. */
  lemma SameKindSameLevel(ns: Str, dir: seq<Str>, file: Str, r: Request, other: Str)
    requires |dir| >= 2 && ParseFile(ns, dir, file) == Some(r) && (MetadataFile(other) <==> r.kind != Artifact)
    ensures var t := ParseFile(ns, dir, other);
      t.Some? && t.value.ns == r.ns && t.value.file == other && LevelOf(t.value) == LevelOf(r)
  {
  }

  /** A checksum is verified against the file its target's own path stores, but for the checksum of a checksum
      of an artifact's metadata, which looks among the files of a version that is none. */
  lemma TargetsAreSiblings(ns: Str, dir: seq<Str>, file: Str, r: Request)
    requires |dir| >= 2 && ParseFile(ns, dir, file) == Some(r) && r.checksum.Some?
    ensures var t := ParseFile(ns, dir, r.target);
      t.Some? && t.value.file == r.target && (Stores(t.value, r.target) == Stores(r, r.target) <==> !Stray(r))
  {
    ParsedTarget(ns, dir, file, r);
    if r.kind == Artifact && MetadataFile(r.target) {
    } else {
      SameKindSameLevel(ns, dir, file, r, r.target);
    }
  }

  lemma ParsedTarget(ns: Str, dir: seq<Str>, file: Str, r: Request)
    requires |dir| >= 2 && ParseFile(ns, dir, file) == Some(r) && r.checksum.Some?
    ensures r.target == ChecksumTarget(file).1
    ensures if r.kind == Artifact then r.target != METADATA_FILE else r.target == METADATA_FILE
  {
    NotAChecksum();
  }

  /** The exception: a checksum of a checksum of an artifact's metadata. */
  predicate Stray(r: Request)
  {
    r.kind == Artifact && r.checksum.Some? && ChecksumTarget(r.target).1 == METADATA_FILE && !IsSnapshot(r.version)
  }

  lemma NoPathStoresStrayTargets(p: Str, q: Str, r: Request, t: Request)
    requires ParsePath(p) == Some(r) && Stray(r) && ParsePath(q) == Some(t)
    ensures Stores(t, t.file) != Stores(r, r.target)
  {
  }

  lemma Suffixed(file: Str, alg: Algorithm)
    ensures ChecksumTarget(file + Suffix(alg)) == (Some(alg), file)
  {
    ChecksumInFinds(ORDER, file + Suffix(alg));
    var (found, target) := ChecksumTarget(file + Suffix(alg));
    assert alg in ORDER;
    OneSuffix(found.value, alg, file + Suffix(alg));
    assert (target + Suffix(alg))[..|target|] == target && (file + Suffix(alg))[..|file|] == file;
  }

  /** Such paths exist under every artifact. */
  lemma StrayPaths(ns: Str, group: Str, artifact: Str, version: Str)
    requires !IsSnapshot(version)
    ensures var r := ParseSegments(ns, [group, artifact, version, METADATA_FILE + Suffix(SHA1) + Suffix(MD5)]);
      r.Some? && Stray(r.value) && r.value.version == version
  {
    var inner := METADATA_FILE + Suffix(SHA1);
    var segs := [group, artifact, version, inner + Suffix(MD5)];
    Suffixed(METADATA_FILE, SHA1);
    Suffixed(inner, MD5);
    assert |inner| != |METADATA_FILE| && |inner + Suffix(MD5)| != |METADATA_FILE|;
    assert segs[..3] == [group, artifact, version];
  }

  // ---- Which paths are accepted, and as what ----

  /** A snapshot version ends in "-snapshot", in whatever case. */
  lemma SnapshotsExactly(version: Str)
    ensures IsSnapshot(version) <==> |version| >= 9 && Lower(version[|version| - 9..]) == "-snapshot"
  {
    var mark: Str := "-SNAPSHOT";
    var up, low := Upper(version), Lower(version);
    if |version| >= 9 {
      var n := |version| - 9;
      forall i: nat | i < 9 ensures up[n + i] == mark[i] <==> Lower(version[n..])[i] == "-snapshot"[i] {
        assert Lower(version[n..])[i] == ToLower(version[n + i]);
      }
    }
  }

  /** Metadata, or one of its four checksums. */
  predicate NamesMetadata(file: Str)
  {
    file in ["maven-metadata.xml", "maven-metadata.xml.md5", "maven-metadata.xml.sha1", "maven-metadata.xml.sha256",
             "maven-metadata.xml.sha512"]
  }

  lemma MetadataIsSuffixed(file: Str)
    ensures MetadataFile(file) <==> file == METADATA_FILE || exists a :: file == METADATA_FILE + Suffix(a)
  {
    ChecksumInFinds(ORDER, file);
    if a :| file == METADATA_FILE + Suffix(a) {
      Suffixed(METADATA_FILE, a);
    }
  }

  lemma MetadataNames(file: Str)
    ensures MetadataFile(file) <==> NamesMetadata(file)
  {
    MetadataIsSuffixed(file);
    assert METADATA_FILE + Suffix(MD5) == "maven-metadata.xml.md5";
    assert METADATA_FILE + Suffix(SHA1) == "maven-metadata.xml.sha1";
    assert METADATA_FILE + Suffix(SHA256) == "maven-metadata.xml.sha256";
    assert METADATA_FILE + Suffix(SHA512) == "maven-metadata.xml.sha512";
    if a :| file == METADATA_FILE + Suffix(a) {
      match a
      case MD5 => case SHA1 => case SHA256 => case SHA512 =>
    }
  }

  /** What the segments below the root name; None is nothing. */
  function KindOf(segs: seq<Str>): Option<Kind>
  {
    var n := |segs|;
    if segs == ["archetype-catalog.xml"] then Some(ArchetypeCatalog)
    else if n < 3 then None
    else if NamesMetadata(segs[n - 1]) then
      Some(if n >= 4 && IsSnapshot(segs[n - 2]) then VersionMetadata else ArtifactMetadata)
    else if n < 4 then None
    else Some(Artifact)
  }

  /** Segments are accepted exactly as what they name: group, artifact, version and file, or metadata of an artifact
      or of a snapshot version, or the catalog. */
  lemma AcceptedExactly(ns: Str, segs: seq<Str>)
    ensures var r := ParseSegments(ns, segs);
      if r.Some? then KindOf(segs) == Some(r.value.kind) else KindOf(segs).None?
  {
    if |segs| >= 3 { MetadataNames(segs[|segs| - 1]); }
  }

  /** A valid segment: letters, digits, '.', '_' and '-', by their ASCII codes, and no '.' first. */
  lemma SegmentsExactly(s: Str)
    ensures ValidSegment(s) <==>
      && s != [] && s[0] as int != 0x2E
      && forall i | 0 <= i < |s| :: var n := s[i] as int;
           0x41 <= n <= 0x5A || 0x61 <= n <= 0x7A || 0x30 <= n <= 0x39 || n in {0x2D, 0x2E, 0x5F}
  {
    assert forall i | 0 <= i < |s| :: var n := s[i] as int;
      SegmentByte(s[i]) <==> 0x41 <= n <= 0x5A || 0x61 <= n <= 0x7A || 0x30 <= n <= 0x39 || n in {0x2D, 0x2E, 0x5F};
  }

  lemma {:induction false} UnescapedEach(raw: seq<Str>, segs: seq<Str>)
    ensures UnescapeAll(raw) == Some(segs) <==>
      |raw| == |segs| && forall i | 0 <= i < |raw| :: Unescape(raw[i], false) == Some(segs[i])
  {
    if raw != [] {
      if segs != [] {
        UnescapedEach(raw[1..], segs[1..]);
        assert [segs[0]] + segs[1..] == segs;
      }
    }
  }

  /** A path decodes to a namespace and segments if and only if it is absolute and its parts, each unescaped, are a
      valid namespace, "maven2" and those segments, at least one and all valid. */
  lemma DecodesExactly(path: Str, ns: Str, segs: seq<Str>)
    ensures Decode(path) == Some((ns, segs)) <==>
      && path != [] && path[0] == '/'
      && var raw := Split(path[1..]);
         && |raw| == |segs| + 2 && segs != []
         && Unescape(raw[0], false) == Some(ns) && ValidNamespace(ns)
         && Unescape(raw[1], false) == Some("maven2")
         && (forall i | 0 <= i < |segs| :: Unescape(raw[i + 2], false) == Some(segs[i]))
         && forall s <- segs :: ValidSegment(s)
  {
    if path != [] && path[0] == '/' {
      var raw := Split(path[1..]);
      if |raw| >= 2 { UnescapedEach(raw[2..], segs); }
    }
  }

  lemma {:induction false} PlainText(s: Str)
    requires '%' !in s
    ensures Unescape(s, false) == Some(s)
  {
    if s != [] {
      PlainText(s[1..]);
      assert [s[0]] + s[1..] == s;
    }
  }

  lemma {:induction false} PlainTexts(segs: seq<Str>)
    requires forall s <- segs :: '%' !in s
    ensures UnescapeAll(segs) == Some(segs)
  {
    if segs != [] {
      PlainText(segs[0]);
      PlainTexts(segs[1..]);
      assert [segs[0]] + segs[1..] == segs;
    }
  }

  lemma WrittenSegments(ns: Str, segs: seq<Str>)
    requires ValidNamespace(ns) && segs != [] && forall s <- segs :: ValidSegment(s)
    ensures Split(("/" + Join([ns, "maven2"] + segs))[1..]) == [ns, "maven2"] + segs
    ensures '%' !in ns && forall s <- segs :: '%' !in s
  {
    var raw := [ns, "maven2"] + segs;
    ValidSegmentsHaveNoSlash(segs);
    NamesArePlain(ns, []);
    forall i | 0 <= i < |raw| ensures NoSlash(raw[i]) {
      if i >= 2 { assert raw[i] == segs[i - 2]; }
    }
    SplitJoin(raw);
    assert ("/" + Join(raw))[1..] == Join(raw);
    assert !SegmentByte('%');
  }

  /** Written out, a namespace and valid segments decode to themselves and are parsed as such. */
  lemma PathsDecode(ns: Str, segs: seq<Str>)
    requires ValidNamespace(ns) && segs != [] && forall s <- segs :: ValidSegment(s)
    ensures var path := "/" + Join([ns, "maven2"] + segs);
      Decode(path) == Some((ns, segs)) && ParsePath(path) == ParseSegments(ns, segs)
  {
    WrittenSegments(ns, segs);
    assert ([ns, "maven2"] + segs)[2..] == segs;
    PlainText(ns);
    PlainText("maven2");
    PlainTexts(segs);
  }

  // ---- The keys under which a 404 is remembered ----

  function FileNegKey(r: Request): Str
  {
    "maven:file:" + r.groupId + ":" + r.artifact + ":" + r.version + ":" + r.file
  }

  predicate NoColon(s: Str)
  {
    ':' !in s
  }

  lemma {:induction false} DotJoinHasNoColon(parts: seq<Str>)
    requires forall s <- parts :: ValidSegment(s)
    ensures NoColon(DotJoin(parts))
  {
    if |parts| == 1 {
      SegmentHasNoColon(parts[0]);
    } else if parts != [] {
      SegmentHasNoColon(parts[0]);
      DotJoinHasNoColon(parts[1..]);
    }
  }

  lemma SegmentHasNoColon(s: Str)
    requires ValidSegment(s)
    ensures NoColon(s)
  {
    assert !SegmentByte(':');
  }

  /** Two files share a remembered 404 exactly when they agree on the dotted group, artifact, version and file. */
  lemma SharedNegKeys(p: Str, q: Str, r: Request, t: Request)
    requires ParsePath(p) == Some(r) && r.kind != ArchetypeCatalog && ParsePath(q) == Some(t) &&
      t.kind != ArchetypeCatalog
    ensures FileNegKey(r) == FileNegKey(t) <==>
      r.groupId == t.groupId && r.artifact == t.artifact && r.version == t.version && r.file == t.file
  {
    PartsHaveNoColon(p, r);
    PartsHaveNoColon(q, t);
    if FileNegKey(r) == FileNegKey(t) {
      SameParts(r, t);
    }
  }

  lemma PartsHaveNoColon(p: Str, r: Request)
    requires ParsePath(p) == Some(r) && r.kind != ArchetypeCatalog
    ensures NoColon(r.groupId) && NoColon(r.artifact) && NoColon(r.version)
  {
    var segs := Decode(p).value.1;
    DecodedAreValid(p);
    ParsedSegments(Decode(p).value.0, segs, r);
    forall s <- r.group ensures ValidSegment(s) { assert s in segs; }
    DotJoinHasNoColon(r.group);
    assert r.artifact in segs;
    SegmentHasNoColon(r.artifact);
    if r.version != [] {
      assert r.version in segs;
      SegmentHasNoColon(r.version);
    }
  }

  lemma SameParts(r: Request, t: Request)
    requires NoColon(r.groupId) && NoColon(r.artifact) && NoColon(r.version)
    requires NoColon(t.groupId) && NoColon(t.artifact) && NoColon(t.version)
    requires FileNegKey(r) == FileNegKey(t)
    ensures r.groupId == t.groupId && r.artifact == t.artifact && r.version == t.version && r.file == t.file
  {
    var h := "maven:file:";
    var x2, y2 := r.version + ":" + r.file, t.version + ":" + t.file;
    var x1, y1 := r.artifact + ":" + x2, t.artifact + ":" + y2;
    var x0, y0 := r.groupId + ":" + x1, t.groupId + ":" + y1;
    assert FileNegKey(r) == h + x0 && FileNegKey(t) == h + y0;
    assert x0 == (h + x0)[|h|..] == (h + y0)[|h|..] == y0;
    CutAt(':', r.groupId, x1, t.groupId, y1);
    CutAt(':', r.artifact, x2, t.artifact, y2);
    CutAt(':', r.version, r.file, t.version, t.file);
  }

  predicate NoDot(s: Str)
  {
    '.' !in s
  }

  lemma {:induction false} DotsInJoin(g: seq<Str>)
    requires g != [] && forall s <- g :: NoDot(s)
    ensures '.' in DotJoin(g) <==> |g| > 1
  {
    assert NoDot(g[0]);
    if |g| > 1 { assert DotJoin(g)[|g[0]|] == '.'; }
  }

  /** Groups whose segments hold no dot are told apart by their dotted form. */
  lemma {:induction false} DotlessGroups(g: seq<Str>, h: seq<Str>)
    requires g != [] && h != [] && (forall s <- g :: NoDot(s)) && (forall s <- h :: NoDot(s))
    ensures DotJoin(g) == DotJoin(h) <==> g == h
  {
    if DotJoin(g) == DotJoin(h) {
      DotsInJoin(g);
      DotsInJoin(h);
      if |g| > 1 {
        assert NoDot(g[0]) && NoDot(h[0]);
        CutAt('.', g[0], DotJoin(g[1..]), h[0], DotJoin(h[1..]));
        DotlessGroups(g[1..], h[1..]);
      }
    }
  }

  /** Parsing a plain file under a group, an artifact and a version. */
  lemma ParsePlain(ns: Str, group: seq<Str>, artifact: Str, version: Str, file: Str)
    requires group != [] && file != METADATA_FILE && ChecksumTarget(file).0.None?
    ensures ParseSegments(ns, group + [artifact, version, file]) ==
            Coordinate(ns, Artifact, group, artifact, version, file, None, [])
  {
    var segs, dir := group + [artifact, version, file], group + [artifact, version];
    ChecksumInFinds(ORDER, file);
    assert segs[..|segs| - 1] == dir && segs[|segs| - 1] == file;
    assert dir[..|dir| - 2] == group && dir[|dir| - 2] == artifact && dir[|dir| - 1] == version;
  }

  /** With dots in segments they are not: for any artifact, version and plain file, a 404 for one of these two
      paths answers for the other, which is another package's. */
  lemma DottedGroupsCollide(ns: Str, artifact: Str, version: Str, file: Str)
    requires file != METADATA_FILE && ChecksumTarget(file).0.None?
    ensures var r, t := ParseSegments(ns, ["a.b", artifact, version, file]),
      ParseSegments(ns, ["a", "b", artifact, version, file]);
      && r.Some? && t.Some? && FileNegKey(r.value) == FileNegKey(t.value)
      && r.value.package != t.value.package && Stores(r.value, file) != Stores(t.value, file)
  {
    ParsePlain(ns, ["a.b"], artifact, version, file);
    ParsePlain(ns, ["a", "b"], artifact, version, file);
    assert ["a.b"] + [artifact, version, file] == ["a.b", artifact, version, file];
    assert ["a", "b"] + [artifact, version, file] == ["a", "b", artifact, version, file];
    SameDottedForm(ns, artifact, version, file);
  }

  lemma SameDottedForm(ns: Str, artifact: Str, version: Str, file: Str)
    ensures var r, t := Coordinate(ns, Artifact, ["a.b"], artifact, version, file, None, []),
                        Coordinate(ns, Artifact, ["a", "b"], artifact, version, file, None, []);
      r.Some? && t.Some? && FileNegKey(r.value) == FileNegKey(t.value) && r.value.package != t.value.package
  {
    assert ["a", "b"][1..] == ["b"];
    assert DotJoin(["a", "b"]) == "a" + "." + "b";
    assert ["a.b"][..] + [artifact] == ["a.b", artifact] && ["a", "b"] + [artifact] == ["a", "b", artifact];
    assert Join(["a.b", artifact])[1] == '.' && Join(["a", "b", artifact])[1] == '/';
  }
}
