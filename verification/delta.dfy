/**
 * `delta_inner` and `pmp_delta`: builds an update file (`.delta.hsp`) for a
 * Penumbra mod pack (`.pmp`, a zip archive) against a version the server
 * already holds. Every file the pack's options refer to is hashed (BLAKE3,
 * printed as unpadded base64url, a foreign function here); only the files
 * whose hashes the server lacks are copied into the update, under
 * `files/<hash>`, and every reference in the option files is rewritten to
 * that standard name.
 *
 * JSON (de)serialisation is foreign too: a parsed option file is given by a
 * caller-supplied parser, and a written one is recorded as the value that
 * was serialised.
 */
module Delta {
  import opened Common
  import opened Paths

  /** The `delta-progress` events, in the order they are emitted. */
  datatype Progress =
    | SettingUp
    | HashingFiles(current: nat, total: nat)
    | CalculatingDifference
    | CreatingUpdateFile(current: nat, total: nat)
    | Done

  /** `PenumbraStandardOptionSimple`: the part of an option the delta rewrites, game path to file in the pack. */
  datatype SimpleOption = SimpleOption(files: map<string, string>)

  /** `PenumbraStandardOption`. */
  datatype StandardOption = StandardOption(name: string, simple: SimpleOption)

  /** `GroupKind`: single- and multi-choice groups hold file options, IMC groups hold none. */
  datatype GroupKind =
    | Single(options: seq<StandardOption>)
    | Multi(options: seq<StandardOption>)
    | Imc(imcOptionNames: seq<string>)

  /** `PenumbraGroup`. */
  datatype PenumbraGroup = PenumbraGroup(name: string, kind: GroupKind)

  /** One file of a zip archive: its name and its bytes. */
  datatype ZipFile = ZipFile(name: string, bytes: seq<byte>)

  /** What the update's zip entries hold: copied bytes, or the value serialised into them. */
  datatype Body =
    | Copied(bytes: seq<byte>)
    | DeltaManifest(updates: string)
    | DefaultJson(option: SimpleOption)
    | GroupJson(group: PenumbraGroup)

  datatype OutEntry = OutEntry(name: string, body: Body)

  /** The update file written: its path and its entries in order. */
  datatype Written = Written(path: string, entries: seq<OutEntry>)

  /** What the caller supplies: the version being updated and the hashes the server holds for it. */
  datatype DeltaInfo = DeltaInfo(versionId: string, remoteHashes: set<string>)

  /** The foreign functions: the file hash and the two JSON parsers. */
  datatype Foreign = Foreign(
    blake: seq<byte> -> string,
    parseDefault: seq<byte> -> Option<SimpleOption>,
    parseGroup: seq<byte> -> Option<PenumbraGroup>)

  // ---------------------------------------------------------------------
  // Dispatch on the extension

  /** Which way `delta_inner` goes for a path. */
  datatype Route = PmpRoute | Refused(message: string)

  function RouteOf(path: string): (r: Route)
    ensures r == PmpRoute <==> Extension(path) == Some("pmp")
    ensures r == Refused("textools not supported") <==> Extension(path) in {Some("ttmp"), Some("ttmp2")}
    ensures r == Refused("could not determine file type from extension")
      <==> Extension(path) !in {Some("pmp"), Some("ttmp"), Some("ttmp2")}
  {
    match Extension(path)
    case Some(e) =>
      if e == "pmp" then PmpRoute
      else if e == "ttmp" || e == "ttmp2" then Refused("textools not supported")
      else Refused("could not determine file type from extension")
    case None => Refused("could not determine file type from extension")
  }

  // ---------------------------------------------------------------------
  // The byte-order mark

  const Bom: seq<byte> := [0xEF, 0xBB, 0xBF]

  /** `skip_bom`: the stream without a leading UTF-8 byte-order mark. */
  function SkipBom(s: seq<byte>): (r: seq<byte>)
  {
    if |s| >= 3 && s[..3] == Bom then s[3..] else s
  }

  /** The mark is dropped exactly when the stream starts with it, and nothing else ever is. */
  lemma SkipBomDrops(s: seq<byte>)
    ensures SkipBom(s) != s <==> |s| >= 3 && s[..3] == Bom
    ensures SkipBom(s) != s ==> s == Bom + SkipBom(s)
  {
    if |s| >= 3 && s[..3] == Bom {
      assert |SkipBom(s)| < |s|;
      assert s == s[..3] + s[3..];
    }
  }

  /** A mark put in front of a text is taken off again, and only that mark. */
  lemma SkipBomAfterBom(s: seq<byte>)
    ensures SkipBom(Bom + s) == s
  {
    assert (Bom + s)[..3] == Bom;
    assert (Bom + s)[3..] == s;
  }

  // ---------------------------------------------------------------------
  // The zip archive

  function Names(zip: seq<ZipFile>): (r: seq<string>)
    ensures |r| == |zip| && forall i :: 0 <= i < |zip| ==> r[i] == zip[i].name
  {
    seq(|zip|, i requires 0 <= i < |zip| => zip[i].name)
  }

  /** `by_name`: the first file of that name. */
  function ByName(zip: seq<ZipFile>, name: string): (r: Option<seq<byte>>)
    ensures r.Some? <==> name in Names(zip)
  {
    if zip == [] then None
    else if zip[0].name == name then Some(zip[0].bytes)
    else
      assert Names(zip) == [zip[0].name] + Names(zip[1..]);
      ByName(zip[1..], name)
  }

  // ---------------------------------------------------------------------
  // Selecting the group files

  predicate IsGroupFile(name: string) {
    StartsWith(name, "group_") && EndsWith(name, ".json")
  }

  function FilterGroupFiles(names: seq<string>): (r: seq<string>)
    ensures forall x :: x in r <==> x in names && IsGroupFile(x)
    ensures multiset(r) <= multiset(names)
    ensures forall x :: multiset(r)[x] == if IsGroupFile(x) then multiset(names)[x] else 0
  {
    if names == [] then []
    else
      var rest := FilterGroupFiles(names[1..]);
      assert names == [names[0]] + names[1..];
      if IsGroupFile(names[0]) then [names[0]] + rest else rest
  }

  /** Ascending order, as Rust's `Ord` for strings. */
  predicate Sorted(s: seq<string>) {
    forall i, j :: 0 <= i < j < |s| ==> !LexLess(s[j], s[i])
  }

  lemma LexNotLessTransitive(a: string, b: string, c: string)
    requires !LexLess(b, a) && !LexLess(c, b)
    ensures !LexLess(c, a)
  {
    LexLessTotal(a, b);
    LexLessTotal(b, c);
    if LexLess(c, a) {
      if a != b && b != c {
        LexLessTransitive(a, b, c);
        LexLessTransitive(a, c, a);
        LexLessIrreflexive(a);
      } else if a == b {
        LexLessIrreflexive(a);
        LexLessTransitive(b, c, b);
        LexLessIrreflexive(b);
      } else {
        LexLessTransitive(a, b, a);
        LexLessIrreflexive(a);
      }
    }
  }

  lemma LexLessAsymmetric(a: string, b: string)
    requires LexLess(a, b)
    ensures !LexLess(b, a)
  {
    if LexLess(b, a) {
      LexLessTransitive(a, b, a);
      LexLessIrreflexive(a);
    }
  }

  /** Inserting into an ordered list keeps it ordered and adds exactly the one element. */
  function Insert(x: string, s: seq<string>): (r: seq<string>)
    requires Sorted(s)
    ensures Sorted(r) && multiset(r) == multiset(s) + multiset{x}
    decreases |s|
  {
    if s == [] then [x]
    else if !LexLess(s[0], x) then
      InsertFront(x, s);
      [x] + s
    else
      var rest := Insert(x, s[1..]);
      InsertAfterHead(x, s, rest);
      [s[0]] + rest
  }

  lemma InsertFront(x: string, s: seq<string>)
    requires Sorted(s) && s != [] && !LexLess(s[0], x)
    ensures Sorted([x] + s) && multiset([x] + s) == multiset(s) + multiset{x}
  {
    forall j | 0 < j < |s| ensures !LexLess(s[j], x) {
      LexLessTotal(s[0], x);
      LexNotLessTransitive(x, s[0], s[j]);
    }
    var r := [x] + s;
    forall i, j | 0 <= i < j < |r| ensures !LexLess(r[j], r[i]) {
      if i > 0 {
        assert r[i] == s[i - 1] && r[j] == s[j - 1];
      } else {
        assert r[j] == s[j - 1];
      }
    }
  }

  lemma InsertAfterHead(x: string, s: seq<string>, rest: seq<string>)
    requires Sorted(s) && s != [] && LexLess(s[0], x)
    requires Sorted(rest) && multiset(rest) == multiset(s[1..]) + multiset{x}
    ensures Sorted([s[0]] + rest) && multiset([s[0]] + rest) == multiset(s) + multiset{x}
  {
    LexLessAsymmetric(s[0], x);
    assert s == [s[0]] + s[1..];
    forall j | 0 <= j < |rest| ensures !LexLess(rest[j], s[0]) {
      assert rest[j] in multiset(rest);
      if rest[j] != x {
        assert rest[j] in multiset(s[1..]);
        var k :| 0 <= k < |s[1..]| && s[1..][k] == rest[j];
        assert s[k + 1] == rest[j];
      }
    }
    var r := [s[0]] + rest;
    forall i, j | 0 <= i < j < |r| ensures !LexLess(r[j], r[i]) {
      if i > 0 {
        assert r[i] == rest[i - 1] && r[j] == rest[j - 1];
      } else {
        assert r[j] == rest[j - 1];
      }
    }
  }

  /** `sorted_unstable`: the same names, in ascending order. */
  function Sort(s: seq<string>): (r: seq<string>)
    ensures Sorted(r) && multiset(r) == multiset(s)
  {
    if s == [] then []
    else
      assert s == [s[0]] + s[1..];
      Insert(s[0], Sort(s[1..]))
  }

  /**
   * The group files of a pack: exactly its names that start with `group_`
   * and end with `.json`, each as often as the pack lists it, ascending.
   */
  function GroupPaths(names: seq<string>): (r: seq<string>)
    ensures Sorted(r)
    ensures forall x :: x in r <==> x in names && IsGroupFile(x)
    ensures multiset(r) <= multiset(names)
    ensures forall x :: multiset(r)[x] == if IsGroupFile(x) then multiset(names)[x] else 0
  {
    var filtered := FilterGroupFiles(names);
    var r := Sort(filtered);
    assert forall x :: x in r <==> x in multiset(filtered);
    r
  }

  // ---------------------------------------------------------------------
  // The referenced paths

  /** `file.replace('\\', "/")`. */
  function Normalize(s: string): (r: string)
    ensures |r| == |s|
    ensures forall i :: 0 <= i < |s| ==> r[i] == (if s[i] == '\\' then '/' else s[i])
  {
    seq(|s|, i requires 0 <= i < |s| => if s[i] == '\\' then '/' else s[i])
  }

  /** The normalised paths a file map refers to. */
  function FilesPaths(files: map<string, string>): set<string>
  {
    set v | v in files.Values :: Normalize(v)
  }

  function OptionsPaths(options: seq<StandardOption>): set<string>
    decreases |options|
  {
    if options == [] then {}
    else OptionsPaths(options[..|options| - 1]) + FilesPaths(options[|options| - 1].simple.files)
  }

  function GroupPathsOf(g: PenumbraGroup): set<string>
  {
    match g.kind
    case Single(options) => OptionsPaths(options)
    case Multi(options) => OptionsPaths(options)
    case Imc(_) => {}
  }

  function GroupsPaths(groups: seq<PenumbraGroup>): set<string>
    decreases |groups|
  {
    if groups == [] then {}
    else GroupsPaths(groups[..|groups| - 1]) + GroupPathsOf(groups[|groups| - 1])
  }

  /** The file options of a group: those of a single- or multi-choice group, none for an IMC group. */
  function FileOptions(g: PenumbraGroup): seq<StandardOption>
  {
    if g.kind.Imc? then [] else g.kind.options
  }

  lemma {:induction false} OptionsPathsMember(options: seq<StandardOption>, p: string)
    ensures p in OptionsPaths(options) <==> exists o :: o in options && p in FilesPaths(o.simple.files)
    decreases |options|
  {
    if options != [] {
      var init := options[..|options| - 1];
      OptionsPathsMember(init, p);
      assert options == init + [options[|options| - 1]];
    }
  }

  /**
   * A path is hashed exactly when it is the normalised form of a file of
   * the default option or of an option of a single- or multi-choice group.
   */
  lemma {:induction false} GroupsPathsMember(groups: seq<PenumbraGroup>, p: string)
    ensures p in GroupsPaths(groups) <==>
      exists g, o :: g in groups && o in FileOptions(g) && p in FilesPaths(o.simple.files)
    decreases |groups|
  {
    if groups != [] {
      var init := groups[..|groups| - 1];
      var last := groups[|groups| - 1];
      GroupsPathsMember(init, p);
      OptionsPathsMember(FileOptions(last), p);
      assert groups == init + [last];
      if p in GroupPathsOf(last) {
        var o :| o in FileOptions(last) && p in FilesPaths(o.simple.files);
        assert last in groups;
      }
    }
  }

  /** The loops that fill `to_hash`: the default option's files, then each group's options in turn. */
  method CollectPaths(default: SimpleOption, groups: seq<PenumbraGroup>) returns (toHash: set<string>)
    ensures toHash == FilesPaths(default.files) + GroupsPaths(groups)
  {
    toHash := FilesPaths(default.files);
    for i := 0 to |groups|
      invariant toHash == FilesPaths(default.files) + GroupsPaths(groups[..i])
    {
      assert groups[..i + 1][..i] == groups[..i];
      match groups[i].kind {
        case Single(options) =>
          toHash := AddOptions(toHash, options);
        case Multi(options) =>
          toHash := AddOptions(toHash, options);
        case Imc(_) =>
      }
    }
    assert groups[..|groups|] == groups;
  }

  method AddOptions(toHash: set<string>, options: seq<StandardOption>) returns (r: set<string>)
    ensures r == toHash + OptionsPaths(options)
  {
    r := toHash;
    for j := 0 to |options|
      invariant r == toHash + OptionsPaths(options[..j])
    {
      assert options[..j + 1][..j] == options[..j];
      r := r + FilesPaths(options[j].simple.files);
    }
    assert options[..|options|] == options;
  }

  // ---------------------------------------------------------------------
  // Hashing

  /** What the hashing loop leaves: each hashed path's hash, and one path per hash. */
  datatype Hashed = Hashed(pathHashes: map<string, string>, hashToPath: map<string, string>)

  /** Each hashed path is a file of the archive and maps to the hash of its content. */
  ghost predicate PathsHashed(pathHashes: map<string, string>, paths: set<string>, zip: seq<ZipFile>, blake: seq<byte> -> string)
  {
    && pathHashes.Keys == paths
    && (forall p :: p in paths ==> ByName(zip, p).Some? && pathHashes[p] == blake(ByName(zip, p).value))
  }

  /** Each hash that occurs names one of the paths with that hash. */
  ghost predicate HashesNamed(hashToPath: map<string, string>, pathHashes: map<string, string>)
  {
    && hashToPath.Keys == pathHashes.Values
    && (forall x :: x in hashToPath ==> hashToPath[x] in pathHashes && pathHashes[hashToPath[x]] == x)
  }

  /** The two maps describe the same files: each path's hash is the hash of its content, and each hash names a path with that hash. */
  ghost predicate HashedFrom(h: Hashed, paths: set<string>, zip: seq<ZipFile>, blake: seq<byte> -> string)
  {
    PathsHashed(h.pathHashes, paths, zip, blake) && HashesNamed(h.hashToPath, h.pathHashes)
  }

  function HashProgress(n: nat): (r: seq<Progress>)
    ensures |r| == n
  {
    seq(n, i requires 0 <= i < n => HashingFiles(i, n))
  }

  /**
   * As written, the hashing events count from 0 and never reach the total:
   * the last one reports `total - 1`, and the first value is emitted twice.
   */
  lemma HashProgressStopsShort(n: nat)
    requires n > 0
    ensures ([HashingFiles(0, n)] + HashProgress(n))[n] == HashingFiles(n - 1, n)
    ensures ([HashingFiles(0, n)] + HashProgress(n))[1] == HashingFiles(0, n)
  {
  }

  /**
   * The hashing loop, over the paths in the set's (unspecified) order. It
   * fails when a referenced path is not a file of the archive, and only
   * then.
   */
  method HashPaths(toHash: set<string>, zip: seq<ZipFile>, blake: seq<byte> -> string)
    returns (r: Result<Hashed>, events: seq<Progress>)
    ensures r.Err? <==> exists p :: p in toHash && p !in Names(zip)
    ensures r.Err? ==> r.error.Io?
    ensures r.Ok? ==> HashedFrom(r.value, toHash, zip, blake) && events == HashProgress(|toHash|)
  {
    var hashed := Hashed(map[], map[]);
    events := [];
    var left := toHash;
    var i := 0;
    while left != {}
      invariant left <= toHash && i + |left| == |toHash|
      invariant HashedFrom(hashed, toHash - left, zip, blake)
      invariant events == HashProgress(|toHash|)[..i]
      decreases left
    {
      var path :| path in left;
      var content := ByName(zip, path);
      if content.None? {
        assert path in toHash && path !in Names(zip);
        return Err(Io("specified file not found in archive")), events;
      }
      var hash := blake(content.value);
      HashedStep(hashed, toHash - left, zip, blake, path);
      LeftStep(toHash, left, path);
      hashed := Hashed(hashed.pathHashes[path := hash], hashed.hashToPath[hash := path]);
      left := left - {path};
      ProgressStep(|toHash|, i);
      events := events + [HashingFiles(i, |toHash|)];
      i := i + 1;
    }
    assert toHash - left == toHash;
    HashedPresent(hashed, toHash, zip, blake);
    r := Ok(hashed);
  }

  lemma LeftStep(toHash: set<string>, left: set<string>, path: string)
    requires path in left && left <= toHash
    ensures toHash - (left - {path}) == (toHash - left) + {path}
    ensures |left - {path}| == |left| - 1
  {
  }

  /** Every hashed path is a file of the archive. */
  lemma HashedPresent(h: Hashed, paths: set<string>, zip: seq<ZipFile>, blake: seq<byte> -> string)
    requires HashedFrom(h, paths, zip, blake)
    ensures !exists p :: p in paths && p !in Names(zip)
  {
    forall p | p in paths
      ensures p in Names(zip)
    {
      assert ByName(zip, p).Some?;
    }
  }

  lemma ProgressStep(n: nat, i: nat)
    requires i < n
    ensures HashProgress(n)[..i + 1] == HashProgress(n)[..i] + [HashingFiles(i, n)]
  {
  }

  /** Hashing one more path keeps the two maps in step. */
  lemma HashedStep(h: Hashed, done: set<string>, zip: seq<ZipFile>, blake: seq<byte> -> string, path: string)
    requires HashedFrom(h, done, zip, blake) && path !in done && ByName(zip, path).Some?
    ensures var hash := blake(ByName(zip, path).value);
      HashedFrom(Hashed(h.pathHashes[path := hash], h.hashToPath[hash := path]), done + {path}, zip, blake)
  {
    var hash := blake(ByName(zip, path).value);
    PathsHashedStep(h.pathHashes, done, zip, blake, path);
    HashesNamedStep(h.hashToPath, h.pathHashes, path, hash);
  }

  lemma PathsHashedStep(pathHashes: map<string, string>, done: set<string>, zip: seq<ZipFile>, blake: seq<byte> -> string, path: string)
    requires PathsHashed(pathHashes, done, zip, blake) && ByName(zip, path).Some?
    ensures PathsHashed(pathHashes[path := blake(ByName(zip, path).value)], done + {path}, zip, blake)
  {
  }

  lemma HashesNamedStep(hashToPath: map<string, string>, pathHashes: map<string, string>, path: string, hash: string)
    requires HashesNamed(hashToPath, pathHashes) && path !in pathHashes
    ensures HashesNamed(hashToPath[hash := path], pathHashes[path := hash])
  {
    MapValuesUpdate(pathHashes, path, hash);
    var hp, ph := hashToPath[hash := path], pathHashes[path := hash];
    forall x | x in hp
      ensures hp[x] in ph && ph[hp[x]] == x
    {
      if x != hash {
        assert hp[x] == hashToPath[x] != path;
      }
    }
  }

  lemma MapValuesUpdate<K, V>(m: map<K, V>, k: K, v: V)
    requires k !in m
    ensures m[k := v].Values == m.Values + {v}
  {
    var n := m[k := v];
    forall x | x in n.Values
      ensures x in m.Values + {v}
    {
      var q :| q in n && n[q] == x;
      if q != k {
        assert m[q] == x;
      }
    }
    forall x | x in m.Values + {v}
      ensures x in n.Values
    {
      if x == v {
        assert n[k] == v;
      } else {
        var q :| q in m && m[q] == x;
        assert n[q] == x;
      }
    }
  }

  // ---------------------------------------------------------------------
  // The difference

  /** `local_hashes.difference(&remote_hashes).collect()`: each new hash once, in some order. */
  method NewHashes(local: set<string>, remote: set<string>) returns (s: seq<string>)
    ensures forall x :: x in s <==> x in local && x !in remote
    ensures forall i, j :: 0 <= i < j < |s| ==> s[i] != s[j]
  {
    s := [];
    var left := local - remote;
    while left != {}
      invariant left <= local - remote
      invariant forall x :: x in s <==> x in local - remote && x !in left
      invariant forall i, j :: 0 <= i < j < |s| ==> s[i] != s[j]
      decreases left
    {
      var x :| x in left;
      s := s + [x];
      left := left - {x};
    }
  }

  // ---------------------------------------------------------------------
  // Rewriting the references

  /**
   * The rewrite as written: each reference is looked up in `path_hashes`
   * under its own, unnormalised text, and indexing a missing key panics.
   */
  function RewriteAsWritten(files: map<string, string>, pathHashes: map<string, string>): (r: Result<map<string, string>>)
    ensures r.Err? <==> exists k :: k in files && files[k] !in pathHashes
    ensures r.Ok? ==> (r.value.Keys == files.Keys
      && forall k :: k in files ==> r.value[k] == "files/" + pathHashes[files[k]])
  {
    if forall k :: k in files ==> files[k] in pathHashes then
      Ok(map k | k in files :: "files/" + pathHashes[files[k]])
    else
      Err(Panic("key not found in path_hashes"))
  }

  /**
   * The rewrite as intended: a reference is looked up under the same
   * normalised path that was hashed, so every reference of a hashed option
   * is found.
   */
  function Rewrite(files: map<string, string>, pathHashes: map<string, string>): (r: map<string, string>)
    requires FilesPaths(files) <= pathHashes.Keys
    ensures r.Keys == files.Keys
    ensures forall k :: k in files ==> r[k] == "files/" + pathHashes[Normalize(files[k])]
  {
    map k | k in files :: "files/" + pathHashes[Normalize(files[k])]
  }

  /**
   * On references without a backslash normalising changes nothing, so the
   * code as written and the intended rewrite agree.
   */
  lemma RewriteAsWrittenAgrees(files: map<string, string>, pathHashes: map<string, string>)
    requires FilesPaths(files) <= pathHashes.Keys
    requires forall k :: k in files ==> '\\' !in files[k]
    ensures RewriteAsWritten(files, pathHashes) == Ok(Rewrite(files, pathHashes))
  {
    forall k | k in files ensures Normalize(files[k]) == files[k] && files[k] in pathHashes {
      assert Normalize(files[k]) in FilesPaths(files);
    }
    var written := map k | k in files :: "files/" + pathHashes[files[k]];
    assert RewriteAsWritten(files, pathHashes) == Ok(written);
    assert written == Rewrite(files, pathHashes);
  }

  function RewriteOptions(options: seq<StandardOption>, pathHashes: map<string, string>): (r: seq<StandardOption>)
    requires OptionsPaths(options) <= pathHashes.Keys
    ensures |r| == |options|
    ensures forall i :: 0 <= i < |options| ==>
      r[i].name == options[i].name && FilesPaths(options[i].simple.files) <= pathHashes.Keys
      && r[i].simple == SimpleOption(Rewrite(options[i].simple.files, pathHashes))
    decreases |options|
  {
    if options == [] then []
    else
      var n := |options| - 1;
      assert OptionsPaths(options[..n]) <= OptionsPaths(options);
      var init := RewriteOptions(options[..n], pathHashes);
      init + [StandardOption(options[n].name, SimpleOption(Rewrite(options[n].simple.files, pathHashes)))]
  }

  /** A file group keeps its name, kind and options, each option's references rewritten; an IMC group is kept as it is. */
  function RewriteGroup(g: PenumbraGroup, pathHashes: map<string, string>): (r: PenumbraGroup)
    requires GroupPathsOf(g) <= pathHashes.Keys
    ensures r.name == g.name && r.kind.Imc? == g.kind.Imc? && r.kind.Single? == g.kind.Single?
    ensures g.kind.Imc? ==> r == g
    ensures |FileOptions(r)| == |FileOptions(g)|
    ensures OptionsPaths(FileOptions(g)) <= pathHashes.Keys
    ensures FileOptions(r) == RewriteOptions(FileOptions(g), pathHashes)
  {
    match g.kind
    case Single(options) => PenumbraGroup(g.name, Single(RewriteOptions(options, pathHashes)))
    case Multi(options) => PenumbraGroup(g.name, Multi(RewriteOptions(options, pathHashes)))
    case Imc(_) => g
  }

  /** The groups rewritten one by one, in order: each file option's references go through `Rewrite`. */
  function RewriteGroups(groups: seq<PenumbraGroup>, pathHashes: map<string, string>): (r: seq<PenumbraGroup>)
    requires GroupsPaths(groups) <= pathHashes.Keys
    ensures |r| == |groups|
    ensures forall i :: 0 <= i < |groups| ==> r[i].name == groups[i].name && r[i].kind.Imc? == groups[i].kind.Imc?
    ensures forall i :: 0 <= i < |groups| ==>
      GroupPathsOf(groups[i]) <= pathHashes.Keys && r[i] == RewriteGroup(groups[i], pathHashes)
  {
    GroupPathsEach(groups);
    seq(|groups|, i requires 0 <= i < |groups| => RewriteGroup(groups[i], pathHashes))
  }

  /** Each group's paths are among the paths of all groups. */
  lemma {:induction false} GroupPathsEach(groups: seq<PenumbraGroup>)
    ensures forall i :: 0 <= i < |groups| ==> GroupPathsOf(groups[i]) <= GroupsPaths(groups)
    decreases |groups|
  {
    if groups != [] {
      var n := |groups| - 1;
      GroupPathsEach(groups[..n]);
      forall i | 0 <= i < n
        ensures GroupPathsOf(groups[i]) <= GroupsPaths(groups)
      {
        assert groups[..n][i] == groups[i];
      }
    }
  }

  /**
   * Penumbra writes references with `\`: such a reference is hashed under
   * its normalised path, so the rewrite as written misses it and panics,
   * while the intended rewrite finds it.
   */
  lemma BackslashReferencePanics(hash: string)
    ensures var files := map["chara/a.tex" := "files\\a.tex"];
      var pathHashes := map p | p in FilesPaths(files) :: hash;
      RewriteAsWritten(files, pathHashes).Err?
      && Rewrite(files, pathHashes) == map["chara/a.tex" := "files/" + hash]
  {
    var files := map["chara/a.tex" := "files\\a.tex"];
    assert files["chara/a.tex"] == "files\\a.tex";
    var n := Normalize("files\\a.tex");
    assert n == "files/a.tex";
    assert FilesPaths(files) == {"files/a.tex"};
    assert "files\\a.tex" != "files/a.tex" by {
      assert ("files\\a.tex")[5] != ("files/a.tex")[5];
    }
  }

  /**
   * After the rewrite every reference of an option names `files/<hash>`
   * where the hash is either among the new hashes (so the update holds that
   * file) or among the hashes the server already has.
   */
  lemma ReferencesResolve(files: map<string, string>, h: Hashed, remote: set<string>, newHashes: seq<string>, k: string)
    requires FilesPaths(files) <= h.pathHashes.Keys && k in files
    requires forall x :: x in newHashes <==> x in h.pathHashes.Values && x !in remote
    ensures exists x :: Rewrite(files, h.pathHashes)[k] == "files/" + x && (x in newHashes || x in remote)
  {
    var p := Normalize(files[k]);
    assert p in FilesPaths(files);
    var x := h.pathHashes[p];
    assert x in h.pathHashes.Values;
  }

  // ---------------------------------------------------------------------
  // Writing the update

  /** `format!("group_{:<03}_group.json", i + 1)`. */
  function GroupEntryName(i: nat): string
  {
    "group_" + ZeroPad3(i + 1) + "_group.json"
  }

  function NewFileEntries(newHashes: seq<string>, h: Hashed, zip: seq<ZipFile>): (r: seq<OutEntry>)
    requires forall x :: x in newHashes ==> x in h.hashToPath && ByName(zip, h.hashToPath[x]).Some?
    ensures |r| == |newHashes|
  {
    seq(|newHashes|, i requires 0 <= i < |newHashes| =>
      OutEntry("files/" + newHashes[i], Copied(ByName(zip, h.hashToPath[newHashes[i]]).value)))
  }

  function GroupEntries(groups: seq<PenumbraGroup>): (r: seq<OutEntry>)
    ensures |r| == |groups|
  {
    seq(|groups|, i requires 0 <= i < |groups| => OutEntry(GroupEntryName(i), GroupJson(groups[i])))
  }

  /** The progress of writing the update: the counter from 0 up to the total, one step per entry. */
  function WriteProgress(total: nat): (r: seq<Progress>)
    ensures |r| == total + 1
    ensures r[0] == CreatingUpdateFile(0, total) && r[total] == CreatingUpdateFile(total, total)
  {
    seq(total + 1, k requires 0 <= k <= total => CreatingUpdateFile(k, total))
  }

  /**
   * The writing phase: one `files/<hash>` entry per new hash with that
   * file's bytes, the delta manifest, `meta.json` copied, the rewritten
   * default option, then the rewritten groups numbered from 1 in order; the
   * counter is bumped once per entry and ends at the announced total.
   */
  method WriteUpdate(newHashes: seq<string>, h: Hashed, zip: seq<ZipFile>, versionId: string, meta: seq<byte>,
                     default: SimpleOption, groups: seq<PenumbraGroup>)
    returns (entries: seq<OutEntry>, events: seq<Progress>)
    requires forall x :: x in newHashes ==> x in h.hashToPath && ByName(zip, h.hashToPath[x]).Some?
    ensures entries == NewFileEntries(newHashes, h, zip)
      + [OutEntry("heliosphere_delta.json", DeltaManifest(versionId)), OutEntry("meta.json", Copied(meta)),
         OutEntry("default_mod.json", DefaultJson(default))]
      + GroupEntries(groups)
    ensures |entries| == |newHashes| + 3 + |groups|
    ensures events == WriteProgress(|newHashes| + 3 + |groups|)
    ensures |events| >= 1 && events[|events| - 1] == CreatingUpdateFile(|entries|, |entries|)
  {
    var total := |newHashes| + 3 + |groups|;
    events := [CreatingUpdateFile(0, total)];
    entries, events := WriteNewFiles(newHashes, h, zip, total, events);
    var current := |newHashes|;

    entries := entries + [OutEntry("heliosphere_delta.json", DeltaManifest(versionId))];
    WriteProgressStep(total, current);
    current := current + 1;
    events := events + [CreatingUpdateFile(current, total)];

    entries := entries + [OutEntry("meta.json", Copied(meta))];
    WriteProgressStep(total, current);
    current := current + 1;
    events := events + [CreatingUpdateFile(current, total)];

    entries := entries + [OutEntry("default_mod.json", DefaultJson(default))];
    WriteProgressStep(total, current);
    current := current + 1;
    events := events + [CreatingUpdateFile(current, total)];

    var groupEntries;
    groupEntries, events := WriteGroups(groups, total, events);
    entries := entries + groupEntries;
    assert events == WriteProgress(total)[..total + 1];
    WriteProgressEnds(events, total);
  }

  lemma WriteProgressEnds(events: seq<Progress>, total: nat)
    requires events == WriteProgress(total)
    ensures |events| >= 1 && events[|events| - 1] == CreatingUpdateFile(total, total)
  {
  }

  lemma WriteProgressStep(total: nat, current: nat)
    requires current < total
    ensures WriteProgress(total)[..current + 2] == WriteProgress(total)[..current + 1] + [CreatingUpdateFile(current + 1, total)]
  {
  }

  /** The first loop of the writing phase: one entry per new hash, the counter bumped after each. */
  method WriteNewFiles(newHashes: seq<string>, h: Hashed, zip: seq<ZipFile>, total: nat, events0: seq<Progress>)
    returns (entries: seq<OutEntry>, events: seq<Progress>)
    requires forall x :: x in newHashes ==> x in h.hashToPath && ByName(zip, h.hashToPath[x]).Some?
    requires |newHashes| <= total && events0 == WriteProgress(total)[..1]
    ensures entries == NewFileEntries(newHashes, h, zip)
    ensures events == WriteProgress(total)[..|newHashes| + 1]
  {
    events := events0;
    entries := [];
    for i := 0 to |newHashes|
      invariant entries == NewFileEntries(newHashes[..i], h, zip)
      invariant events == WriteProgress(total)[..i + 1]
    {
      var hash := newHashes[i];
      var path := h.hashToPath[hash];
      NewFileEntriesStep(newHashes, h, zip, i);
      entries := entries + [OutEntry("files/" + hash, Copied(ByName(zip, path).value))];
      WriteProgressStep(total, i);
      events := events + [CreatingUpdateFile(i + 1, total)];
    }
    assert newHashes[..|newHashes|] == newHashes;
  }

  lemma NewFileEntriesStep(newHashes: seq<string>, h: Hashed, zip: seq<ZipFile>, i: nat)
    requires forall x :: x in newHashes ==> x in h.hashToPath && ByName(zip, h.hashToPath[x]).Some?
    requires i < |newHashes|
    ensures NewFileEntries(newHashes[..i + 1], h, zip)
      == NewFileEntries(newHashes[..i], h, zip) + [OutEntry("files/" + newHashes[i], Copied(ByName(zip, h.hashToPath[newHashes[i]]).value))]
  {
    assert forall x :: x in newHashes[..i + 1] ==> x in newHashes;
  }

  lemma GroupEntriesStep(groups: seq<PenumbraGroup>, i: nat)
    requires i < |groups|
    ensures GroupEntries(groups[..i + 1]) == GroupEntries(groups[..i]) + [OutEntry(GroupEntryName(i), GroupJson(groups[i]))]
  {
  }

  /** The last loop of the writing phase: the groups numbered from 1, the counter bumped after each. */
  method WriteGroups(groups: seq<PenumbraGroup>, total: nat, events0: seq<Progress>)
    returns (entries: seq<OutEntry>, events: seq<Progress>)
    requires |groups| <= total && events0 == WriteProgress(total)[..total - |groups| + 1]
    ensures entries == GroupEntries(groups)
    ensures events == WriteProgress(total)[..total + 1]
  {
    var first := total - |groups|;
    events := events0;
    entries := [];
    for i := 0 to |groups|
      invariant entries == GroupEntries(groups[..i])
      invariant events == WriteProgress(total)[..first + i + 1]
    {
      entries, events := WriteGroup(groups, i, first, total, entries, events);
    }
    assert groups[..|groups|] == groups;
  }

  /** One round of the group loop: the entry of group `i`, then the counter bumped. */
  method WriteGroup(groups: seq<PenumbraGroup>, i: nat, first: nat, total: nat, entries0: seq<OutEntry>, events0: seq<Progress>)
    returns (entries: seq<OutEntry>, events: seq<Progress>)
    requires i < |groups| && first + |groups| <= total
    requires entries0 == GroupEntries(groups[..i]) && events0 == WriteProgress(total)[..first + i + 1]
    ensures entries == GroupEntries(groups[..i + 1]) && events == WriteProgress(total)[..first + i + 2]
  {
    GroupEntriesStep(groups, i);
    entries := entries0 + [OutEntry(GroupEntryName(i), GroupJson(groups[i]))];
    WriteProgressStep(total, first + i);
    events := events0 + [CreatingUpdateFile(first + i + 1, total)];
  }

  // ---------------------------------------------------------------------
  // The command

  /** Each group was parsed, in order, from the named file without its byte-order mark. */
  ghost predicate GroupsParsed(zip: seq<ZipFile>, groupPaths: seq<string>, foreign: Foreign, groups: seq<PenumbraGroup>)
  {
    && |groups| == |groupPaths|
    && forall i :: 0 <= i < |groupPaths| ==>
         ByName(zip, groupPaths[i]).Some?
         && Some(groups[i]) == foreign.parseGroup(SkipBom(ByName(zip, groupPaths[i]).value))
  }

  /** The default option and the groups were parsed, in that order, from the named files without their byte-order marks. */
  ghost predicate ParsedFrom(zip: seq<ZipFile>, groupPaths: seq<string>, foreign: Foreign,
                             default: SimpleOption, groups: seq<PenumbraGroup>)
  {
    && ByName(zip, "default_mod.json").Some?
    && Some(default) == foreign.parseDefault(SkipBom(ByName(zip, "default_mod.json").value))
    && GroupsParsed(zip, groupPaths, foreign, groups)
  }

  /** Parsing the default option and the group files, in that order, each without its byte-order mark. */
  method ParseOptions(zip: seq<ZipFile>, groupPaths: seq<string>, foreign: Foreign)
    returns (r: Result<(SimpleOption, seq<PenumbraGroup>)>)
    ensures ByName(zip, "default_mod.json").None? ==> r == Err(Bail("could not get default_mod.json"))
    ensures ByName(zip, "default_mod.json").Some?
      && foreign.parseDefault(SkipBom(ByName(zip, "default_mod.json").value)).None?
      ==> r == Err(Bail("invalid pmp: invalid default_mod.json"))
    ensures r.Err? && r != Err(Bail("could not get default_mod.json")) && r != Err(Bail("invalid pmp: invalid default_mod.json")) ==>
      exists i :: 0 <= i < |groupPaths| &&
        (r == Err(Bail("could not get " + groupPaths[i])) || r == Err(Bail("invalid pmp: invalid group " + groupPaths[i])))
    ensures r.Ok? ==> ParsedFrom(zip, groupPaths, foreign, r.value.0, r.value.1)
    ensures r.Ok? <==> exists d, gs :: ParsedFrom(zip, groupPaths, foreign, d, gs)
  {
    var file := ByName(zip, "default_mod.json");
    if file.None? {
      return Err(Bail("could not get default_mod.json"));
    }
    var default := foreign.parseDefault(SkipBom(file.value));
    if default.None? {
      return Err(Bail("invalid pmp: invalid default_mod.json"));
    }
    var groups := ParseGroups(zip, groupPaths, foreign);
    if groups.Err? {
      return Err(groups.error);
    }
    r := Ok((default.value, groups.value));
    assert ParsedFrom(zip, groupPaths, foreign, default.value, groups.value);
  }

  /** The loop over the group files: it stops at the first that is missing or does not parse. */
  method ParseGroups(zip: seq<ZipFile>, groupPaths: seq<string>, foreign: Foreign)
    returns (r: Result<seq<PenumbraGroup>>)
    ensures r.Ok? ==> GroupsParsed(zip, groupPaths, foreign, r.value)
    ensures r.Err? ==> exists i :: 0 <= i < |groupPaths| && r.error in {Bail("could not get " + groupPaths[i]), Bail("invalid pmp: invalid group " + groupPaths[i])}
    ensures r.Err? ==> !exists gs :: GroupsParsed(zip, groupPaths, foreign, gs)
  {
    var groups: seq<PenumbraGroup> := [];
    for i := 0 to |groupPaths|
      invariant |groups| == i
      invariant forall j :: 0 <= j < i ==>
        ByName(zip, groupPaths[j]).Some?
        && Some(groups[j]) == foreign.parseGroup(SkipBom(ByName(zip, groupPaths[j]).value))
    {
      var path := groupPaths[i];
      var groupFile := ByName(zip, path);
      if groupFile.None? {
        r := Err(Bail("could not get " + path));
        NotParsed(zip, groupPaths, foreign, i);
        return;
      }
      var group := foreign.parseGroup(SkipBom(groupFile.value));
      if group.None? {
        r := Err(Bail("invalid pmp: invalid group " + path));
        NotParsed(zip, groupPaths, foreign, i);
        return;
      }
      groups := groups + [group.value];
    }
    r := Ok(groups);
  }

  lemma NotParsed(zip: seq<ZipFile>, groupPaths: seq<string>, foreign: Foreign, i: nat)
    requires i < |groupPaths|
    requires ByName(zip, groupPaths[i]).None? || foreign.parseGroup(SkipBom(ByName(zip, groupPaths[i]).value)).None?
    ensures !exists gs :: GroupsParsed(zip, groupPaths, foreign, gs)
  {
  }

  /** `set_extension("delta.hsp")`. */
  function DeltaPath(path: string): string
  {
    WithExtension(path, "delta.hsp")
  }

  /** The update file of a named pack sits beside it, with the extension `hsp`. */
  lemma DeltaPathShape(path: string)
    requires FileName(path).Some?
    ensures Extension(DeltaPath(path)) == Some("hsp")
    ensures DeltaPath(path)[..DirLength(path)] == path[..DirLength(path)]
  {
    assert "delta.hsp" == "delta" + "." + "hsp";
    WithExtensionExtension(path, "delta", "hsp");
  }

  /** The update's events end with the counter at the total, then `Done`. */
  ghost predicate EndsWritten(events: seq<Progress>, total: nat)
  {
    |events| >= 2 && events[|events| - 1] == Done && events[|events| - 2] == CreatingUpdateFile(total, total)
  }

  lemma EndsWrittenAppend(events: seq<Progress>, writing: seq<Progress>, total: nat)
    requires |writing| >= 1 && writing[|writing| - 1] == CreatingUpdateFile(total, total)
    ensures EndsWritten(events + writing + [Done], total)
  {
  }


  /**
   * A successful update for a pack: the parsed options, the hashed
   * referenced paths and the new hashes (in the order the difference was
   * listed) it was built from.
   */
  ghost predicate UpdateOf(w: Written, path: string, zip: seq<ZipFile>, info: DeltaInfo, foreign: Foreign,
                           default: SimpleOption, groups: seq<PenumbraGroup>, h: Hashed, newHashes: seq<string>)
  {
    && ParsedFrom(zip, GroupPaths(Names(zip)), foreign, default, groups)
    && HashedFrom(h, FilesPaths(default.files) + GroupsPaths(groups), zip, foreign.blake)
    && (forall x :: x in newHashes <==> x in h.pathHashes.Values && x !in info.remoteHashes)
    && (forall i, j :: 0 <= i < j < |newHashes| ==> newHashes[i] != newHashes[j])
    && ByName(zip, "meta.json").Some?
    && w == Written(DeltaPath(path),
         NewFileEntries(newHashes, h, zip)
         + [OutEntry("heliosphere_delta.json", DeltaManifest(info.versionId)),
            OutEntry("meta.json", Copied(ByName(zip, "meta.json").value)),
            OutEntry("default_mod.json", DefaultJson(SimpleOption(Rewrite(default.files, h.pathHashes))))]
         + GroupEntries(RewriteGroups(groups, h.pathHashes)))
  }

  /** The update is the one built from some parse of the options, hashing of the paths and listing of the new hashes. */
  ghost predicate UpdateOfSome(w: Written, path: string, zip: seq<ZipFile>, info: DeltaInfo, foreign: Foreign)
  {
    exists d, gs, h, nh :: UpdateOf(w, path, zip, info, foreign, d, gs, h, nh)
  }

  /** Every path the default option or a file option refers to is a file of the archive. */
  ghost predicate ReferencesPresent(zip: seq<ZipFile>, default: SimpleOption, groups: seq<PenumbraGroup>)
  {
    forall p :: p in FilesPaths(default.files) + GroupsPaths(groups) ==> p in Names(zip)
  }

  /**
   * A pack `pmp_delta` converts: it has `meta.json`, its options parse,
   * and every file they refer to is in the archive.
   */
  ghost predicate Convertible(zip: seq<ZipFile>, foreign: Foreign)
  {
    && "meta.json" in Names(zip)
    && exists d, gs :: ParsedFrom(zip, GroupPaths(Names(zip)), foreign, d, gs) && ReferencesPresent(zip, d, gs)
  }

  /** The options are parsed in one way only. */
  lemma ParsedFromUnique(zip: seq<ZipFile>, groupPaths: seq<string>, foreign: Foreign,
                         d: SimpleOption, gs: seq<PenumbraGroup>, d': SimpleOption, gs': seq<PenumbraGroup>)
    requires ParsedFrom(zip, groupPaths, foreign, d, gs) && ParsedFrom(zip, groupPaths, foreign, d', gs')
    ensures d == d' && gs == gs'
  {
    assert |gs| == |gs'|;
    forall i | 0 <= i < |gs| ensures gs[i] == gs'[i] {
      assert Some(gs[i]) == foreign.parseGroup(SkipBom(ByName(zip, groupPaths[i]).value)) == Some(gs'[i]);
    }
  }

  /**
   * `pmp_delta`. `zip` is the opened archive, or the error opening it
   * failed with. A pack without `meta.json` is refused before anything is
   * parsed or written. Every reference of the default option and of the
   * file options is rewritten with the intended (normalised) lookup; see
   * `RewriteAsWritten` for the code as it stands.
   */
  method PmpDelta(path: string, zip: Result<seq<ZipFile>>, info: DeltaInfo, foreign: Foreign)
    returns (r: Result<Written>, events: seq<Progress>)
    ensures zip.Err? ==> r == Err(zip.error) && events == []
    ensures zip.Ok? && "meta.json" !in Names(zip.value) ==> r == Err(Bail("invalid pmp: missing meta.json")) && events == []
    ensures zip.Ok? && "meta.json" in Names(zip.value) && ByName(zip.value, "default_mod.json").None?
      ==> r == Err(Bail("could not get default_mod.json")) && events == []
    ensures r.Ok? ==> zip.Ok? && UpdateOfSome(r.value, path, zip.value, info, foreign)
    ensures r.Ok? ==> EndsWritten(events, |r.value.entries|)
    ensures r.Ok? <==> zip.Ok? && Convertible(zip.value, foreign)
  {
    events := [];
    if zip.Err? {
      return Err(zip.error), events;
    }
    var archive := zip.value;
    var names := Names(archive);
    if "meta.json" !in names {
      return Err(Bail("invalid pmp: missing meta.json")), events;
    }
    var groupPaths := GroupPaths(names);
    var parsed := ParseOptions(archive, groupPaths, foreign);
    if parsed.Err? {
      return Err(parsed.error), events;
    }
    var (default, groups) := parsed.value;

    r, events := BuildUpdate(path, archive, info, foreign, default, groups);
    forall d, gs | ParsedFrom(archive, groupPaths, foreign, d, gs) ensures d == default && gs == groups {
      ParsedFromUnique(archive, groupPaths, foreign, d, gs, default, groups);
    }
  }

  /** `pmp_delta` once the options are parsed: hash, take the difference, rewrite and write. */
  method BuildUpdate(path: string, archive: seq<ZipFile>, info: DeltaInfo, foreign: Foreign,
                     default: SimpleOption, groups: seq<PenumbraGroup>)
    returns (r: Result<Written>, events: seq<Progress>)
    requires ParsedFrom(archive, GroupPaths(Names(archive)), foreign, default, groups)
    requires "meta.json" in Names(archive)
    ensures r.Err? ==> r.error.Io?
    ensures r.Ok? <==> ReferencesPresent(archive, default, groups)
    ensures r.Ok? ==> UpdateOfSome(r.value, path, archive, info, foreign)
    ensures r.Ok? ==> EndsWritten(events, |r.value.entries|)
  {
    var toHash := CollectPaths(default, groups);
    var hashed, hashing := HashPaths(toHash, archive, foreign.blake);
    events := [HashingFiles(0, |toHash|)] + hashing;
    if hashed.Err? {
      return Err(hashed.error), events;
    }
    var h := hashed.value;
    events := events + [CalculatingDifference];

    var w, newHashes, writing := WriteDelta(path, archive, info, foreign, default, groups, h);
    EndsWrittenAppend(events, writing, |w.entries|);
    events := events + writing + [Done];
    r := Ok(w);
  }

  /** The difference, the rewrite and the writing phase, once the paths are hashed. */
  method WriteDelta(path: string, archive: seq<ZipFile>, info: DeltaInfo, foreign: Foreign,
                    default: SimpleOption, groups: seq<PenumbraGroup>, h: Hashed)
    returns (w: Written, newHashes: seq<string>, writing: seq<Progress>)
    requires ParsedFrom(archive, GroupPaths(Names(archive)), foreign, default, groups)
    requires HashedFrom(h, FilesPaths(default.files) + GroupsPaths(groups), archive, foreign.blake)
    requires "meta.json" in Names(archive)
    ensures UpdateOf(w, path, archive, info, foreign, default, groups, h, newHashes)
    ensures |writing| >= 1 && writing[|writing| - 1] == CreatingUpdateFile(|w.entries|, |w.entries|)
  {
    newHashes := NewHashes(h.pathHashes.Values, info.remoteHashes);
    NewHashesStored(h, FilesPaths(default.files) + GroupsPaths(groups), archive, foreign.blake, newHashes);
    var newDefault := SimpleOption(Rewrite(default.files, h.pathHashes));
    var newGroups := RewriteGroups(groups, h.pathHashes);

    var meta := ByName(archive, "meta.json");
    var entries;
    entries, writing := WriteUpdate(newHashes, h, archive, info.versionId, meta.value, newDefault, newGroups);
    w := Written(DeltaPath(path), entries);
  }

  /** Every new hash names a hashed file of the archive. */
  lemma NewHashesStored(h: Hashed, paths: set<string>, zip: seq<ZipFile>, blake: seq<byte> -> string, newHashes: seq<string>)
    requires HashedFrom(h, paths, zip, blake)
    requires forall x :: x in newHashes ==> x in h.pathHashes.Values
    ensures forall x :: x in newHashes ==> x in h.hashToPath && ByName(zip, h.hashToPath[x]).Some?
  {
  }

  /**
   * `delta_inner`: only a `.pmp` path is processed; the set-up event comes
   * first whatever the path.
   */
  method DeltaInner(path: string, zip: Result<seq<ZipFile>>, info: DeltaInfo, foreign: Foreign)
    returns (r: Result<Written>, events: seq<Progress>)
    ensures |events| >= 1 && events[0] == SettingUp
    ensures Extension(path) in {Some("ttmp"), Some("ttmp2")} ==> r == Err(Bail("textools not supported"))
    ensures Extension(path) !in {Some("pmp"), Some("ttmp"), Some("ttmp2")}
      ==> r == Err(Bail("could not determine file type from extension"))
    ensures r.Ok? ==> (Extension(path) == Some("pmp") && zip.Ok?
      && UpdateOfSome(r.value, path, zip.value, info, foreign))
    ensures r.Ok? <==> Extension(path) == Some("pmp") && zip.Ok? && Convertible(zip.value, foreign)
  {
    events := [SettingUp];
    match RouteOf(path) {
      case PmpRoute =>
        var more;
        r, more := PmpDelta(path, zip, info, foreign);
        events := events + more;
      case Refused(message) =>
        r := Err(Bail(message));
    }
  }
}
