/** The install manifest: recorded from a staged tree, checked against an installed one.
    Hashing and the JSON encoding of the manifest are given functions. */
module Install {
  import opened Prelude
  import opened Text
  import opened Sequences
  import opened ArchiveNames
  import opened FileTree

  /** A file has a digest and a mode, a symlink only its target. */
  datatype InstalledFile = InstalledFile(path: string, sha256: string, mode: string, symlinkTarget: string)

  datatype Manifest = Manifest(schemaVersion: int, archive: string, files: seq<InstalledFile>)

  const MANIFEST_NAME: string := ".golc-install-manifest.json"

  const SCHEMA_VERSION := 1

  datatype Codec = Codec(hash: string -> string, encode: Manifest -> string, decode: string -> Option<Manifest>)

  predicate HexDigest(s: string) {
    |s| == 64 && forall i :: 0 <= i < |s| ==> '0' <= s[i] <= '9' || 'a' <= s[i] <= 'f'
  }

  /** What is assumed of SHA-256 and of the JSON library, for names that are valid UTF-8. */
  ghost predicate Sound(c: Codec) {
    (forall s :: HexDigest(c.hash(s))) && forall m :: c.decode(c.encode(m)) == Some(m)
  }

  // ----- Permission bits as four octal digits -------------------------------------------------

  function Octal(d: nat): char
    requires d < 8
  {
    ('0' as int + d) as char
  }

  function FormatMode(mode: nat): string
    requires mode < 512
  {
    ['0', Octal(mode / 64), Octal(mode / 8 % 8), Octal(mode % 8)]
  }

  function ParseMode(s: string): Option<nat> {
    if |s| != 4 || s[0] != '0' || exists i :: 1 <= i < 4 && !('0' <= s[i] <= '7') then None
    else Some((s[1] as int - '0' as int) * 64 + (s[2] as int - '0' as int) * 8 + (s[3] as int - '0' as int))
  }

  lemma ModeRoundTrip(mode: nat)
    requires mode < 512
    ensures ParseMode(FormatMode(mode)) == Some(mode)
  {
    var s := FormatMode(mode);
    assert '0' <= s[1] <= '7' && '0' <= s[2] <= '7' && '0' <= s[3] <= '7';
    assert mode / 8 == mode / 64 * 8 + mode / 8 % 8;
  }

  // ----- Recording ---------------------------------------------------------------------------

  /** What the archive says: permission bits per regular file, target per symlink. */
  datatype Tables = Tables(modes: map<string, nat>, links: map<string, string>)

  ghost predicate NormalName(p: string) { exists raw :: Normalize(raw) == Ok(p) }

  /** Tables that come from an inspected archive. */
  ghost predicate Inspected(a: Tables) {
    && (forall p :: p in a.modes ==> NormalName(p))
    && (forall p :: p in a.links ==> TargetAllowed(p, a.links[p]) && NormalName(p))
  }

  datatype InventoryError = NoSymlink(name: string) | TargetDiffers(name: string) | NoFile(name: string)

  function InventoryProblem(tree: Tree, a: Tables, p: string): Option<InventoryError>
    requires p in tree
  {
    match tree[p]
    case Dir => None
    case Link(target) =>
      if p !in a.links then Some(NoSymlink(p)) else if a.links[p] != target then Some(TargetDiffers(p)) else None
    case File(_, _) => if p !in a.modes then Some(NoFile(p)) else None
  }

  predicate Leaf(tree: Tree, p: string) { p in tree && tree[p] != Dir }

  /** The nine permission bits. */
  function Perm(mode: nat): (r: nat)
    ensures r < 512
  {
    mode % 512
  }

  function ArchiveMode(a: Tables, p: string): nat { if p in a.modes then Perm(a.modes[p]) else 0 }

  /** The manifest entry of a file or symlink. */
  function Record(tree: Tree, a: Tables, c: Codec, p: string): InstalledFile {
    if !Leaf(tree, p) then InstalledFile(p, "", "", "")
    else
      match tree[p]
      case Link(target) => InstalledFile(p, "", "", target)
      case File(content, _) => InstalledFile(p, c.hash(content), FormatMode(ArchiveMode(a, p)), "")
  }

  ghost predicate Clear(tree: Tree, a: Tables) {
    forall p :: p in tree ==> InventoryProblem(tree, a, p) == None
  }

  ghost predicate UniquePaths(files: seq<InstalledFile>) {
    forall i, j :: 0 <= i < j < |files| ==> files[i].path != files[j].path
  }

  /** One entry for each file and symlink of the tree, and nothing else. */
  ghost predicate Lists(files: seq<InstalledFile>, tree: Tree, a: Tables, c: Codec) {
    && (forall f :: f in files ==> Leaf(tree, f.path) && f == Record(tree, a, c, f.path))
    && (forall p :: Leaf(tree, p) ==> Record(tree, a, c, p) in files)
    && UniquePaths(files)
  }

  /** A walk visits every node once. */
  ghost predicate Walk(walk: seq<string>, tree: Tree) {
    && (forall p :: p in walk <==> p in tree)
    && (forall i, j :: 0 <= i < j < |walk| ==> walk[i] != walk[j])
  }

  predicate ByPath(a: InstalledFile, b: InstalledFile) { AtMost(a.path, b.path) }

  lemma PathsAreOrdered()
    ensures Orders(ByPath)
  {
    forall a: InstalledFile, b: InstalledFile ensures ByPath(a, b) || ByPath(b, a) { AtMostTotal(a.path, b.path); }
    forall a: InstalledFile, b: InstalledFile, c: InstalledFile | ByPath(a, b) && ByPath(b, c) ensures ByPath(a, c) {
      AtMostTransitive(a.path, b.path, c.path);
    }
  }

  /** The entries recorded so far stand for the leaves among the names visited so far. */
  ghost predicate Recorded(files: seq<InstalledFile>, tree: Tree, a: Tables, c: Codec, visited: seq<string>) {
    && (forall f :: f in files ==> f.path in visited && Leaf(tree, f.path) && f == Record(tree, a, c, f.path))
    && (forall p :: p in visited && Leaf(tree, p) ==> Record(tree, a, c, p) in files)
    && UniquePaths(files)
  }

  lemma RecordedAppend(files: seq<InstalledFile>, tree: Tree, a: Tables, c: Codec, visited: seq<string>, p: string)
    requires Recorded(files, tree, a, c, visited) && p !in visited && Leaf(tree, p)
    ensures Recorded(files + [Record(tree, a, c, p)], tree, a, c, visited + [p])
  {
    var x := Record(tree, a, c, p);
    assert x.path == p;
    hide Record, Leaf;
    var more := files + [x];
    forall i, j | 0 <= i < j < |more| ensures more[i].path != more[j].path {
      assert more[i] in files;
    }
    hide UniquePaths;
    assert forall f :: f in more <==> f == x || f in files;
  }

  lemma RecordedSkip(files: seq<InstalledFile>, tree: Tree, a: Tables, c: Codec, visited: seq<string>, p: string)
    requires Recorded(files, tree, a, c, visited) && !Leaf(tree, p)
    ensures Recorded(files, tree, a, c, visited + [p])
  {
    hide Record;
  }

  /** Sorting changes neither what is listed nor that it is listed once. */
  lemma RecordedSorted(files: seq<InstalledFile>, tree: Tree, a: Tables, c: Codec, visited: seq<string>)
    requires Recorded(files, tree, a, c, visited) && forall p :: p in tree ==> p in visited
    ensures Lists(Sorted(files, ByPath), tree, a, c) && Ordered(Sorted(files, ByPath), ByPath)
  {
    hide Record, Orders, Leaf, Sorted, UniquePaths;
    PathsAreOrdered();
    SortedIsOrdered(files, ByPath);
    var r := Sorted(files, ByPath);
    UniquePermutes(files, r);
    forall f ensures f in r <==> f in files { SameMembers(r, files, f); }
    forall p | Leaf(tree, p) ensures Record(tree, a, c, p) in r { LeafIsNode(tree, p); }
  }

  lemma LeafIsNode(tree: Tree, p: string)
    requires Leaf(tree, p)
    ensures p in tree
  {
  }

  lemma UniquePermutes(files: seq<InstalledFile>, r: seq<InstalledFile>)
    requires multiset(files) == multiset(r) && UniquePaths(files)
    ensures UniquePaths(r)
  {
    NoRepeatsCount(files);
    NoRepeatsCount(r);
    assert NoRepeats(files);
    forall i, j | 0 <= i < j < |r| ensures r[i].path != r[j].path {
      assert r[i] != r[j];
      SameMembers(files, r, r[i]);
      SameMembers(files, r, r[j]);
    }
  }

  /** `inventoryInstalledFiles`: every file and symlink on disk must be one the archive
      declares; the list comes out sorted by path. */
  method Inventory(tree: Tree, walk: seq<string>, a: Tables, c: Codec)
    returns (r: Result<seq<InstalledFile>, InventoryError>)
    requires Walk(walk, tree)
    ensures r.Ok? <==> Clear(tree, a)
    ensures r.Ok? ==> Lists(r.value, tree, a, c) && Ordered(r.value, ByPath)
  {
    var files: seq<InstalledFile> := [];
    for i := 0 to |walk|
      invariant forall j :: 0 <= j < i ==> InventoryProblem(tree, a, walk[j]) == None
      invariant Recorded(files, tree, a, c, walk[..i])
    {
      var p := walk[i];
      assert walk[..i + 1] == walk[..i] + [p];
      assert p in tree;
      var problem := InventoryProblem(tree, a, p);
      if problem.Some? { return Err(problem.value); }
      hide InventoryProblem, Recorded;
      if tree[p] != Dir {
        assert p !in walk[..i];
        RecordedAppend(files, tree, a, c, walk[..i], p);
        files := files + [Record(tree, a, c, p)];
      } else {
        RecordedSkip(files, tree, a, c, walk[..i], p);
      }
    }
    assert walk[..|walk|] == walk;
    assert Clear(tree, a);
    RecordedSorted(files, tree, a, c, walk);
    return Ok(Sorted(files, ByPath));
  }

  // ----- Checking ------------------------------------------------------------------------------

  /** How one entry, or the whole check, comes out: a file-system error other than a
      missing file ends the check with that error. */
  datatype Verdict = Good | Mismatch | Unreadable

  /** The form of an entry, before the tree is looked at. */
  predicate FormOk(f: InstalledFile) {
    && Normalize(f.path) == Ok(f.path)
    && if f.symlinkTarget != "" then f.sha256 == "" && f.mode == "" && TargetAllowed(f.path, f.symlinkTarget)
       else HexDigest(f.sha256) && ParseMode(f.mode).Some?
  }

  /** The node the entry describes. */
  predicate Describes(f: InstalledFile, node: Node, c: Codec) {
    if f.symlinkTarget != "" then node == Link(f.symlinkTarget)
    else node.File? && c.hash(node.content) == f.sha256 && Some(node.mode) == ParseMode(f.mode)
  }

  function EntryVerdict(tree: Tree, f: InstalledFile, c: Codec, w: World): Verdict {
    if !FormOk(f) then Mismatch
    else
      match Lstat(tree, f.path, w)
      case Seen(node) => if Describes(f, node, c) then Good else Mismatch
      case Nothing => Mismatch
      case Failed => Unreadable
  }

  function Paths(files: seq<InstalledFile>): set<string> { set i | 0 <= i < |files| :: files[i].path }

  /** Every directory above a recorded path. */
  function Directories(files: seq<InstalledFile>): set<string> {
    if files == [] then {} else Directories(files[..|files| - 1]) + Ancestors(files[|files| - 1].path)
  }

  /** The entries in order, up to the first that is not good. */
  function EntriesVerdict(tree: Tree, files: seq<InstalledFile>, c: Codec, w: World): Verdict {
    if files == [] then Good
    else
      var front, f := files[..|files| - 1], files[|files| - 1];
      match EntriesVerdict(tree, front, c, w)
      case Good => if f.path in Paths(front) then Mismatch else EntryVerdict(tree, f, c, w)
      case v => v
  }

  /** A node the walk may meet. */
  predicate Expected(tree: Tree, p: string, dirs: set<string>, paths: set<string>)
    requires p in tree
  {
    p == MANIFEST_NAME || if tree[p] == Dir then p in dirs else p in paths
  }

  ghost predicate NothingElse(tree: Tree, files: seq<InstalledFile>) {
    forall p :: p in tree ==> Expected(tree, p, Directories(files), Paths(files))
  }

  predicate Pinned(m: Manifest, archive: string) {
    m.schemaVersion == SCHEMA_VERSION && m.archive == archive && m.files != []
  }

  /** The verdict on an install, given what reading its manifest meets. */
  ghost function InstallVerdict(tree: Tree, archive: string, c: Codec, w: World): Verdict {
    match Stat(tree, MANIFEST_NAME, w)
    case Nothing => Mismatch
    case Seen(File(text, _)) =>
      (match c.decode(text)
       case None => Mismatch
       case Some(m) =>
         if !Pinned(m, archive) then Mismatch
         else match EntriesVerdict(tree, m.files, c, w)
              case Good => if NothingElse(tree, m.files) then Good else Mismatch
              case v => v)
    case _ => Unreadable
  }

  method CheckEntry(tree: Tree, f: InstalledFile, c: Codec, w: World) returns (v: Verdict)
    ensures v == EntryVerdict(tree, f, c, w)
  {
    hide Normalize, ParseMode, HexDigest, TargetAllowed, Lstat;
    if Normalize(f.path) != Ok(f.path) { return Mismatch; }
    if f.symlinkTarget != "" {
      if f.sha256 != "" || f.mode != "" { return Mismatch; }
      if !TargetAllowed(f.path, f.symlinkTarget) { return Mismatch; }
      var info := Lstat(tree, f.path, w);
      if info.Nothing? { return Mismatch; }
      if info.Failed? { return Unreadable; }
      if !info.node.Link? { return Mismatch; }
      return if info.node.target == f.symlinkTarget then Good else Mismatch;
    }
    if !HexDigest(f.sha256) { return Mismatch; }
    var mode := ParseMode(f.mode);
    if mode == None { return Mismatch; }
    var info := Lstat(tree, f.path, w);
    if info.Nothing? { return Mismatch; }
    if info.Failed? { return Unreadable; }
    if !info.node.File? { return Mismatch; }
    if c.hash(info.node.content) != f.sha256 { return Mismatch; }
    return if info.node.mode == mode.value then Good else Mismatch;
  }

  /** The loop that climbs from a path to the root. */
  method AddDirectories(dirs: set<string>, path: string) returns (r: set<string>)
    ensures r == dirs + Ancestors(path)
  {
    r := dirs;
    var directory := PathDirectory(path);
    while directory != "."
      invariant dirs + Ancestors(path) == if directory == "." then r else r + {directory} + Ancestors(directory)
      decreases if directory == "." then 0 else |directory| + 1
    {
      r := r + {directory};
      directory := PathDirectory(directory);
    }
  }

  lemma DirectoriesAppend(files: seq<InstalledFile>, f: InstalledFile)
    ensures Directories(files + [f]) == Directories(files) + Ancestors(f.path)
    ensures Paths(files + [f]) == Paths(files) + {f.path}
  {
    var more := files + [f];
    assert more[..|files|] == files;
    forall p | p in Paths(files) + {f.path} ensures p in Paths(more) {
      if p in Paths(files) {
        var i :| 0 <= i < |files| && files[i].path == p;
        assert more[i].path == p;
      } else {
        assert more[|files|].path == p;
      }
    }
  }

  lemma {:induction false} VerdictStops(tree: Tree, files: seq<InstalledFile>, n: nat, c: Codec, w: World)
    requires n <= |files| && EntriesVerdict(tree, files[..n], c, w) != Good
    ensures EntriesVerdict(tree, files, c, w) == EntriesVerdict(tree, files[..n], c, w)
  {
    hide EntryVerdict;
    if n == |files| {
      assert files[..n] == files;
    } else {
      assert files[..|files| - 1][..n] == files[..n];
      VerdictStops(tree, files[..|files| - 1], n, c, w);
    }
  }

  /** The loop over the manifest's entries. */
  method CheckEntries(tree: Tree, files: seq<InstalledFile>, c: Codec, w: World)
    returns (v: Verdict, paths: set<string>, dirs: set<string>)
    ensures v == EntriesVerdict(tree, files, c, w)
    ensures v == Good ==> paths == Paths(files) && dirs == Directories(files)
  {
    hide EntryVerdict, Ancestors;
    paths, dirs := {}, {};
    for i := 0 to |files|
      invariant paths == Paths(files[..i]) && dirs == Directories(files[..i])
      invariant EntriesVerdict(tree, files[..i], c, w) == Good
    {
      var f := files[i];
      assert files[..i + 1] == files[..i] + [f];
      assert files[..i + 1][..i] == files[..i];
      DirectoriesAppend(files[..i], f);
      hide Paths, Directories;
      if f.path in paths {
        VerdictStops(tree, files, i + 1, c, w);
        return Mismatch, paths, dirs;
      }
      v := CheckEntry(tree, f, c, w);
      if v != Good {
        VerdictStops(tree, files, i + 1, c, w);
        return;
      }
      paths := paths + {f.path};
      dirs := AddDirectories(dirs, f.path);
    }
    assert files[..|files|] == files;
    v := Good;
  }

  /** `InstalledMatches`, below its reading of the pin; the walk meets the real names. */
  method InstalledMatches(tree: Tree, walk: seq<string>, archive: string, c: Codec, w: World) returns (v: Verdict)
    requires Walk(walk, tree)
    ensures v == InstallVerdict(tree, archive, c, w)
  {
    hide MANIFEST_NAME, EntriesVerdict, Stat;
    var manifest := Stat(tree, MANIFEST_NAME, w);
    if manifest.Nothing? { return Mismatch; }
    if manifest.Failed? || !manifest.node.File? { return Unreadable; }
    var decoded := c.decode(manifest.node.content);
    if decoded == None { return Mismatch; }
    var m := decoded.value;
    if m.schemaVersion != SCHEMA_VERSION || m.archive != archive || |m.files| == 0 { return Mismatch; }
    var paths, dirs;
    v, paths, dirs := CheckEntries(tree, m.files, c, w);
    if v != Good { return; }
    for i := 0 to |walk|
      invariant forall j :: 0 <= j < i ==> Expected(tree, walk[j], dirs, paths)
    {
      if !Expected(tree, walk[i], dirs, paths) { return Mismatch; }
    }
    forall p | p in tree ensures Expected(tree, p, dirs, paths) {
      var j :| 0 <= j < |walk| && walk[j] == p;
    }
    return Good;
  }
}
