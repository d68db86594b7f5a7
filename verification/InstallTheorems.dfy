/** Installing and then checking the unchanged install: exactly when it is recognised,
    whatever tree was staged. */
module InstallTheorems {
  import opened Prelude
  import opened Text
  import opened ArchiveNames
  import opened FileTree
  import opened Install

  // ----- Conditions on the staged tree -----------------------------------------------------------

  /** Some file or symlink lies beneath the directory. */
  ghost predicate HasLeaf(tree: Tree, d: string) { exists p :: Leaf(tree, p) && d in Ancestors(p) }

  ghost predicate EveryDirectoryUsed(tree: Tree) {
    forall d :: d in tree && tree[d] == Dir ==> HasLeaf(tree, d)
  }

  /** What makes the entry of a leaf pass the check: a name that survives being
      normalised again, and the mode the archive gives that name. */
  ghost predicate Recognised(tree: Tree, a: Tables, p: string)
    requires Leaf(tree, p)
  {
    !IsBlank(p) && (tree[p].File? ==> tree[p].mode == ArchiveMode(a, p))
  }

  ghost predicate EveryLeafRecognised(tree: Tree, a: Tables) {
    forall p :: Leaf(tree, p) ==> Recognised(tree, a, p)
  }

  /** The manifest's name leads to the manifest's own place, still free, or to a file that
      hashes like the manifest, or out of the tree. */
  ghost predicate ManifestFits(tree: Tree, text: string, c: Codec, w: World) {
    match Locate(tree, MANIFEST_NAME, true, w)
    case At(p) => if p in tree then tree[p].File? && c.hash(text) == c.hash(tree[p].content) else p == MANIFEST_NAME
    case Outside => true
    case _ => false
  }

  // ----- Entries -----------------------------------------------------------------------------------

  lemma NormalNameStable(p: string)
    ensures NormalName(p) ==> (Normalize(p) == Ok(p) <==> !IsBlank(p))
  {
    if NormalName(p) {
      var raw :| Normalize(raw) == Ok(p);
      NormalizeIdempotentIff(raw);
    }
  }

  lemma NotEmpty(entry: string, target: string)
    ensures TargetAllowed(entry, target) ==> target != ""
  {
  }

  lemma RecordForm(tree: Tree, a: Tables, c: Codec, p: string)
    requires Sound(c) && Inspected(a) && Leaf(tree, p) && InventoryProblem(tree, a, p) == None
    ensures FormOk(Record(tree, a, c, p)) <==> !IsBlank(p)
    ensures tree[p].File? ==> ParseMode(Record(tree, a, c, p).mode) == Some(ArchiveMode(a, p))
    ensures tree[p].Link? ==> tree[p].target != ""
  {
    NormalNameStable(p);
    hide Normalize, NormalName, IsBlank;
    match tree[p] {
      case Link(target) =>
        NotEmpty(p, target);
        hide TargetAllowed;
      case File(content, _) =>
        ModeRoundTrip(ArchiveMode(a, p));
        hide FormatMode, ParseMode, TargetAllowed, ArchiveMode;
        assert HexDigest(c.hash(content));
        hide HexDigest;
    }
  }

  /** The entry of a leaf checked against a tree that has `now` in its place, where `now`
      is the leaf itself or the same file with other content. */
  lemma EntryIff(tree: Tree, t: Tree, a: Tables, c: Codec, w: World, p: string)
    requires Sound(c) && Inspected(a) && Leaf(tree, p) && InventoryProblem(tree, a, p) == None
    requires WellFormed(t) && p in t
    requires t[p] == tree[p] || (t[p].File? && tree[p].File? && t[p].mode == tree[p].mode)
    ensures EntryVerdict(t, Record(tree, a, c, p), c, w) == Good
            <==> Recognised(tree, a, p) && (tree[p].File? ==> c.hash(t[p].content) == c.hash(tree[p].content))
  {
    RecordForm(tree, a, c, p);
    LstatReal(t, p, w);
    hide FormOk, Lstat, WellFormed, IsBlank, FormatMode, ParseMode, ArchiveMode, Sound, Inspected;
  }

  lemma {:induction false} EntriesGoodIff(tree: Tree, files: seq<InstalledFile>, c: Codec, w: World)
    ensures EntriesVerdict(tree, files, c, w) == Good
            <==> UniquePaths(files) && forall f :: f in files ==> EntryVerdict(tree, f, c, w) == Good
  {
    hide EntryVerdict;
    if files != [] {
      var front, last := files[..|files| - 1], files[|files| - 1];
      EntriesGoodIff(tree, front, c, w);
      UniqueStep(front, last);
      assert files == front + [last];
      assert forall f :: f in files <==> f in front || f == last;
      hide UniquePaths, Paths;
    }
  }

  lemma UniqueStep(files: seq<InstalledFile>, f: InstalledFile)
    ensures UniquePaths(files + [f]) <==> UniquePaths(files) && f.path !in Paths(files)
  {
    var more := files + [f];
    assert forall i :: 0 <= i < |files| ==> more[i] == files[i];
    assert more[|files|] == f;
    if UniquePaths(files) && f.path !in Paths(files) {
      assert forall i :: 0 <= i < |files| ==> files[i].path in Paths(files);
    }
  }

  // ----- The walk ---------------------------------------------------------------------------------

  lemma {:induction false} DirectoriesIff(files: seq<InstalledFile>, d: string)
    ensures d in Directories(files) <==> exists f :: f in files && d in Ancestors(f.path)
  {
    hide Ancestors;
    if files != [] {
      var front, last := files[..|files| - 1], files[|files| - 1];
      DirectoriesIff(front, d);
      assert forall f :: f in files <==> f in front || f == last by {
        assert files == front + [last];
      }
    }
  }

  lemma ListedDirectories(tree: Tree, a: Tables, c: Codec, files: seq<InstalledFile>, d: string)
    requires Lists(files, tree, a, c)
    ensures d in Directories(files) <==> HasLeaf(tree, d)
  {
    DirectoriesIff(files, d);
    hide Directories, Ancestors;
    if HasLeaf(tree, d) {
      var p :| Leaf(tree, p) && d in Ancestors(p);
      assert Record(tree, a, c, p) in files && Record(tree, a, c, p).path == p;
    }
  }

  lemma ListedPaths(tree: Tree, a: Tables, c: Codec, files: seq<InstalledFile>, p: string)
    requires Lists(files, tree, a, c)
    ensures p in Paths(files) <==> Leaf(tree, p)
  {
    if Leaf(tree, p) {
      var f := Record(tree, a, c, p);
      assert f.path == p;
      var i :| 0 <= i < |files| && files[i] == f;
    }
    if p in Paths(files) {
      var i :| 0 <= i < |files| && files[i].path == p;
      assert files[i] in files;
    }
  }

  /** t is the tree, possibly with one more leaf at p. */
  ghost predicate LeafAdded(tree: Tree, t: Tree, p: string) {
    && (forall q :: q in tree ==> q in t && (t[q] == Dir <==> tree[q] == Dir))
    && (forall q :: q in t ==> q in tree || (q == p && t[q] != Dir))
  }

  /** The walk finds nothing unexpected exactly when every directory of the staged tree is
      used and a leaf that was added is the manifest in its own place. */
  lemma WalkIff(tree: Tree, t: Tree, a: Tables, c: Codec, files: seq<InstalledFile>, p: string)
    requires Lists(files, tree, a, c) && LeafAdded(tree, t, p) && !IsDir(tree, MANIFEST_NAME)
    ensures NothingElse(t, files) <==> EveryDirectoryUsed(tree) && (p in t && p !in tree ==> p == MANIFEST_NAME)
  {
    forall q ensures (q in Directories(files) <==> HasLeaf(tree, q)) && (q in Paths(files) <==> Leaf(tree, q)) {
      ListedDirectories(tree, a, c, files, q);
      ListedPaths(tree, a, c, files, q);
    }
    hide Directories, Paths, HasLeaf, Lists, MANIFEST_NAME;
    if NothingElse(t, files) {
      forall d | d in tree && tree[d] == Dir ensures HasLeaf(tree, d) {
        assert Expected(t, d, Directories(files), Paths(files));
      }
      if p in t && p !in tree { assert Expected(t, p, Directories(files), Paths(files)); }
    }
  }

  // ----- The whole check ----------------------------------------------------------------------------

  /** The files as they are after the manifest was written where its name leads. */
  ghost predicate Written(tree: Tree, t: Tree, p: string, text: string) {
    && t == tree[p := File(text, if p in tree && tree[p].File? then tree[p].mode else 420)]
    && (p in tree ==> tree[p].File?)
  }

  lemma LeafVerdict(tree: Tree, t: Tree, a: Tables, c: Codec, w: World, p: string, text: string, q: string)
    requires Sound(c) && Inspected(a) && Clear(tree, a) && WellFormed(t) && Leaf(tree, q)
    requires t == tree || Written(tree, t, p, text)
    ensures EntryVerdict(t, Record(tree, a, c, q), c, w) == Good
            <==> Recognised(tree, a, q) && (t != tree && q == p ==> c.hash(text) == c.hash(tree[p].content))
  {
    assert InventoryProblem(tree, a, q) == None;
    hide Clear, WellFormed, Sound, Inspected, Recognised, EntryVerdict, Record, InventoryProblem;
    EntryIff(tree, t, a, c, w, q);
  }

  /** All entries pass exactly when every leaf is recognised and the manifest replaced
      nothing that hashes differently. */
  lemma EntriesIff(tree: Tree, t: Tree, a: Tables, c: Codec, w: World, files: seq<InstalledFile>, p: string,
                   text: string)
    requires Sound(c) && Inspected(a) && Clear(tree, a) && WellFormed(t) && Lists(files, tree, a, c)
    requires t == tree || Written(tree, t, p, text)
    ensures EntriesVerdict(t, files, c, w) == Good
            <==> EveryLeafRecognised(tree, a) && (t != tree && p in tree ==> c.hash(text) == c.hash(tree[p].content))
  {
    EntriesGoodIff(t, files, c, w);
    forall q | Leaf(tree, q)
      ensures EntryVerdict(t, Record(tree, a, c, q), c, w) == Good
              <==> Recognised(tree, a, q) && (t != tree && q == p ==> c.hash(text) == c.hash(tree[p].content))
    {
      LeafVerdict(tree, t, a, c, w, p, text, q);
    }
    if t != tree && p in tree { assert Leaf(tree, p); }
    hide EntryVerdict, Recognised, Record, Sound, Inspected, Clear, WellFormed, EntriesVerdict, UniquePaths, Written,
         Leaf;
    if EveryLeafRecognised(tree, a) && (t != tree && p in tree ==> c.hash(text) == c.hash(tree[p].content)) {
      forall f | f in files ensures EntryVerdict(t, f, c, w) == Good {
        assert Leaf(tree, f.path) && f == Record(tree, a, c, f.path);
        LeafIsNode(tree, f.path);
      }
    }
    if forall f :: f in files ==> EntryVerdict(t, f, c, w) == Good {
      forall q | Leaf(tree, q) ensures EntryVerdict(t, Record(tree, a, c, q), c, w) == Good {
        assert Record(tree, a, c, q) in files;
      }
    }
  }

  lemma PinnedVerdict(t: Tree, archive: string, c: Codec, w: World, m: Manifest, mode: nat)
    requires Stat(t, MANIFEST_NAME, w) == Seen(File(c.encode(m), mode)) && c.decode(c.encode(m)) == Some(m)
    requires Pinned(m, archive)
    ensures InstallVerdict(t, archive, c, w) == Good
            <==> EntriesVerdict(t, m.files, c, w) == Good && NothingElse(t, m.files)
  {
    hide Stat, EntriesVerdict, NothingElse, MANIFEST_NAME;
  }

  /** A manifest that was written out of the tree is still there. */
  predicate StillOutside(w: World, text: string) {
    var seen := w.peek(MANIFEST_NAME);
    seen.Some? && seen.value.File? && seen.value.content == text
  }

  /** For any staged tree that passes the inventory, wherever its symlinks lead: the
      unchanged install is recognised exactly when every directory holds a file or symlink,
      every file has on disk the mode the archive gives its name, no name is only white
      space, and the manifest was written to its own place. */
  lemma StagedTreeMatchesIff(tree: Tree, a: Tables, c: Codec, w: World, archive: string, files: seq<InstalledFile>)
    requires Sound(c) && Inspected(a) && WellFormed(tree) && Clear(tree, a) && Lists(files, tree, a, c) && files != []
    requires WriteFile(tree, MANIFEST_NAME, c.encode(Manifest(SCHEMA_VERSION, archive, files)), w).Ok?
    requires Locate(tree, MANIFEST_NAME, true, w) == Outside ==>
               StillOutside(w, c.encode(Manifest(SCHEMA_VERSION, archive, files)))
    ensures var text := c.encode(Manifest(SCHEMA_VERSION, archive, files));
            InstallVerdict(WriteFile(tree, MANIFEST_NAME, text, w).value, archive, c, w) == Good
            <==> EveryDirectoryUsed(tree) && EveryLeafRecognised(tree, a) && ManifestFits(tree, text, c, w)
  {
    var m := Manifest(SCHEMA_VERSION, archive, files);
    var text := c.encode(m);
    assert c.decode(text) == Some(m);
    WriteFileMeans(tree, MANIFEST_NAME, text, w);
    NotADirectoryThere(tree, text, w);
    hide MANIFEST_NAME, WriteFile, Locate, Sound, Inspected, Clear, Lists, EveryDirectoryUsed, EveryLeafRecognised,
         EntriesVerdict, NothingElse, InstallVerdict, WellFormed, IsDir;
    var t, r := WriteFile(tree, MANIFEST_NAME, text, w).value, Locate(tree, MANIFEST_NAME, true, w);
    if r == Outside {
      assert Stat(t, MANIFEST_NAME, w) == Seen(w.peek(MANIFEST_NAME).value);
      WrittenOutside(tree, a, c, w, archive, m, w.peek(MANIFEST_NAME).value.mode);
    } else {
      assert Stat(t, MANIFEST_NAME, w) == Seen(t[r.name]);
      WrittenAt(tree, t, a, c, w, archive, m, r.name);
    }
  }

  lemma WrittenOutside(tree: Tree, a: Tables, c: Codec, w: World, archive: string, m: Manifest, mode: nat)
    requires Sound(c) && Inspected(a) && WellFormed(tree) && Clear(tree, a) && Lists(m.files, tree, a, c)
    requires Pinned(m, archive) && c.decode(c.encode(m)) == Some(m) && !IsDir(tree, MANIFEST_NAME)
    requires Stat(tree, MANIFEST_NAME, w) == Seen(File(c.encode(m), mode))
    ensures InstallVerdict(tree, archive, c, w) == Good <==> EveryDirectoryUsed(tree) && EveryLeafRecognised(tree, a)
  {
    hide MANIFEST_NAME, Stat, Sound, Inspected, Clear, Lists, EveryDirectoryUsed, EveryLeafRecognised,
         EntriesVerdict, NothingElse, InstallVerdict, WellFormed, IsDir;
    PinnedVerdict(tree, archive, c, w, m, mode);
    EntriesIff(tree, tree, a, c, w, m.files, MANIFEST_NAME, c.encode(m));
    WalkIff(tree, tree, a, c, m.files, MANIFEST_NAME);
  }

  lemma WrittenAt(tree: Tree, t: Tree, a: Tables, c: Codec, w: World, archive: string, m: Manifest, p: string)
    requires Sound(c) && Inspected(a) && WellFormed(t) && Clear(tree, a) && Lists(m.files, tree, a, c)
    requires Pinned(m, archive) && c.decode(c.encode(m)) == Some(m) && !IsDir(tree, MANIFEST_NAME)
    requires Written(tree, t, p, c.encode(m)) && Stat(t, MANIFEST_NAME, w) == Seen(t[p])
    ensures InstallVerdict(t, archive, c, w) == Good
            <==> EveryDirectoryUsed(tree) && EveryLeafRecognised(tree, a)
                 && if p in tree then c.hash(c.encode(m)) == c.hash(tree[p].content) else p == MANIFEST_NAME
  {
    hide MANIFEST_NAME, Stat, Sound, Inspected, Clear, Lists, EveryDirectoryUsed, EveryLeafRecognised,
         EntriesVerdict, NothingElse, InstallVerdict, WellFormed, IsDir, Pinned;
    PinnedVerdict(t, archive, c, w, m, t[p].mode);
    EntriesIff(tree, t, a, c, w, m.files, p, c.encode(m));
    assert LeafAdded(tree, t, p);
    WalkIff(tree, t, a, c, m.files, p);
  }

  lemma NotADirectoryThere(tree: Tree, text: string, w: World)
    requires WellFormed(tree) && WriteFile(tree, MANIFEST_NAME, text, w).Ok?
    ensures !IsDir(tree, MANIFEST_NAME)
  {
    ManifestNameIsProper();
    if IsDir(tree, MANIFEST_NAME) {
      NestedDirs(tree, MANIFEST_NAME);
      LocateDirs(tree, MANIFEST_NAME, true, w);
    }
  }

  lemma ManifestNameIsProper()
    ensures ProperSegment(MANIFEST_NAME) && ProperName(MANIFEST_NAME)
    ensures MANIFEST_NAME != "." && Ancestors(MANIFEST_NAME) == {}
  {
    hide Split, LastSlash, Ancestors, PathDirectory, ProperName;
    assert |MANIFEST_NAME| > 2 && '/' !in MANIFEST_NAME;
    assert ProperSegment(MANIFEST_NAME);
    hide MANIFEST_NAME;
    SimpleName(MANIFEST_NAME);
  }
}
