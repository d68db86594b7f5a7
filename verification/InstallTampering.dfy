/** What the check of an install says about trees that were changed and pins that were
    moved. */
module InstallTampering {
  import opened Prelude
  import opened Text
  import opened ArchiveNames
  import opened FileTree
  import opened Install
  import opened InstallTheorems
  import opened InstallArchive
  import opened InstallStaged

  // ----- What a good verdict means -----------------------------------------------------------------

  /** The text read where the manifest's name leads. */
  function ManifestRead(t: Tree, w: World): Option<string> {
    match Stat(t, MANIFEST_NAME, w)
    case Seen(File(text, _)) => Some(text)
    case _ => None
  }

  /** The recorded entry and what its path leads to agree. */
  predicate Agrees(f: InstalledFile, seen: Seen, c: Codec) {
    && seen.Seen?
    && if f.symlinkTarget != "" then seen.node == Link(f.symlinkTarget) && f.sha256 == "" && f.mode == ""
       else && seen.node.File? && c.hash(seen.node.content) == f.sha256
            && seen.node.mode < 512 && f.mode == FormatMode(seen.node.mode)
  }

  lemma ParsedMode(s: string, mode: nat)
    requires ParseMode(s) == Some(mode)
    ensures mode < 512 && s == FormatMode(mode)
  {
    var a, b, d := s[1] as int - '0' as int, s[2] as int - '0' as int, s[3] as int - '0' as int;
    assert '0' <= s[1] <= '7' && '0' <= s[2] <= '7' && '0' <= s[3] <= '7';
    assert mode == a * 64 + b * 8 + d;
    assert mode / 8 == a * 8 + b && mode % 8 == d && mode / 64 == a && mode / 8 % 8 == b;
  }

  lemma GoodEntry(t: Tree, f: InstalledFile, c: Codec, w: World)
    requires EntryVerdict(t, f, c, w) == Good
    ensures Agrees(f, Lstat(t, f.path, w), c)
    ensures Normalize(f.path) == Ok(f.path) && (f.symlinkTarget != "" ==> TargetAllowed(f.path, f.symlinkTarget))
  {
    hide Lstat, Normalize, TargetAllowed, FormatMode;
    if f.symlinkTarget == "" {
      var node := Lstat(t, f.path, w).node;
      hide ParseMode;
      ParsedMode(f.mode, node.mode);
    }
  }

  /** A good verdict is about this archive: the manifest that is read names it, is of the
      current version and lists something; every entry agrees with what its path leads to,
      no path is listed twice, and the tree holds no other file or symlink, and no directory
      but those above a listed path.  Only the manifest's own name is not looked at. */
  lemma GoodMeans(t: Tree, archive: string, c: Codec, w: World)
    requires InstallVerdict(t, archive, c, w) == Good
    ensures ManifestRead(t, w).Some? && c.decode(ManifestRead(t, w).value).Some?
    ensures var m := c.decode(ManifestRead(t, w).value).value;
            && m.archive == archive && m.schemaVersion == 1 && m.files != [] && UniquePaths(m.files)
            && (forall f :: f in m.files ==> Agrees(f, Lstat(t, f.path, w), c))
            && (forall p :: p in t && p != MANIFEST_NAME && t[p] != Dir ==> exists f :: f in m.files && f.path == p)
            && (forall p :: p in t && p != MANIFEST_NAME && t[p] == Dir ==>
                  exists f :: f in m.files && p in Ancestors(f.path))
  {
    hide MANIFEST_NAME, Stat, EntryVerdict, Agrees, Lstat, EntriesVerdict;
    var m := c.decode(ManifestRead(t, w).value).value;
    EntriesGoodIff(t, m.files, c, w);
    forall f | f in m.files ensures Agrees(f, Lstat(t, f.path, w), c) { GoodEntry(t, f, c, w); }
    forall p | p in t && p != MANIFEST_NAME
      ensures if t[p] == Dir then exists f :: f in m.files && p in Ancestors(f.path)
              else exists f :: f in m.files && f.path == p
    {
      assert Expected(t, p, Directories(m.files), Paths(m.files));
      DirectoriesIff(m.files, p);
      hide Directories, Ancestors;
      if t[p] != Dir {
        var i :| 0 <= i < |m.files| && m.files[i].path == p;
        assert m.files[i] in m.files;
      }
    }
  }

  /** An install without a manifest is a mismatch; one whose manifest is anything but a file,
      or cannot be reached, is an error. */
  lemma WithoutManifest(t: Tree, archive: string, c: Codec, w: World)
    ensures var seen, v := Stat(t, MANIFEST_NAME, w), InstallVerdict(t, archive, c, w);
            && (seen == Nothing ==> v == Mismatch)
            && (seen == Failed || (seen.Seen? && !seen.node.File?) ==> v == Unreadable)
            && (seen.Seen? && seen.node.File? && c.decode(seen.node.content) == None ==> v == Mismatch)
  {
    hide MANIFEST_NAME, Stat;
  }

  // ----- Another pin -------------------------------------------------------------------------------

  lemma InstalledManifest(headers: seq<Header>, format: Format, archive: string, c: Codec, w: World,
                          files: seq<InstalledFile>, result: Tree)
    requires Sound(c) && Installed(headers, format, archive, c, w, files, result)
    requires Locate(Staged(headers, format, w).value, MANIFEST_NAME, true, w) == Outside ==>
               StillOutside(w, ManifestText(archive, files, c))
    ensures ManifestRead(result, w) == Some(ManifestText(archive, files, c))
  {
    var tree, text := Staged(headers, format, w).value, ManifestText(archive, files, c);
    StagedSound(headers, format, w);
    hide Staged, ArchiveTables, Clear, Lists, Sound, MANIFEST_NAME, Locate, WriteFile, ManifestText, WellFormed;
    WriteFileMeans(tree, MANIFEST_NAME, text, w);
  }

  /** An install is recognised under no other pin than its own. */
  lemma OtherPinIsRefused(headers: seq<Header>, format: Format, archive: string, other: string, c: Codec, w: World,
                          files: seq<InstalledFile>, result: Tree)
    requires Sound(c) && Installed(headers, format, archive, c, w, files, result) && other != archive
    requires Locate(Staged(headers, format, w).value, MANIFEST_NAME, true, w) == Outside ==>
               StillOutside(w, ManifestText(archive, files, c))
    ensures InstallVerdict(result, other, c, w) == Mismatch
  {
    InstalledManifest(headers, format, archive, c, w, files, result);
    hide MANIFEST_NAME, Stat, Staged, ArchiveTables, Installed, Locate, StillOutside, EntriesVerdict, NothingElse;
    assert c.decode(ManifestText(archive, files, c)) == Some(Manifest(SCHEMA_VERSION, archive, files));
  }

  // ----- A changed tree ----------------------------------------------------------------------------

  /** The same node, as far as the manifest can tell: a file by its digest and the mode the
      archive gives its name. */
  predicate SameRecorded(was: Node, now: Node, mode: nat, c: Codec) {
    match was
    case Dir => now == Dir
    case Link(target) => now == Link(target)
    case File(content, _) => now.File? && c.hash(now.content) == c.hash(content) && now.mode == mode
  }

  /** Above a leaf of the staged tree a good tree has directories only. */
  lemma NoLinkCreptIn(tree: Tree, t: Tree, p: string, files: seq<InstalledFile>, a: Tables, c: Codec)
    requires WellFormed(tree) && Leaf(tree, p) && Lists(files, tree, a, c) && !IsDir(tree, MANIFEST_NAME)
    requires forall q :: q in t && q != MANIFEST_NAME && t[q] != Dir ==> exists f :: f in files && f.path == q
    ensures NoLinks(t, Ancestors(p))
  {
    NestedDirs(tree, p);
    hide Ancestors, Record, MANIFEST_NAME, WellFormed;
    forall d | d in Ancestors(p) && d in t ensures !t[d].Link? {
      assert tree[d] == Dir && d != MANIFEST_NAME && !Leaf(tree, d);
      assert forall f :: f in files ==> Leaf(tree, f.path);
    }
  }

  lemma FoundInPlace(t: Tree, p: string, w: World)
    requires ProperName(p) && NoLinks(t, Ancestors(p)) && Lstat(t, p, w).Seen?
    ensures p in t && Lstat(t, p, w) == Seen(t[p])
  {
    ProperIsNotRoot(p);
    hide Ancestors, ProperName, Locate;
    LocateNoLinks(t, p, false, w);
  }

  lemma LeafAgrees(tree: Tree, t: Tree, p: string, files: seq<InstalledFile>, a: Tables, c: Codec, w: World)
    requires Sound(c) && WellFormed(tree) && Leaf(tree, p) && Lists(files, tree, a, c) && !IsDir(tree, MANIFEST_NAME)
    requires forall f :: f in files ==> Agrees(f, Lstat(t, f.path, w), c)
    requires forall q :: q in t && q != MANIFEST_NAME && t[q] != Dir ==> exists f :: f in files && f.path == q
    requires tree[p].Link? ==> tree[p].target != ""
    ensures p in t && SameRecorded(tree[p], t[p], ArchiveMode(a, p), c)
  {
    NoLinkCreptIn(tree, t, p, files, a, c);
    assert Nested(tree, p);
    var f := Record(tree, a, c, p);
    assert f in files && f.path == p;
    assert Agrees(f, Lstat(t, f.path, w), c);
    hide WellFormed, Ancestors, Lstat, MANIFEST_NAME, ProperName, Nested, NoLinks;
    FoundInPlace(t, p, w);
    if tree[p].File? {
      ModeRoundTrip(ArchiveMode(a, p));
      ModeRoundTrip(t[p].mode);
      hide FormatMode, ParseMode, ArchiveMode;
    }
  }

  lemma LinkNotEmpty(tree: Tree, a: Tables, p: string)
    requires Inspected(a) && Clear(tree, a) && p in tree && tree[p].Link?
    ensures tree[p].target != ""
  {
    assert InventoryProblem(tree, a, p) == None;
    NotEmpty(p, tree[p].target);
    hide TargetAllowed;
  }

  lemma SameLeaves(tree: Tree, t: Tree, files: seq<InstalledFile>, a: Tables, c: Codec, w: World, p: string)
    requires Sound(c) && Inspected(a) && WellFormed(tree) && Clear(tree, a) && Lists(files, tree, a, c)
    requires !IsDir(tree, MANIFEST_NAME) && p != MANIFEST_NAME
    requires forall f :: f in files ==> Agrees(f, Lstat(t, f.path, w), c)
    requires forall q :: q in t && q != MANIFEST_NAME && t[q] != Dir ==> exists f :: f in files && f.path == q
    ensures Leaf(tree, p) <==> Leaf(t, p)
    ensures Leaf(tree, p) ==> SameRecorded(tree[p], t[p], ArchiveMode(a, p), c)
  {
    if Leaf(tree, p) {
      if tree[p].Link? { LinkNotEmpty(tree, a, p); }
      LeafAgrees(tree, t, p, files, a, c, w);
    }
    hide WellFormed, Agrees, Inspected, Sound, MANIFEST_NAME, Record;
    if Leaf(t, p) {
      var f :| f in files && f.path == p;
    }
  }

  lemma SameDirectories(tree: Tree, t: Tree, files: seq<InstalledFile>, a: Tables, c: Codec, d: string)
    requires WellFormed(t) && Lists(files, tree, a, c) && !IsDir(tree, MANIFEST_NAME) && d != MANIFEST_NAME
    requires forall q :: Leaf(tree, q) && q != MANIFEST_NAME ==> Leaf(t, q)
    requires forall q :: q in t && q != MANIFEST_NAME && t[q] == Dir ==>
               exists f :: f in files && q in Ancestors(f.path)
    ensures HasLeaf(tree, d) <==> d in t && t[d] == Dir
  {
    ManifestNameIsProper();
    hide MANIFEST_NAME, Record, Ancestors;
    if HasLeaf(tree, d) {
      var q :| Leaf(tree, q) && d in Ancestors(q);
      assert q != MANIFEST_NAME;
      NestedDirs(t, q);
    }
    hide WellFormed;
    if d in t && t[d] == Dir {
      var f :| f in files && d in Ancestors(f.path);
      assert Leaf(tree, f.path);
    }
  }

  /** After an install, a tree from which the same manifest is read is recognised only if it
      is what was staged: the same files and symlinks under the same names, each symlink
      with its target, each file with content of the same digest and with the mode the
      archive gives its name, and exactly the directories above them.  So a retargeted
      symlink, a changed content or mode, and an added or removed file, symlink or directory
      are all noticed, other than at the manifest's own name. */
  lemma TamperingIsNoticed(headers: seq<Header>, format: Format, archive: string, c: Codec, w: World,
                           files: seq<InstalledFile>, result: Tree, t: Tree)
    requires Sound(c) && Installed(headers, format, archive, c, w, files, result)
    requires WellFormed(t) && ManifestRead(t, w) == Some(ManifestText(archive, files, c))
    requires InstallVerdict(t, archive, c, w) == Good
    ensures var tree, a := Staged(headers, format, w).value, ArchiveTables(headers, format);
            forall p :: p != MANIFEST_NAME ==>
              && (Leaf(tree, p) <==> Leaf(t, p))
              && (Leaf(tree, p) ==> SameRecorded(tree[p], t[p], ArchiveMode(a, p), c))
              && (HasLeaf(tree, p) <==> p in t && t[p] == Dir)
  {
    var tree, a := Staged(headers, format, w).value, ArchiveTables(headers, format);
    GoodMeans(t, archive, c, w);
    StagedSound(headers, format, w);
    assert c.decode(ManifestText(archive, files, c)) == Some(Manifest(SCHEMA_VERSION, archive, files));
    NotADirectoryThere(tree, ManifestText(archive, files, c), w);
    hide MANIFEST_NAME, Staged, ArchiveTables, Agrees, Inspected, WellFormed, Clear, Lists, Sound, WriteFile, Lstat,
         InstallVerdict, Record, HasLeaf, Leaf, SameRecorded, Ancestors, ManifestText, ManifestRead, ArchiveMode;
    forall p | p != MANIFEST_NAME
      ensures (Leaf(tree, p) <==> Leaf(t, p)) && (Leaf(tree, p) ==> SameRecorded(tree[p], t[p], ArchiveMode(a, p), c))
    {
      SameLeaves(tree, t, files, a, c, w, p);
    }
    forall p | p != MANIFEST_NAME ensures HasLeaf(tree, p) <==> p in t && t[p] == Dir {
      SameDirectories(tree, t, files, a, c, p);
    }
  }
}
