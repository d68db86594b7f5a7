/** Archives, from their headers to the verdict of the check: why an install can be
    refused, misplaced or not recognised. */
module InstallWitnesses {
  import opened Prelude
  import opened Text
  import opened Sequences
  import opened ArchiveNames
  import opened FileTree
  import opened Install
  import opened InstallTheorems
  import opened InstallArchive
  import opened Containment
  import opened InstallStaged
  import opened InstallAliases

  // ----- Inspecting plain names ----------------------------------------------------------------

  /** A name of one component that inspection leaves as it is. */
  predicate Plain(s: string) { PlainSegment(s) && !IsBlank(s) }

  lemma PlainNormal(ss: seq<string>)
    requires PlainSegments(ss) && ss != [] && !IsBlank(Join(ss, '/'))
    ensures Normalize(Join(ss, '/')) == Ok(Join(ss, '/'))
  {
    PlainJoined(ss);
    assert ".." !in ss by {
      forall i | 0 <= i < |ss| ensures ss[i] != ".." { assert PlainSegment(ss[i]); }
    }
    hide Clean, Join, Replace;
  }

  lemma PlainOne(s: string)
    requires Plain(s)
    ensures Normalize(s) == Ok(s) && ProperSegment(s)
  {
    assert Join([s], '/') == s;
    PlainNormal([s]);
  }

  /** A slash is no space, so a longer name is never blank. */
  lemma PlainLonger(front: seq<string>, s: string)
    requires PlainSegments(front) && front != [] && PlainSegment(s)
    ensures var n := Join(front, '/') + "/" + s;
            Join(front + [s], '/') == n && Normalize(n) == Ok(n)
  {
    var n := Join(front, '/') + "/" + s;
    JoinSnoc(front, s);
    assert n[|Join(front, '/')|] == '/' && !IsSpace('/');
    PlainNormal(front + [s]);
  }

  lemma {:induction false} JoinSnoc(front: seq<string>, s: string)
    requires front != []
    ensures Join(front + [s], '/') == Join(front, '/') + "/" + s
  {
    if |front| > 1 {
      JoinSnoc(front[1..], s);
      assert (front + [s])[1..] == front[1..] + [s];
    } else {
      assert (front + [s])[1..] == [s];
    }
  }

  lemma PlainTwo(d: string, f: string)
    requires PlainSegment(d) && PlainSegment(f)
    ensures Normalize(d + "/" + f) == Ok(d + "/" + f)
  {
    assert Join([d], '/') == d;
    PlainLonger([d], f);
  }

  /** A header that inspection turns into the entry. */
  predicate Becomes(h: Header, e: Entry) {
    && Normalize(h.name) == Ok(e.name) && KindProblem(h, e.name, TarGz) == None
    && e == Entry(e.name, PermOrDefault(h.mode, h.kind == Directory), h.kind)
  }

  lemma {:induction false} Inspects(headers: seq<Header>, entries: seq<Entry>)
    requires |headers| == |entries| && UniqueNames(entries)
    requires forall i :: 0 <= i < |headers| ==> Becomes(headers[i], entries[i])
    ensures InspectAll(headers, TarGz) == Ok(entries)
  {
    hide Normalize, KindProblem;
    if headers != [] {
      var front := entries[..|entries| - 1];
      Inspects(headers[..|headers| - 1], front);
      assert entries == front + [entries[|entries| - 1]];
    }
  }

  /** A link beside its target is accepted. */
  lemma SiblingAllowed(l: string, to: string)
    requires ProperSegment(l) && Plain(to)
    ensures TargetAllowed(l, to)
  {
    SimpleName(l);
    ChildParent(".", l);
    SplitWhole(".", '/');
    SplitWhole(to, '/');
    assert Replace(to, '\\', '/') == to;
    var segs := [".", to];
    assert segs[..1][..0] == [] && Cleaned(segs[..1]) == [];
    assert Cleaned(segs) == [to];
    assert ["."] + [to] == segs;
  }

  lemma FileBecomes(name: string, content: string, m: nat)
    requires Normalize(name) == Ok(name) && 0 < m < 512
    ensures Becomes(Header(name, Regular(content), m), Entry(name, m, Regular(content)))
  {
    hide Normalize;
  }

  lemma LinkBecomes(l: string, to: string)
    requires Plain(l) && Plain(to)
    ensures Becomes(Header(l, Symlink(to), 511), Entry(l, 511, Symlink(to)))
  {
    hide *;
    PlainOne(l);
    SiblingAllowed(l, to);
    LinkEntry(l, to);
  }

  lemma DirectoryBecomes(d: string)
    requires Plain(d)
    ensures Becomes(Header(d, Directory, 493), Entry(d, 493, Directory))
  {
    PlainOne(d);
    hide Normalize;
  }

  lemma InspectsTwo(headers: seq<Header>, entries: seq<Entry>)
    requires |headers| == |entries| == 2 && entries[0].name != entries[1].name
    requires Becomes(headers[0], entries[0]) && Becomes(headers[1], entries[1])
    ensures InspectAll(headers, TarGz) == Ok(entries)
  {
    hide Becomes, InspectAll;
    Inspects(headers, entries);
  }

  lemma InspectsThree(headers: seq<Header>, entries: seq<Entry>)
    requires |headers| == |entries| == 3 && entries[0].name != entries[1].name
    requires entries[0].name != entries[2].name && entries[1].name != entries[2].name
    requires Becomes(headers[0], entries[0]) && Becomes(headers[1], entries[1]) && Becomes(headers[2], entries[2])
    ensures InspectAll(headers, TarGz) == Ok(entries)
  {
    hide Becomes, InspectAll;
    Inspects(headers, entries);
  }

  // ----- An install that goes through ------------------------------------------------------------

  lemma {:induction false} WalkExists(names: set<string>) returns (walk: seq<string>)
    ensures NoRepeats(walk) && forall p :: p in walk <==> p in names
    decreases |names|
  {
    if names == {} {
      walk := [];
    } else {
      var p :| p in names;
      walk := WalkExists(names - {p});
      walk := walk + [p];
    }
  }

  /** The list an inventory makes, for any tree. */
  lemma Listable(tree: Tree, a: Tables, c: Codec) returns (files: seq<InstalledFile>)
    ensures Lists(files, tree, a, c)
  {
    var walk := WalkExists(tree.Keys);
    files := [];
    hide Record, UniquePaths, Sorted;
    assert Recorded(files, tree, a, c, []) by { NothingRecorded(tree, a, c); }
    hide Recorded, Lists, Leaf;
    for i := 0 to |walk|
      invariant Recorded(files, tree, a, c, walk[..i])
    {
      assert walk[..i + 1] == walk[..i] + [walk[i]];
      assert walk[i] !in walk[..i];
      if Leaf(tree, walk[i]) {
        RecordedAppend(files, tree, a, c, walk[..i], walk[i]);
        files := files + [Record(tree, a, c, walk[i])];
      } else {
        RecordedSkip(files, tree, a, c, walk[..i], walk[i]);
      }
    }
    assert walk[..|walk|] == walk;
    RecordedSorted(files, tree, a, c, walk);
    files := Sorted(files, ByPath);
  }

  lemma NothingRecorded(tree: Tree, a: Tables, c: Codec)
    ensures Recorded([], tree, a, c, [])
  {
  }

  /** An archive that unpacks to declared leaves, at least one, and to a tree in which the
      manifest can be written, installs. */
  lemma Installs(headers: seq<Header>, archive: string, c: Codec, w: World, p: string)
    returns (files: seq<InstalledFile>, result: Tree)
    requires Staged(headers, TarGz, w).Ok?
    requires var tree := Staged(headers, TarGz, w).value;
             Clear(tree, ArchiveTables(headers, TarGz)) && Leaf(tree, p) && ManifestWritable(tree, w)
    ensures Installed(headers, TarGz, archive, c, w, files, result)
  {
    var tree, a := Staged(headers, TarGz, w).value, ArchiveTables(headers, TarGz);
    hide Staged, ArchiveTables, Clear, Leaf, MANIFEST_NAME, WriteFile, ManifestText;
    files := Listable(tree, a, c);
    ListedLeaf(files, tree, a, c);
    hide Lists;
    AnyText(tree, ManifestText(archive, files, c), w);
    result := WriteFile(tree, MANIFEST_NAME, ManifestText(archive, files, c), w).value;
  }

  lemma StagedFrom(headers: seq<Header>, entries: seq<Entry>, w: World)
    requires InspectAll(headers, TarGz) == Ok(entries) && ExtractAll(entries, w).Ok?
    ensures Staged(headers, TarGz, w) == Ok(ExtractAll(entries, w).value)
    ensures ArchiveTables(headers, TarGz) == TablesOf(entries)
  {
    hide InspectAll, ExtractAll, TablesOf;
  }

  lemma ManifestIsPlain()
    ensures Plain(MANIFEST_NAME)
  {
    assert MANIFEST_NAME[0] == '.' && !IsSpace('.');
  }

  /** With its place free, the manifest can be written. */
  lemma FreePlace(tree: Tree, w: World)
    requires MANIFEST_NAME !in tree
    ensures ManifestWritable(tree, w) && Locate(tree, MANIFEST_NAME, true, w) == At(MANIFEST_NAME)
  {
    ManifestNameIsProper();
    hide MANIFEST_NAME;
    LocateOne(tree, MANIFEST_NAME, true, w);
    hide Locate;
  }

  // ----- Written through a link of its own -------------------------------------------------------

  /** d/f, a link l to d, and l/f with another mode. */
  function ClashHeaders(d: string, l: string, f: string, x: string, y: string, m: nat, n: nat): seq<Header> {
    [Header(d + "/" + f, Regular(x), m), Header(l, Symlink(d), 511), Header(l + "/" + f, Regular(y), n)]
  }

  lemma ClashInspects(d: string, l: string, f: string, x: string, y: string, m: nat, n: nat)
    requires Plain(d) && Plain(l) && PlainSegment(f) && d != l && 0 < m < 512 && 0 < n < 512
    ensures InspectAll(ClashHeaders(d, l, f, x, y, m, n), TarGz) == Ok(ModeClash(d, l, f, x, y, m, n))
  {
    PlainOne(l);
    PlainOne(d);
    PlainTwo(d, f);
    PlainTwo(l, f);
    ClashNames(d, l, f);
    ClashNames(l, l, f);
    NoSlashEqual(d, l, f);
    hide Normalize, TargetAllowed, Plain, PlainSegment, ProperSegment, InspectAll, Becomes;
    FileBecomes(d + "/" + f, x, m);
    LinkBecomes(l, d);
    FileBecomes(l + "/" + f, y, n);
    InspectsThree(ClashHeaders(d, l, f, x, y, m, n), ModeClash(d, l, f, x, y, m, n));
  }

  lemma ClashStaged(d: string, l: string, f: string, x: string, y: string, m: nat, n: nat, w: World)
    requires Plain(d) && Plain(l) && PlainSegment(f) && d != l && 0 < m < 512 && 0 < n < 512 && w.linkLimit >= 1
    ensures var headers := ClashHeaders(d, l, f, x, y, m, n);
            && Staged(headers, TarGz, w) == Ok(map[d := Dir, d + "/" + f := File(y, n), l := Link(d)])
            && ArchiveTables(headers, TarGz) == TablesOf(ModeClash(d, l, f, x, y, m, n))
  {
    PlainOne(l);
    PlainOne(d);
    assert ProperSegment(f);
    hide *;
    ClashInspects(d, l, f, x, y, m, n);
    ClashTree(d, l, f, x, y, m, n, w);
    StagedFrom(ClashHeaders(d, l, f, x, y, m, n), ModeClash(d, l, f, x, y, m, n), w);
  }

  /** Such an archive passes inspection and installs, and the unchanged install is not
      recognised: d/f carries on disk the mode of l/f.  Its entries meet every condition
      that suffices without aliases. */
  lemma ClashIsNotRecognised(d: string, l: string, f: string, x: string, y: string, m: nat, n: nat, archive: string,
                             c: Codec, w: World)
    returns (files: seq<InstalledFile>, result: Tree)
    requires Plain(d) && Plain(l) && PlainSegment(f) && d != l && d != MANIFEST_NAME && l != MANIFEST_NAME
    requires 0 < m < 512 && 0 < n < 512 && m != n && w.linkLimit >= 1 && Sound(c)
    ensures var headers := ClashHeaders(d, l, f, x, y, m, n);
            && InspectAll(headers, TarGz) == Ok(ModeClash(d, l, f, x, y, m, n))
            && NoBareDirectory(ModeClash(d, l, f, x, y, m, n))
            && Installed(headers, TarGz, archive, c, w, files, result)
            && InstallVerdict(result, archive, c, w) != Good
  {
    var headers, p := ClashHeaders(d, l, f, x, y, m, n), d + "/" + f;
    var tree: Tree := map[d := Dir, p := File(y, n), l := Link(d)];
    PlainOne(l);
    PlainOne(d);
    assert ProperSegment(f);
    assert p != MANIFEST_NAME by { SlashApart(d, f); }
    assert Leaf(tree, p) && MANIFEST_NAME !in tree;
    hide *;
    ClashInspects(d, l, f, x, y, m, n);
    ClashStaged(d, l, f, x, y, m, n, w);
    ClashUnrecognised(d, l, f, x, y, m, n, w);
    ClashTree(d, l, f, x, y, m, n, w);
    FreePlace(tree, w);
    files, result := Installs(headers, archive, c, w, p);
    InstallRoundTrip(headers, TarGz, archive, c, w, files, result);
  }

  lemma SlashApart(d: string, f: string)
    ensures d + "/" + f != MANIFEST_NAME
  {
    var p := d + "/" + f;
    assert p[|d|] == '/' && '/' in p;
    assert '/' !in MANIFEST_NAME by { ManifestNameIsProper(); }
  }

  /** Directory d, a link l to it, and l/f: what is written through the link is a file the
      archive does not declare under its own name.  The archive passes inspection and
      unpacks, and the inventory refuses it. */
  lemma AliasFailsInventory(d: string, l: string, f: string, y: string, n: nat, w: World)
    requires Plain(d) && Plain(l) && PlainSegment(f) && d != l && 0 < n < 512 && w.linkLimit >= 1
    ensures var headers := [Header(d, Directory, 493), Header(l, Symlink(d), 511), Header(l + "/" + f, Regular(y), n)];
            && Staged(headers, TarGz, w).Ok?
            && !Clear(Staged(headers, TarGz, w).value, ArchiveTables(headers, TarGz))
  {
    var headers := [Header(d, Directory, 493), Header(l, Symlink(d), 511), Header(l + "/" + f, Regular(y), n)];
    var entries := [Entry(d, 493, Directory), Entry(l, 511, Symlink(d)), Entry(l + "/" + f, n, Regular(y))];
    PlainOne(l);
    PlainOne(d);
    assert ProperSegment(f);
    PlainTwo(l, f);
    ClashNames(l, d, f);
    hide *;
    DirectoryBecomes(d);
    LinkBecomes(l, d);
    FileBecomes(l + "/" + f, y, n);
    InspectsThree(headers, entries);
    AliasUndeclared(d, l, f, y, n, w);
    StagedFrom(headers, entries, w);
  }

  // ----- A manifest written elsewhere ------------------------------------------------------------

  lemma TwoPlaced(order: seq<Entry>, w: World, t1: Tree, t2: Tree)
    requires |order| == 2 && Placed(map[], order[0], w) == Ok(t1) && Placed(t1, order[1], w) == Ok(t2)
    ensures ExtractAll(order, w) == Ok(t2)
  {
    hide Placed;
    assert order[..1][..0] == [];
    assert ExtractAll(order[..0], w) == Ok(map[]);
    assert ExtractAll(order[..1], w) == Ok(t1);
  }

  lemma LinkStaged(l: string, to: string, f: string, x: string, m: nat, w: World)
    requires Plain(l) && Plain(to) && Plain(f) && to != l && f != l && 0 < m < 512
    ensures var headers := [Header(l, Symlink(to), 511), Header(f, Regular(x), m)];
            && InspectAll(headers, TarGz).Ok?
            && Staged(headers, TarGz, w) == Ok(map[l := Link(to)][f := File(x, m)])
            && Clear(map[l := Link(to)][f := File(x, m)], ArchiveTables(headers, TarGz))
  {
    var headers := [Header(l, Symlink(to), 511), Header(f, Regular(x), m)];
    var entries := [Entry(l, 511, Symlink(to)), Entry(f, m, Regular(x))];
    var none: Tree := map[];
    var t1 := none[l := Link(to)];
    PlainOne(l);
    PlainOne(f);
    LinkTables(entries, l, f, m, to);
    LinkClear(l, f, x, m, to);
    assert map[l := Link(to)] == t1;
    hide *;
    LinkBecomes(l, to);
    FileBecomes(f, x, m);
    InspectsTwo(headers, entries);
    PlaceLink(none, l, to, 511, w);
    PlaceFile(t1, f, x, m, w);
    TwoPlaced(entries, w, t1, t1[f := File(x, m)]);
    StagedFrom(headers, entries, w);
  }

  /** A root symlink named like the manifest to a free name, and a file: the archive passes
      inspection and installs, the manifest is written where the link leads, and the
      unchanged install is not recognised. */
  lemma ManifestThroughLink(to: string, f: string, x: string, m: nat, archive: string, c: Codec, w: World)
    returns (files: seq<InstalledFile>, result: Tree)
    requires Plain(to) && Plain(f) && to != MANIFEST_NAME && f != MANIFEST_NAME && to != f
    requires 0 < m < 512 && w.linkLimit >= 1 && Sound(c)
    ensures var headers := [Header(MANIFEST_NAME, Symlink(to), 511), Header(f, Regular(x), m)];
            && InspectAll(headers, TarGz).Ok?
            && Installed(headers, TarGz, archive, c, w, files, result)
            && to in result && result[to] == File(ManifestText(archive, files, c), 420)
            && InstallVerdict(result, archive, c, w) != Good
  {
    ManifestIsPlain();
    hide *;
    hide MANIFEST_NAME;
    files, result := LinkRecorded(MANIFEST_NAME, to, f, x, m, archive, c, w);
  }

  lemma LinkRecorded(l: string, to: string, f: string, x: string, m: nat, archive: string, c: Codec, w: World)
    returns (files: seq<InstalledFile>, result: Tree)
    requires l == MANIFEST_NAME && Plain(l) && Plain(to) && Plain(f) && to != l && f != l && to != f
    requires 0 < m < 512 && w.linkLimit >= 1 && Sound(c)
    ensures var headers := [Header(l, Symlink(to), 511), Header(f, Regular(x), m)];
            && InspectAll(headers, TarGz).Ok?
            && Installed(headers, TarGz, archive, c, w, files, result)
            && to in result && result[to] == File(ManifestText(archive, files, c), 420)
            && InstallVerdict(result, archive, c, w) != Good
  {
    var headers := [Header(l, Symlink(to), 511), Header(f, Regular(x), m)];
    var tree: Tree := map[l := Link(to)][f := File(x, m)];
    hide *;
    hide MANIFEST_NAME;
    PlainOne(to);
    LinkStaged(l, to, f, x, m, w);
    files, result := LinkInstalls(headers, tree, to, f, archive, c, w);
  }

  lemma LinkInstalls(headers: seq<Header>, tree: Tree, to: string, f: string, archive: string, c: Codec, w: World)
    returns (files: seq<InstalledFile>, result: Tree)
    requires Staged(headers, TarGz, w) == Ok(tree) && Clear(tree, ArchiveTables(headers, TarGz))
    requires MANIFEST_NAME in tree && tree[MANIFEST_NAME] == Link(to) && f in tree && tree[f].File?
    requires ProperSegment(to) && to !in tree && to != MANIFEST_NAME && w.linkLimit >= 1 && Sound(c)
    ensures Installed(headers, TarGz, archive, c, w, files, result)
    ensures to in result && result[to] == File(ManifestText(archive, files, c), 420)
    ensures InstallVerdict(result, archive, c, w) != Good
  {
    assert Leaf(tree, f);
    hide *;
    StagedSound(headers, TarGz, w);
    WrittenThroughLink(tree, to, "", c, w);
    WritableAs(tree, w);
    files, result := Installs(headers, archive, c, w, f);
    WrittenThroughLink(tree, to, ManifestText(archive, files, c), c, w);
    ResultIs(headers, archive, c, w, files, result, tree);
    InstallRoundTrip(headers, TarGz, archive, c, w, files, result);
  }

  lemma WritableAs(tree: Tree, w: World)
    ensures ManifestWritable(tree, w) <==> WriteFile(tree, MANIFEST_NAME, "", w).Ok?
  {
  }

  lemma ResultIs(headers: seq<Header>, archive: string, c: Codec, w: World, files: seq<InstalledFile>, result: Tree,
                 tree: Tree)
    requires Installed(headers, TarGz, archive, c, w, files, result) && Staged(headers, TarGz, w) == Ok(tree)
    ensures WriteFile(tree, MANIFEST_NAME, ManifestText(archive, files, c), w) == Ok(result)
  {
  }

  lemma LinkTables(entries: seq<Entry>, l: string, f: string, m: nat, to: string)
    requires |entries| == 2 && entries[0].name == l && entries[0].kind == Symlink(to)
    requires entries[1].name == f && entries[1].kind.Regular? && entries[1].mode == m
    ensures TablesOf(entries) == Tables(map[f := m], map[l := to])
  {
    assert entries[..1][..0] == [];
    assert TablesOf(entries[..0]) == Tables(map[], map[]);
    assert TablesOf(entries[..1]) == Tables(map[], map[l := to]);
  }

  lemma LinkClear(l: string, f: string, x: string, m: nat, to: string)
    requires f != l
    ensures var t: Tree := map[l := Link(to)];
            Clear(t[f := File(x, m)], Tables(map[f := m], map[l := to]))
  {
  }

  // ----- An empty directory ----------------------------------------------------------------------

  /** A directory entry with nothing beneath it, and a file: the archive passes inspection
      and installs, and the unchanged install is not recognised. */
  lemma BareDirectory(d: string, f: string, x: string, m: nat, archive: string, c: Codec, w: World)
    returns (files: seq<InstalledFile>, result: Tree)
    requires Plain(d) && Plain(f) && d != MANIFEST_NAME && f != MANIFEST_NAME && d != f && 0 < m < 512 && Sound(c)
    ensures var headers := [Header(d, Directory, 493), Header(f, Regular(x), m)];
            && InspectAll(headers, TarGz).Ok?
            && Installed(headers, TarGz, archive, c, w, files, result)
            && InstallVerdict(result, archive, c, w) != Good
  {
    var headers := [Header(d, Directory, 493), Header(f, Regular(x), m)];
    var tree: Tree := map[d := Dir][f := File(x, m)];
    assert Leaf(tree, f) && MANIFEST_NAME !in tree by { hide MANIFEST_NAME; }
    BareUnused(d, f, x, m);
    hide *;
    BareStaged(d, f, x, m, w);
    FreePlace(tree, w);
    files, result := Installs(headers, archive, c, w, f);
    InstallRoundTrip(headers, TarGz, archive, c, w, files, result);
  }

  lemma BareStaged(d: string, f: string, x: string, m: nat, w: World)
    requires Plain(d) && Plain(f) && d != f && 0 < m < 512
    ensures var headers := [Header(d, Directory, 493), Header(f, Regular(x), m)];
            && InspectAll(headers, TarGz).Ok?
            && Staged(headers, TarGz, w) == Ok(map[d := Dir][f := File(x, m)])
            && Clear(map[d := Dir][f := File(x, m)], ArchiveTables(headers, TarGz))
  {
    var headers := [Header(d, Directory, 493), Header(f, Regular(x), m)];
    var entries := [Entry(d, 493, Directory), Entry(f, m, Regular(x))];
    var none: Tree := map[];
    var t1 := none[d := Dir];
    PlainOne(d);
    PlainOne(f);
    BareTables(entries, f, m);
    BareClear(d, f, x, m);
    assert map[d := Dir] == t1;
    hide *;
    DirectoryBecomes(d);
    FileBecomes(f, x, m);
    InspectsTwo(headers, entries);
    PlaceDirectory(none, d, 493, w);
    PlaceFile(t1, f, x, m, w);
    TwoPlaced(entries, w, t1, t1[f := File(x, m)]);
    StagedFrom(headers, entries, w);
  }

  lemma BareTables(entries: seq<Entry>, f: string, m: nat)
    requires |entries| == 2 && entries[0].kind == Directory
    requires entries[1].name == f && entries[1].kind.Regular? && entries[1].mode == m
    ensures TablesOf(entries) == Tables(map[f := m], map[])
  {
    assert entries[..1][..0] == [];
    assert TablesOf(entries[..0]) == Tables(map[], map[]);
    assert TablesOf(entries[..1]) == Tables(map[], map[]);
  }

  lemma BareClear(d: string, f: string, x: string, m: nat)
    requires d != f
    ensures var t: Tree := map[d := Dir]; Clear(t[f := File(x, m)], Tables(map[f := m], map[]))
  {
  }

  lemma BareUnused(d: string, f: string, x: string, m: nat)
    requires Plain(d) && Plain(f) && d != f
    ensures var t: Tree := map[d := Dir]; !EveryDirectoryUsed(t[f := File(x, m)])
  {
    var t: Tree := map[d := Dir][f := File(x, m)];
    SimpleName(f);
    hide Plain, Ancestors;
    assert d in t && t[d] == Dir && !HasLeaf(t, d);
  }

  // ----- A name that leads out -------------------------------------------------------------------

  /** a/b names the root, a/b/c two levels up, and a/b/c/x a file: every target resolves to
      the root when read beneath its own entry. */
  function ClimbEntries(a: string, b: string, c: string, x: string, text: string, m: nat): seq<Entry> {
    [Entry(a + "/" + b, 511, Symlink("..")), Entry(a + "/" + b + "/" + c, 511, Symlink("../..")),
     Entry(a + "/" + b + "/" + c + "/" + x, m, Regular(text))]
  }

  function ClimbHeaders(a: string, b: string, c: string, x: string, text: string, m: nat): seq<Header> {
    [Header(a + "/" + b, Symlink(".."), 511), Header(a + "/" + b + "/" + c, Symlink("../.."), 511),
     Header(a + "/" + b + "/" + c + "/" + x, Regular(text), m)]
  }

  /** The names, their components and their parents. */
  lemma ClimbNames(a: string, b: string, c: string, x: string)
    requires ProperSegment(a) && ProperSegment(b) && ProperSegment(c) && ProperSegment(x)
    ensures var p, q := a + "/" + b, a + "/" + b + "/" + c;
            && Split(p, '/') == [a, b] && Split(q, '/') == [a, b, c] && Split(q + "/" + x, '/') == [a, b, c, x]
            && PathDirectory(q + "/" + x) == q && PathDirectory(q) == p && PathDirectory(p) == a
            && PathDirectory(a) == "."
            && p != "." && q != "." && |a| < |p| < |q| < |q + "/" + x|
  {
    var p, q := a + "/" + b, a + "/" + b + "/" + c;
    NestedName(a, b);
    SplitSnoc(p, c);
    SplitSnoc(q, x);
    assert |q| > |p| > 1;
    hide Split, PathDirectory;
    ChildParent(p, c);
    ChildParent(q, x);
  }

  lemma DotsAllowed(entry: string, target: string)
    requires target != "" && target[0] == '.' && '\\' !in target && ':' !in target
    requires Cleaned(Split(PathDirectory(entry), '/') + Split(target, '/')) == []
    ensures TargetAllowed(entry, target)
  {
    assert Replace(target, '\\', '/') == target;
    assert !IsSpace('.');
    hide Split, PathDirectory, Replace, IsSpace, Cleaned;
  }

  lemma ClimbTargets(a: string, b: string, c: string)
    requires ProperSegment(a) && ProperSegment(b) && ProperSegment(c)
    ensures TargetAllowed(a + "/" + b, "..") && TargetAllowed(a + "/" + b + "/" + c, "../..")
  {
    ClimbNames(a, b, c, "x");
    SplitWhole(a, '/');
    UpOnce(a);
    UpTwice(a, b);
    DotSplits();
    hide Split, PathDirectory, Cleaned, TargetAllowed, ProperSegment;
    DotsAllowed(a + "/" + b, "..");
    DotsAllowed(a + "/" + b + "/" + c, "../..");
  }

  lemma DotSplits()
    ensures Split("..", '/') == [".."] && Split("../..", '/') == ["..", ".."]
  {
    SplitWhole("..", '/');
    SplitPrefix("..", "..", '/');
    assert ".." + ['/'] + ".." == "../..";
  }

  lemma UpOnce(a: string)
    requires ProperSegment(a)
    ensures Cleaned([a] + [".."]) == []
  {
    var ss := [a] + [".."];
    assert ss[..1] == [a] && [a][..0] == [];
    assert Cleaned([a][..0]) == [] && Cleaned([a]) == [a];
  }

  lemma UpTwice(a: string, b: string)
    requires ProperSegment(a) && ProperSegment(b)
    ensures Cleaned([a, b] + ["..", ".."]) == []
  {
    var ss := [a, b] + ["..", ".."];
    assert ss[..3] == [a, b, ".."] && [a, b, ".."][..2] == [a, b] && [a, b][..1] == [a] && [a][..0] == [];
    assert Cleaned([a][..0]) == [] && Cleaned([a]) == [a];
    assert Cleaned([a, b]) == [a, b];
    assert Cleaned([a, b, ".."]) == [a];
  }

  /** The first two entries: a link to the root, and through it a link made at the root. */
  lemma ClimbPlaced(a: string, b: string, c: string, w: World) returns (t1: Tree, t2: Tree)
    requires ProperSegment(a) && ProperSegment(b) && ProperSegment(c) && a != c && w.linkLimit >= 1
    ensures t1 == map[a := Dir, a + "/" + b := Link("..")] && t2 == t1[c := Link("../..")] && c !in t1
    ensures Placed(map[], Entry(a + "/" + b, 511, Symlink("..")), w) == Ok(t1)
    ensures Placed(t1, Entry(a + "/" + b + "/" + c, 511, Symlink("../..")), w) == Ok(t2)
  {
    var none: Tree := map[];
    var p := a + "/" + b;
    assert c != p by { assert p[|a|] == '/'; }
    t1 := map[a := Dir, p := Link("..")];
    t2 := t1[c := Link("../..")];
    assert none[a := Dir][p := Link("..")] == t1;
    hide *;
    FirstLink(a, b, w);
    SecondLink(t1, a, b, c, w);
  }

  lemma SecondLink(t: Tree, a: string, b: string, c: string, w: World)
    requires ProperSegment(a) && ProperSegment(b) && ProperSegment(c) && w.linkLimit >= 1
    requires a in t && t[a] == Dir && a + "/" + b in t && t[a + "/" + b] == Link("..") && c !in t
    ensures Placed(t, Entry(a + "/" + b + "/" + c, 511, Symlink("../..")), w) == Ok(t[c := Link("../..")])
  {
    assert c != ".";
    ClimbNames(a, b, c, "x");
    UpAgain(t, a, b, c, w);
    hide Split, PathDirectory, Locate, ProperSegment;
    assert MkdirAll(t, a + "/" + b, w) == Ok(t);
  }

  lemma FirstLink(a: string, b: string, w: World)
    requires ProperSegment(a) && ProperSegment(b)
    ensures var none: Tree := map[];
            Placed(none, Entry(a + "/" + b, 511, Symlink("..")), w) == Ok(none[a := Dir][a + "/" + b := Link("..")])
  {
    var none: Tree := map[];
    var t := none[a := Dir];
    NestedName(a, b);
    LocateOne(none, a, true, w);
    LocateOne(none, a, false, w);
    hide Split, PathDirectory;
    assert [a, b][1..] == [b] && [b][1..] == [];
    assert Follow(t, a, [b], false, w.linkLimit) == At(a + "/" + b);
    assert Locate(t, a + "/" + b, false, w) == At(a + "/" + b);
    hide Locate;
    assert MkdirAll(none, a, w) == Ok(t);
  }

  /** Through a/b the walk is back at the root. */
  lemma UpAgain(t: Tree, a: string, b: string, c: string, w: World)
    requires ProperSegment(a) && ProperSegment(b) && ProperSegment(c) && w.linkLimit >= 1
    requires a in t && t[a] == Dir && a + "/" + b in t && t[a + "/" + b] == Link("..") && c !in t
    ensures Locate(t, a + "/" + b, true, w) == At(".")
    ensures Locate(t, a + "/" + b + "/" + c, false, w) == At(c)
  {
    ClimbNames(a, b, c, "x");
    hide Split, PathDirectory;
    assert [a, b][1..] == [b] && [b][1..] == [] && [a, b, c][1..] == [b, c] && [b, c][1..] == [c] && [c][1..] == [];
    UpHome(t, a, b, [], true, w.linkLimit);
    UpHome(t, a, b, [c], false, w.linkLimit);
    assert [b] + [] == [b] && [b] + [c] == [b, c];
  }

  lemma UpHome(t: Tree, a: string, b: string, rest: seq<string>, last: bool, limit: nat)
    requires ProperSegment(a) && ProperSegment(b) && limit >= 1 && (rest == [] ==> last)
    requires a in t && t[a] == Dir && a + "/" + b in t && t[a + "/" + b] == Link("..")
    ensures Follow(t, a, [b] + rest, last, limit) == Follow(t, ".", rest, last, limit - 1)
  {
    NestedName(a, b);
    DotSplits();
    hide Split, PathDirectory;
    assert ([b] + rest)[1..] == rest && ([".."] + rest)[1..] == rest;
    assert Follow(t, a, [".."] + rest, last, limit - 1) == Follow(t, ".", rest, last, limit - 1);
  }

  /** The file's name then leads two levels above the root. */
  lemma ClimbStrays(t: Tree, a: string, b: string, c: string, x: string, w: World)
    requires ProperSegment(a) && ProperSegment(b) && ProperSegment(c) && ProperSegment(x) && w.linkLimit >= 2
    requires a in t && t[a] == Dir && a + "/" + b in t && t[a + "/" + b] == Link("..")
    requires c in t && t[c] == Link("../..")
    ensures Locate(t, a + "/" + b + "/" + c + "/" + x, true, w) == Outside
  {
    ClimbNames(a, b, c, x);
    DotSplits();
    hide Split, PathDirectory;
    var limit := w.linkLimit;
    UpHome(t, a, b, [c, x], true, limit);
    assert [b] + [c, x] == [b, c, x] && [a, b, c, x][1..] == [b, c, x] && [c, x][1..] == [x];
    assert (["..", ".."] + [x])[0] == "..";
    assert Follow(t, ".", ["..", ".."] + [x], true, limit - 2) == Outside;
    assert Follow(t, ".", [c, x], true, limit - 1) == Outside;
  }

  /** Such an archive passes inspection, as each target resolves inside when read beneath
      its own entry, and its last entry leads out of the tree: what extraction does depends
      on what is outside. */
  lemma InspectionIsNotContainment(a: string, b: string, c: string, x: string, text: string, m: nat, w: World)
    requires PlainSegment(a) && PlainSegment(b) && PlainSegment(c) && PlainSegment(x) && a != c
    requires 0 < m < 512 && w.linkLimit >= 2
    ensures var headers, entries := ClimbHeaders(a, b, c, x, text, m), ClimbEntries(a, b, c, x, text, m);
            && InspectAll(headers, TarGz) == Ok(entries)
            && !StaysInside(entries, w)
            && exists v: World :: v.linkLimit == w.linkLimit && Staged(headers, TarGz, v) != Staged(headers, TarGz, w)
  {
    var headers, entries := ClimbHeaders(a, b, c, x, text, m), ClimbEntries(a, b, c, x, text, m);
    ClimbInspects(a, b, c, x, text, m);
    assert ProperSegment(a) && ProperSegment(b) && ProperSegment(c) && ProperSegment(x);
    hide *;
    var t1, t2 := ClimbPlaced(a, b, c, w);
    ClimbStrays(t2, a, b, c, x, w);
    LastOfThree(entries, w, t1, t2);
    ExtractionContainedIff(headers, TarGz, w);
    TarOrder(entries);
  }

  lemma TarOrder(entries: seq<Entry>)
    ensures ExtractionOrder(TarGz, entries) == entries
  {
  }

  lemma LastOfThree(order: seq<Entry>, w: World, t1: Tree, t2: Tree)
    requires |order| == 3 && Placed(map[], order[0], w) == Ok(t1) && Placed(t1, order[1], w) == Ok(t2)
    requires Strays(t2, order[2], w)
    ensures !StaysInside(order, w)
  {
    hide Placed, Strays;
    TwoPlaced(order[..2], w, t1, t2);
    assert StraysAt(order, 2, w);
  }

  lemma ClimbInspects(a: string, b: string, c: string, x: string, text: string, m: nat)
    requires PlainSegment(a) && PlainSegment(b) && PlainSegment(c) && PlainSegment(x) && 0 < m < 512
    ensures InspectAll(ClimbHeaders(a, b, c, x, text, m), TarGz) == Ok(ClimbEntries(a, b, c, x, text, m))
  {
    assert ProperSegment(a) && ProperSegment(b) && ProperSegment(c) && ProperSegment(x);
    hide *;
    ClimbNormal(a, b, c, x);
    ClimbNames(a, b, c, x);
    ClimbTargets(a, b, c);
    LinkEntry(a + "/" + b, "..");
    LinkEntry(a + "/" + b + "/" + c, "../..");
    FileBecomes(a + "/" + b + "/" + c + "/" + x, text, m);
    ClimbLists(a, b, c, x, text, m);
    InspectsThree(ClimbHeaders(a, b, c, x, text, m), ClimbEntries(a, b, c, x, text, m));
  }

  lemma ClimbLists(a: string, b: string, c: string, x: string, text: string, m: nat)
    ensures var p, q := a + "/" + b, a + "/" + b + "/" + c;
            var headers, entries := ClimbHeaders(a, b, c, x, text, m), ClimbEntries(a, b, c, x, text, m);
            && |headers| == |entries| == 3
            && headers[0] == Header(p, Symlink(".."), 511) && entries[0] == Entry(p, 511, Symlink(".."))
            && headers[1] == Header(q, Symlink("../.."), 511) && entries[1] == Entry(q, 511, Symlink("../.."))
            && headers[2] == Header(q + "/" + x, Regular(text), m) && entries[2] == Entry(q + "/" + x, m, Regular(text))
  {
  }

  lemma ClimbNormal(a: string, b: string, c: string, x: string)
    requires PlainSegment(a) && PlainSegment(b) && PlainSegment(c) && PlainSegment(x)
    ensures var p, q := a + "/" + b, a + "/" + b + "/" + c;
            Normalize(p) == Ok(p) && Normalize(q) == Ok(q) && Normalize(q + "/" + x) == Ok(q + "/" + x)
  {
    assert Join([a], '/') == a && [a] + [b] == [a, b] && [a, b] + [c] == [a, b, c];
    hide Normalize, PlainSegment, Join;
    PlainLonger([a], b);
    PlainLonger([a, b], c);
    PlainLonger([a, b, c], x);
  }

  lemma LinkEntry(name: string, target: string)
    requires Normalize(name) == Ok(name) && TargetAllowed(name, target)
    ensures Becomes(Header(name, Symlink(target), 511), Entry(name, 511, Symlink(target)))
  {
    hide Normalize, TargetAllowed;
  }
}
