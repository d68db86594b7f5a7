/** What single entries and short archives leave behind when names lead through symlinks. */
module InstallAliases {
  import opened Prelude
  import opened Text
  import opened ArchiveNames
  import opened FileTree
  import opened Install
  import opened InstallTheorems
  import opened InstallArchive

  // ----- Where short names lead ------------------------------------------------------------------

  lemma LocateOne(tree: Tree, s: string, last: bool, w: World)
    requires ProperSegment(s)
    ensures s !in tree || !tree[s].Link? || !last ==> Locate(tree, s, last, w) == At(s)
  {
    SplitWhole(s, '/');
    hide Split;
    assert [s][1..] == [] && Child(".", s) == s;
    assert Follow(tree, s, [], last, w.linkLimit) == At(s);
  }

  lemma NestedName(d: string, f: string)
    requires ProperSegment(d) && ProperSegment(f)
    ensures var p := d + "/" + f;
            Split(p, '/') == [d, f] && PathDirectory(p) == d && PathDirectory(d) == "." && p != "." && p != d
            && Child(d, f) == p
  {
    SplitWhole(d, '/');
    SplitSnoc(d, f);
    ChildParent(d, f);
    ChildParent(".", d);
  }

  lemma LocateTwo(tree: Tree, d: string, f: string, w: World)
    requires ProperSegment(d) && ProperSegment(f) && d in tree && tree[d] == Dir
    requires var p := d + "/" + f; p in tree ==> tree[p].File?
    ensures Locate(tree, d + "/" + f, true, w) == At(d + "/" + f)
  {
    NestedName(d, f);
    hide Split, PathDirectory;
    assert [d, f][1..] == [f] && [f][1..] == [];
    assert Follow(tree, d, [f], true, w.linkLimit) == At(d + "/" + f);
  }

  /** Through a link l to directory d, the name l/f leads to d/f. */
  lemma LocateThrough(tree: Tree, d: string, l: string, f: string, w: World)
    requires ProperSegment(d) && ProperSegment(l) && ProperSegment(f) && w.linkLimit >= 1
    requires d in tree && tree[d] == Dir && l in tree && tree[l] == Link(d)
    requires var p := d + "/" + f; p in tree ==> tree[p].File?
    ensures Locate(tree, l, true, w) == At(d)
    ensures Locate(tree, l + "/" + f, true, w) == At(d + "/" + f)
  {
    NestedName(l, f);
    NestedName(d, f);
    SplitWhole(d, '/');
    SplitWhole(l, '/');
    hide Split, PathDirectory;
    FollowThrough(tree, d, l, [], d, w.linkLimit);
    assert [l] + [] == [l] && [l] + [f] == [l, f];
    NestedFollow(tree, d, f, w.linkLimit - 1);
    FollowThrough(tree, d, l, [f], d + "/" + f, w.linkLimit);
  }

  lemma NestedFollow(tree: Tree, d: string, f: string, b: nat)
    requires ProperSegment(d) && ProperSegment(f) && d in tree && tree[d] == Dir && d != "."
    requires var p := d + "/" + f; p in tree ==> tree[p].File?
    ensures Follow(tree, d, [f], true, b) == At(d + "/" + f)
  {
    assert [f][1..] == [];
  }

  /** The link l is replaced by the directory it names. */
  lemma FollowThrough(tree: Tree, d: string, l: string, rest: seq<string>, there: string, limit: nat)
    requires ProperSegment(d) && ProperSegment(l) && limit >= 1 && Split(d, '/') == [d]
    requires d in tree && tree[d] == Dir && l in tree && tree[l] == Link(d)
    requires Follow(tree, d, rest, true, limit - 1) == At(there)
    ensures Follow(tree, ".", [l] + rest, true, limit) == At(there)
  {
    hide Split, PathDirectory;
    assert ([l] + rest)[1..] == rest && ([d] + rest)[1..] == rest;
    assert Follow(tree, ".", [d] + rest, true, limit - 1) == At(there);
  }

  // ----- What single entries do -------------------------------------------------------------------

  lemma PlaceNested(tree: Tree, d: string, f: string, content: string, mode: nat, w: World)
    requires ProperSegment(d) && ProperSegment(f) && (d in tree ==> tree[d] == Dir)
    requires var p := d + "/" + f; p in tree ==> tree[p].File?
    ensures Placed(tree, Entry(d + "/" + f, mode, Regular(content)), w)
            == Ok(tree[d := Dir][d + "/" + f := File(content, mode)])
  {
    NestedName(d, f);
    LocateOne(tree, d, true, w);
    LocateOne(tree, d, false, w);
    var t := tree[d := Dir];
    LocateTwo(t, d, f, w);
    hide Locate, Split, PathDirectory;
    assert d in tree ==> tree == t;
    assert MkdirAll(tree, d, w) == Ok(t);
  }

  lemma PlaceLink(tree: Tree, l: string, target: string, mode: nat, w: World)
    requires ProperSegment(l) && l !in tree
    ensures Placed(tree, Entry(l, mode, Symlink(target)), w) == Ok(tree[l := Link(target)])
  {
    LocateOne(tree, l, false, w);
    ChildParent(".", l);
    hide Locate, PathDirectory;
  }

  lemma PlaceDirectory(tree: Tree, d: string, mode: nat, w: World)
    requires ProperSegment(d) && d !in tree
    ensures Placed(tree, Entry(d, mode, Directory), w) == Ok(tree[d := Dir])
  {
    LocateOne(tree, d, true, w);
    LocateOne(tree, d, false, w);
    ChildParent(".", d);
    hide Locate, PathDirectory;
    assert Parents(tree, d, w) == Ok(tree) && Mkdir(tree, d, w) == Ok(tree[d := Dir]);
    assert MkdirAll(tree, d, w) == Ok(tree[d := Dir]);
  }

  lemma PlaceFile(tree: Tree, f: string, content: string, mode: nat, w: World)
    requires ProperSegment(f) && f !in tree
    ensures Placed(tree, Entry(f, mode, Regular(content)), w) == Ok(tree[f := File(content, mode)])
  {
    LocateOne(tree, f, true, w);
    ChildParent(".", f);
    hide Locate, PathDirectory;
  }

  /** A file entry beneath a symlink overwrites the file the link leads to, mode and all. */
  lemma PlaceThrough(tree: Tree, d: string, l: string, f: string, content: string, mode: nat, w: World)
    requires ProperSegment(d) && ProperSegment(l) && ProperSegment(f) && w.linkLimit >= 1
    requires d in tree && tree[d] == Dir && l in tree && tree[l] == Link(d)
    requires var p := d + "/" + f; p in tree ==> tree[p].File?
    ensures Placed(tree, Entry(l + "/" + f, mode, Regular(content)), w) == Ok(tree[d + "/" + f := File(content, mode)])
  {
    NestedName(l, f);
    NestedName(d, f);
    LocateThrough(tree, d, l, f, w);
    hide Locate, Split, PathDirectory;
    assert MkdirAll(tree, l, w) == Ok(tree);
  }

  // ----- Three archives ------------------------------------------------------------------------------

  /** d/f, a link l to d, and l/f with another mode. */
  function ModeClash(d: string, l: string, f: string, x: string, y: string, m: nat, n: nat): seq<Entry> {
    [Entry(d + "/" + f, m, Regular(x)), Entry(l, 511, Symlink(d)), Entry(l + "/" + f, n, Regular(y))]
  }

  lemma ClashNames(d: string, l: string, f: string)
    requires ProperSegment(l)
    ensures l != d + "/" + f && d != d + "/" + f
  {
    var p := d + "/" + f;
    assert p[|d|] == '/';
    assert |p| > |d|;
  }

  lemma FirstPlaced(d: string, l: string, f: string, x: string, m: nat, w: World) returns (t: Tree)
    requires ProperSegment(d) && ProperSegment(l) && ProperSegment(f) && d != l
    ensures Placed(map[], Entry(d + "/" + f, m, Regular(x)), w) == Ok(t)
    ensures t == map[d := Dir, d + "/" + f := File(x, m)] && l !in t
  {
    var none: Tree := map[];
    ClashNames(d, l, f);
    PlaceNested(none, d, f, x, m, w);
    hide Placed, ProperSegment;
    t := none[d := Dir][d + "/" + f := File(x, m)];
  }

  lemma RestPlaced(t1: Tree, d: string, l: string, f: string, y: string, n: nat, w: World)
    requires ProperSegment(d) && ProperSegment(l) && ProperSegment(f) && d != l && w.linkLimit >= 1
    requires d in t1 && t1[d] == Dir && l !in t1
    requires var p := d + "/" + f; p != l && (p in t1 ==> t1[p].File?)
    ensures var t2 := t1[l := Link(d)];
            && Placed(t1, Entry(l, 511, Symlink(d)), w) == Ok(t2)
            && Placed(t2, Entry(l + "/" + f, n, Regular(y)), w) == Ok(t2[d + "/" + f := File(y, n)])
  {
    hide *;
    PlaceLink(t1, l, d, 511, w);
    PlaceThrough(t1[l := Link(d)], d, l, f, y, n, w);
  }

  lemma ClashMap(d: string, p: string, l: string, was: Node, now: Node)
    requires d != p && l != p && d != l
    ensures var t: Tree := map[d := Dir, p := was];
            t[l := Link(d)][p := now] == map[d := Dir, p := now, l := Link(d)]
  {
  }

  lemma ClashTree(d: string, l: string, f: string, x: string, y: string, m: nat, n: nat, w: World)
    requires ProperSegment(d) && ProperSegment(l) && ProperSegment(f) && d != l && w.linkLimit >= 1
    ensures ExtractAll(ModeClash(d, l, f, x, y, m, n), w)
            == Ok(map[d := Dir, d + "/" + f := File(y, n), l := Link(d)])
  {
    var p := d + "/" + f;
    var order := [Entry(p, m, Regular(x)), Entry(l, 511, Symlink(d)), Entry(l + "/" + f, n, Regular(y))];
    assert order == ModeClash(d, l, f, x, y, m, n);
    hide *;
    ClashNames(d, l, f);
    var t1 := FirstPlaced(d, l, f, x, m, w);
    ClashMap(d, p, l, File(x, m), File(y, n));
    RestPlaced(t1, d, l, f, y, n, w);
    Chain(order, w, t1, t1[l := Link(d)], t1[l := Link(d)][p := File(y, n)]);
  }

  lemma Chain(order: seq<Entry>, w: World, t1: Tree, t2: Tree, t3: Tree)
    requires |order| == 3 && Placed(map[], order[0], w) == Ok(t1) && Placed(t1, order[1], w) == Ok(t2)
    requires Placed(t2, order[2], w) == Ok(t3)
    ensures ExtractAll(order, w) == Ok(t3)
  {
    hide Placed;
    assert order[..2][..1] == order[..1] && order[..1][..0] == [];
    assert ExtractAll(order[..0], w) == Ok(map[]);
    assert ExtractAll(order[..1], w) == Ok(t1);
    assert ExtractAll(order[..2], w) == Ok(t2);
  }

  /** Such an archive unpacks, everything on disk is declared, its entries meet every
      condition that suffices without aliases, and yet d/f carries on disk the mode of l/f. */
  lemma ClashUnrecognised(d: string, l: string, f: string, x: string, y: string, m: nat, n: nat, w: World)
    requires ProperSegment(d) && ProperSegment(l) && ProperSegment(f) && d != l && w.linkLimit >= 1
    requires m < 512 && n < 512 && m != n
    ensures var order := ModeClash(d, l, f, x, y, m, n);
            && ExtractAll(order, w).Ok?
            && Clear(ExtractAll(order, w).value, TablesOf(order))
            && NoBareDirectory(order)
            && !EveryLeafRecognised(ExtractAll(order, w).value, TablesOf(order))
  {
    var order, p, q := ModeClash(d, l, f, x, y, m, n), d + "/" + f, l + "/" + f;
    ClashTree(d, l, f, x, y, m, n, w);
    NoSlashEqual(d, l, f);
    ClashTables(order, p, l, q, d, m, n);
    assert l != p by { assert p[|d|] == '/'; }
    assert d != p by { assert |p| > |d|; }
    hide ExtractAll, TablesOf, ProperSegment;
    ClashNodes(d, p, l, q, y, m, n);
    assert NoBareDirectory(order) by { hide Ancestors; }
  }

  lemma ClashNodes(d: string, p: string, l: string, q: string, y: string, m: nat, n: nat)
    requires d != p && l != p && d != l && m < 512 && n < 512 && m != n && p != q
    ensures var t: Tree, a := map[d := Dir, p := File(y, n), l := Link(d)], Tables(map[p := m, q := n], map[l := d]);
            Clear(t, a) && !EveryLeafRecognised(t, a)
  {
    var t: Tree, a := map[d := Dir, p := File(y, n), l := Link(d)], Tables(map[p := m, q := n], map[l := d]);
    assert Leaf(t, p) && !Recognised(t, a, p);
  }

  lemma NoSlashEqual(d: string, l: string, f: string)
    requires ProperSegment(d) && ProperSegment(l) && ProperSegment(f) && d != l
    ensures d + "/" + f != l + "/" + f
  {
    NestedName(d, f);
    NestedName(l, f);
  }

  lemma ClashTables(order: seq<Entry>, p: string, l: string, q: string, d: string, m: nat, n: nat)
    requires |order| == 3 && p != q
    requires order[0].name == p && order[0].kind.Regular? && order[0].mode == m
    requires order[1].name == l && order[1].kind == Symlink(d)
    requires order[2].name == q && order[2].kind.Regular? && order[2].mode == n
    ensures TablesOf(order) == Tables(map[p := m, q := n], map[l := d])
  {
    assert order[..2][..1] == order[..1] && order[..1][..0] == [];
    assert TablesOf(order[..0]) == Tables(map[], map[]);
    assert TablesOf(order[..1]) == Tables(map[p := m], map[]);
    assert TablesOf(order[..2]) == Tables(map[p := m], map[l := d]);
  }

  /** Directory d, a link l to it, and l/f: what is written through the link is a file the
      archive does not declare under its own name, and the inventory refuses it. */
  lemma AliasUndeclared(d: string, l: string, f: string, y: string, n: nat, w: World)
    requires ProperSegment(d) && ProperSegment(l) && ProperSegment(f) && d != l && w.linkLimit >= 1
    ensures var order := [Entry(d, 493, Directory), Entry(l, 511, Symlink(d)), Entry(l + "/" + f, n, Regular(y))];
            ExtractAll(order, w).Ok? && !Clear(ExtractAll(order, w).value, TablesOf(order))
  {
    var order := [Entry(d, 493, Directory), Entry(l, 511, Symlink(d)), Entry(l + "/" + f, n, Regular(y))];
    var p, q := d + "/" + f, l + "/" + f;
    NestedName(d, f);
    NestedName(l, f);
    NoSlashEqual(d, l, f);
    var t1: Tree := map[d := Dir];
    var t2: Tree := t1[l := Link(d)];
    assert p !in t2 by { ClashNames(d, l, f); }
    hide Placed, Split, PathDirectory, ExtractAll, ProperSegment;
    PlaceDirectory(map[], d, 493, w);
    PlaceLink(t1, l, d, 511, w);
    PlaceThrough(t2, d, l, f, y, n, w);
    assert map[][d := Dir] == t1;
    Chain(order, w, t1, t2, t2[p := File(y, n)]);
    assert order[..2][..1] == order[..1] && order[..1][..0] == [];
    assert TablesOf(order[..1]).modes == map[] && TablesOf(order[..2]).modes == map[];
    assert p !in TablesOf(order).modes;
    hide TablesOf;
    var t := ExtractAll(order, w).value;
    assert InventoryProblem(t, TablesOf(order), p) == Some(NoFile(p));
  }

  /** With a root symlink named like the manifest that leads to a free name, the manifest is
      written there and does not fit. */
  lemma WrittenThroughLink(tree: Tree, to: string, text: string, c: Codec, w: World)
    requires WellFormed(tree) && ProperSegment(to) && to !in tree && to != MANIFEST_NAME && w.linkLimit >= 1
    requires MANIFEST_NAME in tree && tree[MANIFEST_NAME] == Link(to)
    ensures WriteFile(tree, MANIFEST_NAME, text, w) == Ok(tree[to := File(text, 420)])
    ensures !ManifestFits(tree, text, c, w)
  {
    ManifestNameIsProper();
    hide MANIFEST_NAME;
    SplitWhole(MANIFEST_NAME, '/');
    SplitWhole(to, '/');
    hide Split, PathDirectory;
    var b := w.linkLimit - 1;
    assert [MANIFEST_NAME][1..] == [] && [to] + [] == [to] && [to][1..] == [];
    assert Follow(tree, ".", [to], true, b) == At(to);
    assert Locate(tree, MANIFEST_NAME, true, w) == At(to);
  }
}
