/** Exactly when an archive without aliases can be extracted. */
module InstallExtraction {
  import opened Prelude
  import opened Text
  import opened ArchiveNames
  import opened FileTree
  import opened Install
  import opened InstallArchive
  import opened Containment

  // ----- Making directories succeeds -------------------------------------------------------------

  /** What stands at the names are directories only. */
  ghost predicate OnlyDirs(tree: Tree, names: set<string>) { forall d :: d in names && d in tree ==> tree[d] == Dir }

  lemma {:induction false} MkdirAllSucceeds(tree: Tree, name: string, w: World)
    requires WellFormed(tree) && ProperName(name) && OnlyDirs(tree, Ancestors(name) + {name})
    ensures MkdirAll(tree, name, w) == Ok(WithDirs(tree, Ancestors(name) + {name}))
    decreases |name|
  {
    ProperIsNotRoot(name);
    MkdirAllPlain(tree, name, w);
    hide Locate, Mkdir, ProperName, MkdirAll, WellFormed, Split, Ancestors, Parents, WithDirs;
    if name in tree {
      NestedDirs(tree, name);
      LocateNoLinks(tree, name, true, w);
      ExistingDirectory(tree, name, w);
    } else {
      LocateNoLinks(tree, name, true, w);
      MkdirAllMissing(tree, name, w);
      ParentsSucceed(tree, name, w);
      NotOwnAncestor(name);
      MkdirLast(tree, WithDirs(tree, Ancestors(name)), name, w);
    }
  }

  lemma ExistingDirectory(tree: Tree, name: string, w: World)
    requires Locate(tree, name, true, w) == At(name) && name in tree && tree[name] == Dir
    ensures MkdirAll(tree, name, w).Ok?
  {
    hide Locate, Parents;
  }

  lemma {:induction false} ParentsSucceed(tree: Tree, name: string, w: World)
    requires WellFormed(tree) && ProperName(name) && OnlyDirs(tree, Ancestors(name))
    ensures Parents(tree, name, w) == Ok(WithDirs(tree, Ancestors(name)))
    decreases |name|, 0
  {
    hide WellFormed, MkdirAll;
    if PathDirectory(name) == "." {
      assert Ancestors(name) == {};
      assert WithDirs(tree, Ancestors(name)) == tree;
    } else {
      ProperParent(name);
      hide ProperName;
      assert Ancestors(name) == Ancestors(PathDirectory(name)) + {PathDirectory(name)};
      MkdirAllSucceeds(tree, PathDirectory(name), w);
    }
  }

  // ----- Placing an entry succeeds ---------------------------------------------------------------

  /** Nothing is in the entry's way: only directories above it, and at its own name nothing,
      or a directory for a directory, or a file for a file. */
  ghost predicate WayClear(tree: Tree, e: Entry) {
    && OnlyDirs(tree, Ancestors(e.name))
    && (e.name in tree ==> if e.kind.Regular? then tree[e.name].File?
                           else e.kind == Directory && tree[e.name] == Dir)
  }

  lemma LeafSucceeds(tree: Tree, e: Entry, w: World)
    requires WellFormed(tree) && ProperName(e.name) && WayClear(tree, e) && (e.kind.Regular? || e.kind.Symlink?)
    ensures Placed(tree, e, w).Ok?
  {
    hide WellFormed, Parents, Ancestors, ProperName, Locate;
    ParentsSucceed(tree, e.name, w);
    NotOwnAncestor(e.name);
    ProperIsNotRoot(e.name);
    var t := WithDirs(tree, Ancestors(e.name));
    assert AllDirs(t, Ancestors(e.name));
    assert e.name in t <==> e.name in tree;
    assert e.name in t ==> t[e.name] == tree[e.name];
    LocateDirs(t, e.name, e.kind.Regular?, w);
  }

  lemma PlacedSucceeds(tree: Tree, e: Entry, w: World)
    requires WellFormed(tree) && ProperName(e.name) && WayClear(tree, e) && e.kind != OtherKind
    ensures Placed(tree, e, w).Ok?
  {
    if e.kind == Directory {
      hide WellFormed, MkdirAll, Ancestors, ProperName;
      assert OnlyDirs(tree, Ancestors(e.name) + {e.name});
      MkdirAllSucceeds(tree, e.name, w);
    } else {
      LeafSucceeds(tree, e, w);
    }
  }

  // ----- Archives --------------------------------------------------------------------------------

  /** No entry lies beneath a file entry. */
  ghost predicate NothingBeneathFiles(order: seq<Entry>) {
    forall e, f :: e in order && f in order && f.kind.Regular? ==> f.name !in Ancestors(e.name)
  }

  /** With one more entry: the earlier ones, and the new one against each. */
  ghost predicate Fits(front: seq<Entry>, e: Entry) {
    && (forall f :: f in front && f.kind.Regular? ==> f.name !in Ancestors(e.name))
    && (e.kind.Regular? ==> forall x :: x in front ==> e.name !in Ancestors(x.name))
  }

  lemma NothingBeneathFront(front: seq<Entry>, e: Entry)
    ensures NothingBeneathFiles(front + [e]) <==> NothingBeneathFiles(front) && Fits(front, e)
  {
    NotOwnAncestor(e.name);
    hide Ancestors;
    assert forall x :: x in front + [e] <==> x in front || x == e;
  }

  lemma FitsClear(tree: Tree, front: seq<Entry>, e: Entry)
    requires Unpacked(tree, front) && Unaliased(front + [e]) && Fits(front, e) && e.kind != OtherKind
    requires forall x :: x in front ==> x.name != e.name && x.kind != OtherKind
    ensures WayClear(tree, e)
  {
    hide Unpacked, Ancestors, Unaliased;
    forall d | d in Ancestors(e.name) && d in tree ensures tree[d] == Dir {
      NoLinkAbove(tree, front, e);
      var x := Explanation(tree, front, d);
      hide NoLinks;
      if x.name == d { AncestorKind(tree, front, e, x); }
    }
    if e.name in tree {
      var x := Explanation(tree, front, e.name);
      BeneathKind(front, e, x);
    }
  }

  /** An earlier entry above a new one is a directory. */
  lemma AncestorKind(tree: Tree, front: seq<Entry>, e: Entry, x: Entry)
    requires Unaliased(front + [e]) && Fits(front, e) && x in front && x.name in Ancestors(e.name)
    requires x.kind != OtherKind
    ensures x.kind == Directory && NodeOf(x) == Dir
  {
    hide Ancestors;
    assert x in front + [e] && e in front + [e];
  }

  /** A new entry above an earlier one is a directory. */
  lemma BeneathKind(front: seq<Entry>, e: Entry, x: Entry)
    requires Unaliased(front + [e]) && Fits(front, e) && x in front
    ensures e.name in Ancestors(x.name) ==> !e.kind.Regular? && !e.kind.Symlink?
  {
    hide Ancestors;
    assert x in front + [e] && e in front + [e];
  }

  lemma LandedFits(tree: Tree, front: seq<Entry>, e: Entry, t: Tree)
    requires Unpacked(tree, front) && Lands(tree, e, t)
    ensures Fits(front, e)
  {
    hide Unpacked, Ancestors;
    forall f | f in front && f.kind.Regular? ensures f.name !in Ancestors(e.name) { InPlace(tree, front, f); }
    if e.kind.Regular? {
      forall x | x in front ensures e.name !in Ancestors(x.name) { Below(tree, front, x, e.name); }
    }
  }

  lemma Below(tree: Tree, front: seq<Entry>, x: Entry, d: string)
    requires Unpacked(tree, front) && x in front
    ensures d in Ancestors(x.name) ==> d in tree && tree[d] == Dir
  {
    hide Explained, Ancestors;
    assert Holds(tree, x);
  }

  /** An archive without an entry beneath a symlink can be extracted if and only if it has
      none beneath a file. */
  lemma {:induction false} ExtractsIff(order: seq<Entry>, w: World)
    requires UniqueNames(order) && Unaliased(order)
    requires forall i :: 0 <= i < |order| ==> order[i].kind != OtherKind && ProperName(order[i].name)
    ensures ExtractAll(order, w).Ok? <==> NothingBeneathFiles(order)
  {
    hide Placed, Unpacked, ProperName, WellFormed, Unaliased, NothingBeneathFiles, Fits, WayClear, Lands;
    if order == [] {
      NothingBeneath();
    } else {
      var front, e := order[..|order| - 1], order[|order| - 1];
      assert order == front + [e];
      FewerUnaliased(front, e);
      ExtractsIff(front, w);
      NothingBeneathFront(front, e);
      if ExtractAll(front, w).Ok? {
        ExtractedWellFormed(front, w);
        Unpacks(front, w);
        OneMoreIff(ExtractAll(front, w).value, front, e, w);
      }
    }
  }

  lemma OneMoreIff(tree: Tree, front: seq<Entry>, e: Entry, w: World)
    requires WellFormed(tree) && Unpacked(tree, front) && Unaliased(front + [e]) && ProperName(e.name)
    requires e.kind != OtherKind && forall x :: x in front ==> x.name != e.name && x.kind != OtherKind
    ensures Placed(tree, e, w).Ok? <==> Fits(front, e)
  {
    hide Placed, Unpacked, ProperName, WellFormed, Unaliased, Fits, WayClear, Lands, NoLinks;
    NoLinkAbove(tree, front, e);
    if Placed(tree, e, w).Ok? {
      if e.kind == Directory { DirLands(tree, e, w); } else { LeafLands(tree, e, w); }
      LandedFits(tree, front, e, Placed(tree, e, w).value);
    }
    if Fits(front, e) {
      FitsClear(tree, front, e);
      PlacedSucceeds(tree, e, w);
    }
  }

  lemma NothingBeneath()
    ensures NothingBeneathFiles([])
  {
  }
}
