/** When extraction stays inside its tree.  Inspection vets a symlink by its spelling
    only; where a name leads depends on the links laid before it. */
module Containment {
  import opened Prelude
  import opened Text
  import opened ArchiveNames
  import opened FileTree
  import opened Install
  import opened InstallArchive

  /** Following the entry's name, its last component too unless a link is to be made there,
      leaves the tree. */
  predicate Strays(tree: Tree, e: Entry, w: World) { Locate(tree, e.name, !e.kind.Symlink?, w) == Outside }

  // ----- One component more --------------------------------------------------------------------

  /** A link that a walk ending in this component would follow. */
  predicate Diverts(tree: Tree, at: string, s: string, last: bool) {
    last && Child(at, s) in tree && tree[Child(at, s)].Link?
  }

  /** How a walk with one more component ends, by how the shorter walk ends. */
  ghost predicate Extends(tree: Tree, r: Found, q: Found, s: string, last: bool) {
    if r == Outside then q == Outside
    else if r.At? && IsDir(tree, r.name) && !Diverts(tree, r.name, s, last) then q == At(Child(r.name, s))
    else q == Outside ==> r.At? && IsDir(tree, r.name)
  }

  lemma {:induction false} FollowOn(tree: Tree, at: string, segs: seq<string>, s: string, last: bool, budget: nat)
    requires WellFormed(tree) && IsDir(tree, at) && ProperSegment(s)
    ensures Extends(tree, Follow(tree, at, segs, true, budget), Follow(tree, at, segs + [s], last, budget), s, last)
    decreases budget, |segs|
  {
    NoRootNode(tree);
    if segs == [] {
      LastStep(tree, at, s, last, budget);
    } else {
      var seg, more := segs[0], segs[1..];
      assert segs == [seg] + more && segs + [s] == [seg] + more + [s];
      hide WellFormed, Extends, Split, Follow;
      if seg == "" || seg == "." || seg == ".." {
        SameStep(tree, at, seg, more, s, last, budget);
        if seg != ".." {
          FollowOn(tree, at, more, s, last, budget);
        } else if at == "." {
          BothOutside(tree, s, last);
        } else {
          DirParent(tree, at);
          FollowOn(tree, PathDirectory(at), more, s, last, budget);
        }
      } else {
        var p := Child(at, seg);
        hide Child, PathDirectory;
        if p in tree && tree[p] == Dir {
          FollowOn(tree, p, more, s, last, budget);
          DownStep(tree, at, seg, more, s, last, budget);
        } else if p in tree && tree[p].Link? && budget > 0 {
          FollowOn(tree, at, Split(tree[p].target, '/') + more, s, last, budget - 1);
          ThroughLink(tree, at, seg, more, s, last, budget);
        } else {
          Stuck(tree, at, seg, more, s, last, budget);
        }
      }
    }
  }

  lemma SameStep(tree: Tree, at: string, seg: string, more: seq<string>, s: string, last: bool, budget: nat)
    requires seg == "" || seg == "." || seg == ".."
    ensures var r := Follow(tree, at, [seg] + more, true, budget);
            var q := Follow(tree, at, [seg] + more + [s], last, budget);
            if seg == ".." && at == "." then r == Outside && q == Outside
            else var to := if seg == ".." then PathDirectory(at) else at;
                 r == Follow(tree, to, more, true, budget) && q == Follow(tree, to, more + [s], last, budget)
  {
    hide PathDirectory;
    assert ([seg] + more)[1..] == more && ([seg] + more + [s])[1..] == more + [s];
  }

  lemma DownStep(tree: Tree, at: string, seg: string, more: seq<string>, s: string, last: bool, budget: nat)
    requires seg != "" && seg != "." && seg != ".."
    requires var p := Child(at, seg); p in tree && tree[p] == Dir
    ensures var p := Child(at, seg);
            && Follow(tree, at, [seg] + more, true, budget) == Follow(tree, p, more, true, budget)
            && Follow(tree, at, [seg] + more + [s], last, budget) == Follow(tree, p, more + [s], last, budget)
  {
    hide Child;
    assert ([seg] + more)[1..] == more && ([seg] + more + [s])[1..] == more + [s];
  }

  lemma ThroughLink(tree: Tree, at: string, seg: string, more: seq<string>, s: string, last: bool, budget: nat)
    requires seg != "" && seg != "." && seg != ".." && budget > 0
    requires var p := Child(at, seg); p in tree && tree[p].Link?
    ensures var beyond := Split(tree[Child(at, seg)].target, '/') + more;
            && Follow(tree, at, [seg] + more, true, budget) == Follow(tree, at, beyond, true, budget - 1)
            && Follow(tree, at, [seg] + more + [s], last, budget) == Follow(tree, at, beyond + [s], last, budget - 1)
  {
    hide Child, Split;
    var target := Split(tree[Child(at, seg)].target, '/');
    assert ([seg] + more)[1..] == more && ([seg] + more + [s])[1..] == more + [s];
    assert target + (more + [s]) == target + more + [s];
  }

  lemma BothOutside(tree: Tree, s: string, last: bool)
    ensures Extends(tree, Outside, Outside, s, last)
  {
  }

  lemma LastStep(tree: Tree, at: string, s: string, last: bool, budget: nat)
    requires IsDir(tree, at) && ProperSegment(s)
    ensures Extends(tree, Follow(tree, at, [], true, budget), Follow(tree, at, [] + [s], last, budget), s, last)
  {
    hide Child, Split;
    assert [] + [s] == [s] && [s][1..] == [];
    var p := Child(at, s);
    assert p in tree && tree[p] == Dir ==> Follow(tree, p, [], last, budget) == At(p);
  }

  lemma Stuck(tree: Tree, at: string, seg: string, more: seq<string>, s: string, last: bool, budget: nat)
    requires seg != "" && seg != "." && seg != ".." && "." !in tree
    requires var p := Child(at, seg); p !in tree || tree[p].File? || (tree[p].Link? && budget == 0)
    ensures Extends(tree, Follow(tree, at, [seg] + more, true, budget),
                    Follow(tree, at, [seg] + more + [s], last, budget), s, last)
  {
    assert Child(at, seg) != "." by { if at != "." { assert |Child(at, seg)| > 1; } }
    hide Child;
    assert ([seg] + more)[1..] == more && ([seg] + more + [s])[1..] == more + [s];
  }

  // ----- Making directories ----------------------------------------------------------------------

  /** The components above a name. */
  function Above(name: string): seq<string> {
    if PathDirectory(name) == "." then [] else Split(PathDirectory(name), '/')
  }

  lemma NameSplit(name: string)
    requires ProperName(name)
    ensures Split(name, '/') == Above(name) + [Split(name, '/')[|Split(name, '/')| - 1]]
    ensures ProperSegment(Split(name, '/')[|Split(name, '/')| - 1])
  {
    var i := LastSlash(name);
    if i < 0 {
      SplitWhole(name, '/');
    } else {
      var d, seg := name[..i], name[i + 1..];
      assert name == d + "/" + seg;
      SplitSnoc(d, seg);
      SplitWhole(".", '/');
      var first := Split(d, '/')[0];
      assert first == Split(name, '/')[0] && ProperSegment(first);
      hide Split;
    }
  }

  ghost predicate Childless(tree: Tree, at: string) { forall s :: ProperSegment(s) ==> Child(at, s) !in tree }

  /** The walk ends at a directory of t, which is `tree` or has this directory empty. */
  ghost predicate Reached(tree: Tree, t: Tree, segs: seq<string>, limit: nat) {
    var r := Follow(t, ".", segs, true, limit);
    WellFormed(t) && r.At? && IsDir(t, r.name) && (t == tree || Childless(t, r.name))
  }

  /** A directory put at a free name leaves every walk to another directory as it was. */
  lemma {:induction false} FollowKeeps(tree: Tree, at: string, segs: seq<string>, budget: nat, p: string)
    requires var r := Follow(tree, at, segs, true, budget); r.At? && IsDir(tree, r.name)
    requires p !in tree
    ensures Follow(tree[p := Dir], at, segs, true, budget) == Follow(tree, at, segs, true, budget)
    decreases budget, |segs|
  {
    if segs != [] {
      var seg, more := segs[0], segs[1..];
      if seg == "" || seg == "." {
        FollowKeeps(tree, at, more, budget, p);
      } else if seg == ".." {
        FollowKeeps(tree, PathDirectory(at), more, budget, p);
      } else {
        var q := Child(at, seg);
        assert q != "." by { if at != "." { assert |q| > 1; } }
        hide Child, PathDirectory, Split;
        if q in tree && tree[q] == Dir {
          FollowKeeps(tree, q, more, budget, p);
        } else if q in tree && tree[q].Link? {
          FollowKeeps(tree, at, Split(tree[q].target, '/') + more, budget - 1, p);
        }
      }
    }
  }

  /** Nothing stands beneath a name that was free. */
  lemma FreshIsChildless(tree: Tree, p: string)
    requires WellFormed(tree) && p !in tree && p != "."
    ensures Childless(tree[p := Dir], p)
  {
    forall s | ProperSegment(s) ensures Child(p, s) !in tree[p := Dir] { ChildHasParent(tree, p, s); }
  }

  lemma ChildHasParent(tree: Tree, p: string, s: string)
    requires WellFormed(tree) && p != "." && ProperSegment(s)
    ensures Child(p, s) != p && (Child(p, s) in tree ==> p in tree)
  {
    ChildParent(p, s);
    assert |Child(p, s)| > |p|;
    assert Child(p, s) in tree ==> Nested(tree, Child(p, s));
  }

  /** The place of a name whose parent has been reached, but which was not there before. */
  lemma PlaceBelow(tree: Tree, t: Tree, name: string, w: World) returns (d: string, p: string)
    requires ProperName(name) && Reached(tree, t, Above(name), w.linkLimit)
    requires var r := Locate(tree, name, true, w); !(r.At? && (r.name == "." || r.name in tree))
    ensures Follow(t, ".", Above(name), true, w.linkLimit) == At(d) && IsDir(t, d)
    ensures Locate(t, name, false, w) == At(p) && p == Child(d, Split(name, '/')[|Split(name, '/')| - 1]) && p != "."
    ensures !IsDir(t, p)
  {
    var segs, limit := Above(name), w.linkLimit;
    var s := Split(name, '/')[|Split(name, '/')| - 1];
    NameSplit(name);
    d := Follow(t, ".", segs, true, limit).name;
    p := Child(d, s);
    ProperChildOf(d, s);
    assert p in t ==> t == tree by { assert Childless(t, d) ==> p !in t; }
    hide Split, ProperName, WellFormed, Follow, Childless, Child;
    FollowOn(t, ".", segs, s, false, limit);
    FollowOn(t, ".", segs, s, true, limit);
  }

  /** A directory put at that place is reached, and is empty. */
  lemma DirReached(tree: Tree, t: Tree, segs: seq<string>, s: string, d: string, p: string, limit: nat)
    requires WellFormed(t) && WellFormed(t[p := Dir]) && ProperSegment(s)
    requires Follow(t, ".", segs, true, limit) == At(d) && IsDir(t, d) && p == Child(d, s) && p !in t && p != "."
    ensures Reached(tree, t[p := Dir], segs + [s], limit)
  {
    hide WellFormed, Child, Follow, Childless;
    FollowKeeps(t, ".", segs, limit, p);
    FollowOn(t[p := Dir], ".", segs, s, true, limit);
    FreshIsChildless(t, p);
  }

  /** The last `mkdir` of a chain, whose parent has been reached. */
  lemma MkdirReaches(tree: Tree, t: Tree, name: string, w: World)
    requires ProperName(name) && Reached(tree, t, Above(name), w.linkLimit)
    requires var r := Locate(tree, name, true, w); !(r.At? && (r.name == "." || r.name in tree))
    ensures Locate(t, name, false, w) != Outside
    ensures Mkdir(t, name, w).Ok? ==> Reached(tree, Mkdir(t, name, w).value, Split(name, '/'), w.linkLimit)
  {
    var s := Split(name, '/')[|Split(name, '/')| - 1];
    assert WellFormed(t);
    hide Split, ProperName, Child, Follow, Childless, WellFormed, Above, Reached, Locate, IsDir, ProperSegment;
    NameSplit(name);
    var d, p := PlaceBelow(tree, t, name, w);
    MkdirKeeps(t, name, w);
    if Mkdir(t, name, w).Ok? {
      assert Mkdir(t, name, w).value == t[p := Dir] && p !in t;
      DirReached(tree, t, Above(name), s, d, p, w.linkLimit);
    }
  }

  lemma ProperChildOf(d: string, s: string)
    requires ProperSegment(s)
    ensures Child(d, s) != "."
  {
    if d != "." { assert |Child(d, s)| > 1; }
  }

  // ----- Entries that stay inside ------------------------------------------------------------------

  lemma ParentInside(tree: Tree, name: string, last: bool, w: World)
    requires WellFormed(tree) && ProperName(name) && Locate(tree, name, last, w) != Outside
    ensures Follow(tree, ".", Above(name), true, w.linkLimit) != Outside
  {
    NameSplit(name);
    FollowOn(tree, ".", Above(name), Split(name, '/')[|Split(name, '/')| - 1], last, w.linkLimit);
  }

  /** What directories are made for a name that does not lead outside. */
  lemma {:induction false} MkdirAllInside(tree: Tree, name: string, w: World, v: World)
    requires WellFormed(tree) && ProperName(name) && v.linkLimit == w.linkLimit
    requires Locate(tree, name, true, w) != Outside
    ensures MkdirAll(tree, name, v) == MkdirAll(tree, name, w)
    ensures MkdirAll(tree, name, w).Ok? ==> Reached(tree, MkdirAll(tree, name, w).value, Split(name, '/'), w.linkLimit)
    decreases |name|
  {
    var found := Locate(tree, name, true, w);
    ParentInside(tree, name, true, w);
    hide ProperName, Split, Childless, Follow, WellFormed, Mkdir;
    ParentsInside(tree, name, w, v);
    var parents := Parents(tree, name, w);
    if !(found.At? && (found.name == "." || found.name in tree)) && parents.Ok? {
      MkdirReaches(tree, parents.value, name, w);
      MkdirSame(parents.value, name, w, v);
    }
    hide Parents, Reached;
  }

  lemma MkdirSame(tree: Tree, name: string, w: World, v: World)
    requires v.linkLimit == w.linkLimit && Locate(tree, name, false, w) != Outside
    ensures Mkdir(tree, name, v) == Mkdir(tree, name, w)
  {
  }

  lemma {:induction false} ParentsInside(tree: Tree, name: string, w: World, v: World)
    requires WellFormed(tree) && ProperName(name) && v.linkLimit == w.linkLimit
    requires Follow(tree, ".", Above(name), true, w.linkLimit) != Outside
    ensures Parents(tree, name, v) == Parents(tree, name, w)
    ensures Parents(tree, name, w).Ok? ==> Reached(tree, Parents(tree, name, w).value, Above(name), w.linkLimit)
    decreases |name|, 0
  {
    if PathDirectory(name) != "." {
      ProperParent(name);
      hide ProperName, MkdirAll, Reached;
      MkdirAllInside(tree, PathDirectory(name), w, v);
    }
  }

  /** With its parents made, a name leads out of the tree exactly if it did before. */
  lemma StillInside(tree: Tree, t: Tree, name: string, last: bool, w: World)
    requires ProperName(name) && Reached(tree, t, Above(name), w.linkLimit) && Locate(tree, name, last, w) != Outside
    ensures Locate(t, name, last, w) != Outside
  {
    var s := Split(name, '/')[|Split(name, '/')| - 1];
    NameSplit(name);
    hide Split, ProperName, WellFormed, Follow, Child;
    FollowOn(t, ".", Above(name), s, last, w.linkLimit);
  }

  /** An entry that does not stray is placed without a look at what lies outside. */
  lemma EntryInside(tree: Tree, e: Entry, w: World, v: World)
    requires WellFormed(tree) && ProperName(e.name) && v.linkLimit == w.linkLimit && !Strays(tree, e, w)
    ensures Placed(tree, e, v) == Placed(tree, e, w)
  {
    hide ProperName, WellFormed, Parents, MkdirAll, Reached, Above, Split, Follow;
    if e.kind.Regular? || e.kind.Symlink? {
      ParentInside(tree, e.name, !e.kind.Symlink?, w);
      ParentsInside(tree, e.name, w, v);
      var parents := Parents(tree, e.name, w);
      if parents.Ok? { StillInside(tree, parents.value, e.name, !e.kind.Symlink?, w); }
    } else {
      MkdirAllInside(tree, e.name, w, v);
    }
  }

  /** The same world, in which everything outside can be written, or nothing. */
  function Granting(w: World, all: bool): World { World(w.linkLimit, name => all, w.peek) }

  /** A parent of a straying name strays itself or is a directory already. */
  lemma ParentOfStray(tree: Tree, name: string, last: bool, w: World)
    requires WellFormed(tree) && ProperName(name) && Locate(tree, name, last, w) == Outside
    ensures var parents := Parents(tree, name, w);
            || parents == Ok(tree)
            || (parents == Beyond(tree, PathDirectory(name), w)
                && Locate(tree, PathDirectory(name), true, w) == Outside)
  {
    NameSplit(name);
    hide ProperName, Split, Follow;
    FollowOn(tree, ".", Above(name), Split(name, '/')[|Split(name, '/')| - 1], last, w.linkLimit);
    NoRootNode(tree);
    hide WellFormed;
  }

  /** An entry that strays goes where nothing is recorded, or is refused. */
  lemma EntryOutside(tree: Tree, e: Entry, w: World, all: bool)
    requires WellFormed(tree) && ProperName(e.name) && Strays(tree, e, w)
    ensures var r := Placed(tree, e, Granting(w, all)); if all then r == Ok(tree) else r.Err? && r.error.LeftRoot?
  {
    var v := Granting(w, all);
    assert Locate(tree, e.name, !e.kind.Symlink?, v) == Outside;
    hide ProperName, WellFormed, Parents, Follow, Locate, PathDirectory;
    if e.kind.Regular? || e.kind.Symlink? { ParentOfStray(tree, e.name, !e.kind.Symlink?, v); }
  }

  // ----- Archives --------------------------------------------------------------------------------------

  /** No entry strays when its turn comes. */
  predicate StaysInside(order: seq<Entry>, w: World) { forall n: nat :: n < |order| ==> !StraysAt(order, n, w) }

  predicate StraysAt(order: seq<Entry>, n: nat, w: World)
    requires n < |order|
  {
    ExtractAll(order[..n], w).Ok? && Strays(ExtractAll(order[..n], w).value, order[n], w)
  }

  lemma SameStray(order: seq<Entry>, n: nat, w: World)
    requires n < |order| - 1
    ensures StraysAt(order[..|order| - 1], n, w) == StraysAt(order, n, w)
  {
    assert order[..|order| - 1][..n] == order[..n];
  }

  ghost predicate ProperEntries(order: seq<Entry>) { forall i :: 0 <= i < |order| ==> ProperName(order[i].name) }

  lemma FrontStays(order: seq<Entry>, w: World)
    requires order != [] && StaysInside(order, w)
    ensures StaysInside(order[..|order| - 1], w)
    ensures ExtractAll(order[..|order| - 1], w).Ok? ==>
              !Strays(ExtractAll(order[..|order| - 1], w).value, order[|order| - 1], w)
  {
    hide Strays, ExtractAll;
    assert !StraysAt(order, |order| - 1, w);
    hide StraysAt;
    var front := order[..|order| - 1];
    forall n: nat | n < |front| ensures !StraysAt(front, n, w) { SameStray(order, n, w); }
  }

  lemma {:induction false} StayingIsBlind(order: seq<Entry>, w: World, v: World)
    requires ProperEntries(order) && StaysInside(order, w) && v.linkLimit == w.linkLimit
    ensures ExtractAll(order, v) == ExtractAll(order, w)
  {
    if order != [] {
      var front, e := order[..|order| - 1], order[|order| - 1];
      FrontStays(order, w);
      hide Strays, StaysInside, ProperName, Placed;
      StayingIsBlind(front, w, v);
      ExtractedWellFormed(front, w);
      if ExtractAll(front, w).Ok? { EntryInside(ExtractAll(front, w).value, e, w, v); }
    }
  }

  // ----- Where everything is granted, nothing is refused for leaving ---------------------------------

  predicate NotLeft(r: Result<Tree, FsError>) { r.Err? ==> !r.error.LeftRoot? }

  lemma {:induction false} MkdirAllNotLeft(tree: Tree, name: string, w: World)
    ensures NotLeft(MkdirAll(tree, name, Granting(w, true)))
    decreases |name|
  {
    hide Locate;
    var parent := PathDirectory(name);
    if parent != "." { MkdirAllNotLeft(tree, parent, w); }
  }

  lemma PlacedNotLeft(tree: Tree, e: Entry, w: World)
    ensures NotLeft(Placed(tree, e, Granting(w, true)))
  {
    hide Locate, MkdirAll;
    MkdirAllNotLeft(tree, e.name, w);
    MkdirAllNotLeft(tree, PathDirectory(e.name), w);
  }

  lemma {:induction false} ExtractNotLeft(order: seq<Entry>, w: World)
    ensures NotLeft(ExtractAll(order, Granting(w, true)))
  {
    hide Placed;
    if order != [] {
      var front, e := order[..|order| - 1], order[|order| - 1];
      ExtractNotLeft(front, w);
      var tree := ExtractAll(front, Granting(w, true));
      if tree.Ok? { PlacedNotLeft(tree.value, e, w); }
    }
  }

  /** The first entry that strays is refused where nothing is granted. */
  lemma {:induction false} StrayIsRefused(order: seq<Entry>, w: World)
    requires ProperEntries(order) && !StaysInside(order, w)
    ensures !NotLeft(ExtractAll(order, Granting(w, false)))
  {
    var front, e := order[..|order| - 1], order[|order| - 1];
    var v := Granting(w, false);
    assert order[..|order| - 1] == front;
    hide Strays, ProperName, Placed;
    if StaysInside(front, w) {
      StayingIsBlind(front, w, v);
      ExtractedWellFormed(front, w);
      LastStrays(order, w);
      EntryOutside(ExtractAll(front, w).value, e, w, false);
    } else {
      StrayIsRefused(front, w);
    }
  }

  lemma LastStrays(order: seq<Entry>, w: World)
    requires order != [] && StaysInside(order[..|order| - 1], w) && !StaysInside(order, w)
    ensures ExtractAll(order[..|order| - 1], w).Ok?
    ensures Strays(ExtractAll(order[..|order| - 1], w).value, order[|order| - 1], w)
  {
    hide Strays, ExtractAll;
    assert StraysAt(order, |order| - 1, w) by {
      hide StraysAt;
      var n: nat :| n < |order| && StraysAt(order, n, w);
      if n < |order| - 1 { SameStray(order, n, w); }
    }
  }

  /** What extraction does depends on nothing outside the tree if and only if no entry's
      name, when its turn comes, leads out of it. */
  lemma ContainedIff(order: seq<Entry>, w: World)
    requires ProperEntries(order)
    ensures (forall v: World :: v.linkLimit == w.linkLimit ==> ExtractAll(order, v) == ExtractAll(order, w))
            <==> StaysInside(order, w)
  {
    hide StaysInside, ExtractAll, ProperName;
    if StaysInside(order, w) {
      forall v: World | v.linkLimit == w.linkLimit ensures ExtractAll(order, v) == ExtractAll(order, w) {
        StayingIsBlind(order, w, v);
      }
    } else {
      StrayIsRefused(order, w);
      ExtractNotLeft(order, w);
      assert ExtractAll(order, Granting(w, false)) != ExtractAll(order, Granting(w, true));
      assert Granting(w, false).linkLimit == w.linkLimit && Granting(w, true).linkLimit == w.linkLimit;
    }
  }

  /** An archive without an entry beneath a symlink stays inside. */
  lemma {:induction false} UnaliasedStaysInside(order: seq<Entry>, w: World)
    requires UniqueNames(order) && Unaliased(order)
    requires forall i :: 0 <= i < |order| ==> order[i].kind != OtherKind && ProperName(order[i].name)
    ensures StaysInside(order, w)
  {
    forall n: nat | n < |order| && ExtractAll(order[..n], w).Ok?
      ensures !Strays(ExtractAll(order[..n], w).value, order[n], w)
    {
      var front, e := order[..n], order[n];
      assert Unaliased(front + [e]) by {
        forall x, l | x in front + [e] && l in front + [e] && l.kind.Symlink? ensures l.name !in Ancestors(x.name) {
          assert x in order && l in order;
        }
      }
      hide Ancestors, Strays, ProperName, ExtractAll, Unpacked;
      FewerUnaliased(front, e);
      hide Unaliased;
      Unpacks(front, w);
      var tree := ExtractAll(front, w).value;
      NoLinkAbove(tree, front, e);
      NoLinksNoStray(tree, e, w);
    }
  }

  lemma NoLinksNoStray(tree: Tree, e: Entry, w: World)
    requires ProperName(e.name) && NoLinks(tree, Ancestors(e.name) + {e.name})
    ensures !Strays(tree, e, w)
  {
    hide ProperName, Ancestors, Locate;
    LocateNoLinks(tree, e.name, !e.kind.Symlink?, w);
  }
}
