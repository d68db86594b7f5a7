/** A directory tree with symlinks, as a POSIX kernel resolves names in it.  Nodes are
    kept under their real names, relative to the root; the root itself is ".". */
module FileTree {
  import opened Prelude
  import opened Text
  import opened ArchiveNames

  datatype Node = Dir | File(content: string, mode: nat) | Link(target: string)

  type Tree = map<string, Node>

  /** How many links one name may lead through, and what a name meets that leads out of
      the tree: whether a write there succeeds, and what stands there. */
  datatype World = World(linkLimit: nat, outside: string -> bool, peek: string -> Option<Node>)

  function Child(d: string, seg: string): string { if d == "." then seg else d + "/" + seg }

  predicate IsDir(tree: Tree, p: string) { p == "." || (p in tree && tree[p] == Dir) }

  datatype Found = At(name: string) | NoEntry | NotDirectory | TooManyLinks | Outside

  /** Walks from a real directory along the given components.  The last one is followed
      if it is a link only when `last` says so, and may be missing. */
  function Follow(tree: Tree, at: string, rest: seq<string>, last: bool, budget: nat): Found
    decreases budget, |rest|
  {
    if rest == [] then At(at)
    else
      var seg, more := rest[0], rest[1..];
      if seg == "" || seg == "." then Follow(tree, at, more, last, budget)
      else if seg == ".." then
        if at == "." then Outside else Follow(tree, PathDirectory(at), more, last, budget)
      else
        var p := Child(at, seg);
        if p !in tree then (if more == [] then At(p) else NoEntry)
        else
          match tree[p]
          case Dir => Follow(tree, p, more, last, budget)
          case File(_, _) => if more == [] then At(p) else NotDirectory
          case Link(target) =>
            if more == [] && !last then At(p)
            else if budget == 0 then TooManyLinks
            else Follow(tree, at, Split(target, '/') + more, last, budget - 1)
  }

  function Locate(tree: Tree, name: string, last: bool, w: World): Found {
    Follow(tree, ".", Split(name, '/'), last, w.linkLimit)
  }

  // ----- Operations ----------------------------------------------------------------------

  datatype FsError =
    | NotADirectory(name: string)
    | IsADirectory(name: string)
    | Exists(name: string)
    | Unreachable(name: string)
    | LeftRoot(name: string)

  function Beyond(tree: Tree, name: string, w: World): Result<Tree, FsError> {
    if w.outside(name) then Ok(tree) else Err(LeftRoot(name))
  }

  /** One directory; an existing one is fine. */
  function Mkdir(tree: Tree, name: string, w: World): Result<Tree, FsError> {
    match Locate(tree, name, false, w)
    case At(p) => if IsDir(tree, p) then Ok(tree) else if p in tree then Err(Exists(name)) else Ok(tree[p := Dir])
    case Outside => Beyond(tree, name, w)
    case _ => Err(Unreachable(name))
  }

  /** `os.MkdirAll`: parents are taken from the name, not from where it leads. */
  function MkdirAll(tree: Tree, name: string, w: World): Result<Tree, FsError>
    decreases |name|
  {
    var found := Locate(tree, name, true, w);
    if found == Outside then Beyond(tree, name, w)
    else if found.At? && (found.name == "." || found.name in tree) then
      if IsDir(tree, found.name) then Ok(tree) else Err(NotADirectory(name))
    else
      match Parents(tree, name, w)
      case Err(e) => Err(e)
      case Ok(t) => Mkdir(t, name, w)
  }

  /** `os.MkdirAll` of the directory part of a name. */
  function Parents(tree: Tree, name: string, w: World): Result<Tree, FsError>
    decreases |name|, 0
  {
    var parent := PathDirectory(name);
    if parent == "." || |parent| >= |name| then Ok(tree) else MkdirAll(tree, parent, w)
  }

  /** Opens for writing, creating or truncating, then sets the mode: both follow links. */
  function PutFile(tree: Tree, name: string, content: string, mode: nat, w: World): Result<Tree, FsError> {
    match Locate(tree, name, true, w)
    case At(p) => if IsDir(tree, p) then Err(IsADirectory(name)) else Ok(tree[p := File(content, mode)])
    case Outside => Beyond(tree, name, w)
    case _ => Err(Unreachable(name))
  }

  function PutLink(tree: Tree, name: string, target: string, w: World): Result<Tree, FsError> {
    match Locate(tree, name, false, w)
    case At(p) => if p == "." || p in tree then Err(Exists(name)) else Ok(tree[p := Link(target)])
    case Outside => Beyond(tree, name, w)
    case _ => Err(Unreachable(name))
  }

  /** `os.WriteFile`: an existing file keeps its mode. */
  function WriteFile(tree: Tree, name: string, content: string, w: World): Result<Tree, FsError> {
    match Locate(tree, name, true, w)
    case At(p) =>
      if IsDir(tree, p) then Err(IsADirectory(name))
      else Ok(tree[p := File(content, if p in tree && tree[p].File? then tree[p].mode else 420)])
    case Outside => Beyond(tree, name, w)
    case _ => Err(Unreachable(name))
  }

  datatype Seen = Seen(node: Node) | Nothing | Failed

  function NodeAt(tree: Tree, found: Found, name: string, w: World): Seen {
    match found
    case At(p) => if p == "." then Seen(Dir) else if p in tree then Seen(tree[p]) else Nothing
    case NoEntry => Nothing
    case Outside => if w.peek(name).Some? then Seen(w.peek(name).value) else Nothing
    case _ => Failed
  }

  /** `os.Lstat`: follows links in the directory part only. */
  function Lstat(tree: Tree, name: string, w: World): Seen { NodeAt(tree, Locate(tree, name, false, w), name, w) }

  /** What opening the name for reading meets. */
  function Stat(tree: Tree, name: string, w: World): Seen { NodeAt(tree, Locate(tree, name, true, w), name, w) }

  // ----- Well-formed trees -----------------------------------------------------------------

  /** A component that stands for a child. */
  predicate ProperSegment(s: string) { s != "" && s != "." && s != ".." && '/' !in s }

  predicate ProperName(p: string) {
    forall i :: 0 <= i < |Split(p, '/')| ==> ProperSegment(Split(p, '/')[i])
  }

  /** A proper name that lies in a directory. */
  ghost predicate Nested(tree: Tree, p: string) {
    ProperName(p) && forall d :: d in Ancestors(p) ==> d in tree && tree[d] == Dir
  }

  ghost predicate WellFormed(tree: Tree) {
    forall p :: p in tree ==> Nested(tree, p)
  }

  lemma {:induction false} LastSlashOf(a: string, s: string)
    requires '/' !in s
    ensures LastSlash(a + "/" + s) == |a|
    ensures LastSlash(s) < 0
    decreases |s|
  {
    var x := a + "/" + s;
    if s != "" {
      LastSlashOf(a, s[..|s| - 1]);
      assert x[..|x| - 1] == a + "/" + s[..|s| - 1];
      assert x[|x| - 1] == s[|s| - 1];
    }
  }

  lemma ChildParent(d: string, seg: string)
    requires '/' !in seg
    ensures PathDirectory(Child(d, seg)) == d
    ensures Ancestors(Child(d, seg)) == if d == "." then {} else {d} + Ancestors(d)
  {
    LastSlashOf(d, seg);
    if d != "." { assert Child(d, seg)[..|d|] == d; }
  }

  lemma {:induction false} SplitSnoc(a: string, s: string)
    requires '/' !in s
    ensures Split(a + "/" + s, '/') == Split(a, '/') + [s]
  {
    if a == "" {
      SplitPrefix("", s, '/');
      SplitWhole(s, '/');
      assert a + "/" + s == "" + ['/'] + s;
    } else {
      SplitSnoc(a[1..], s);
      assert (a + "/" + s)[1..] == a[1..] + "/" + s;
    }
  }

  lemma ProperChild(d: string, seg: string)
    requires (d == "." || ProperName(d)) && ProperSegment(seg)
    ensures ProperName(Child(d, seg)) && Child(d, seg) != "."
  {
    if d == "." {
      SplitWhole(seg, '/');
    } else {
      SplitSnoc(d, seg);
      var p := d + "/" + seg;
      assert p[|d|] == '/';
    }
  }

  /** A name of one component lies at the root. */
  lemma SimpleName(s: string)
    requires ProperSegment(s)
    ensures ProperName(s) && s != "." && Ancestors(s) == {}
  {
    SplitWhole(s, '/');
    LastSlashOf("", s);
  }

  lemma DirParent(tree: Tree, at: string)
    requires WellFormed(tree) && IsDir(tree, at) && at != "."
    ensures IsDir(tree, PathDirectory(at))
  {
    assert Nested(tree, at);
    var d := PathDirectory(at);
    if d != "." { assert d in Ancestors(at); }
  }

  ghost predicate NoSlashes(ss: seq<string>) { forall i :: 0 <= i < |ss| ==> '/' !in ss[i] }

  /** Wherever a walk ends, it ends at the root or at a child of a real directory. */
  lemma {:induction false} FollowLands(tree: Tree, at: string, rest: seq<string>, last: bool, budget: nat)
    requires WellFormed(tree) && IsDir(tree, at) && NoSlashes(rest)
    ensures var r := Follow(tree, at, rest, last, budget); r.At? ==> r.name == "." || Nested(tree, r.name)
    decreases budget, |rest|, 1
  {
    hide Nested, WellFormed, PathDirectory, Child, Split;
    if rest == [] {
      DirNests(tree, at);
    } else {
      var seg, more := rest[0], rest[1..];
      assert NoSlashes(more);
      if seg == "" || seg == "." {
        FollowLands(tree, at, more, last, budget);
      } else if seg == ".." {
        if at != "." {
          DirParent(tree, at);
          FollowLands(tree, PathDirectory(at), more, last, budget);
        }
      } else {
        assert ProperSegment(seg);
        ChildNests(tree, at, seg);
        assert rest == [seg] + more;
        FollowChild(tree, at, seg, more, last, budget);
      }
    }
  }

  lemma {:induction false} FollowChild(tree: Tree, at: string, seg: string, more: seq<string>, last: bool, budget: nat)
    requires WellFormed(tree) && IsDir(tree, at) && ProperSegment(seg) && NoSlashes(more)
    requires Nested(tree, Child(at, seg))
    ensures var r := Follow(tree, at, [seg] + more, last, budget); r.At? ==> r.name == "." || Nested(tree, r.name)
    decreases budget, |more| + 1, 0
  {
    hide Nested, WellFormed, PathDirectory, Child, Split;
    assert ([seg] + more)[1..] == more;
    var p := Child(at, seg);
    if p in tree && tree[p] == Dir {
      FollowLands(tree, p, more, last, budget);
    } else if p in tree && tree[p].Link? && !(more == [] && !last) && budget > 0 {
      JoinOfSplit(tree[p].target, '/');
      FollowLands(tree, at, Split(tree[p].target, '/') + more, last, budget - 1);
    }
  }

  lemma DirNests(tree: Tree, at: string)
    requires WellFormed(tree) && IsDir(tree, at)
    ensures at == "." || Nested(tree, at)
  {
  }

  lemma ChildNests(tree: Tree, at: string, seg: string)
    requires WellFormed(tree) && IsDir(tree, at) && ProperSegment(seg)
    ensures Nested(tree, Child(at, seg))
  {
    if at != "." { assert Nested(tree, at); }
    ProperChild(at, seg);
    ChildParent(at, seg);
    hide ProperName, ProperSegment, Ancestors, Child;
  }

  lemma LocateLands(tree: Tree, name: string, last: bool, w: World)
    requires WellFormed(tree)
    ensures var r := Locate(tree, name, last, w); r.At? ==> r.name == "." || Nested(tree, r.name)
  {
    JoinOfSplit(name, '/');
    FollowLands(tree, ".", Split(name, '/'), last, w.linkLimit);
  }

  /** Putting a leaf or a directory at a nested name that is not a directory yet. */
  lemma PutKeeps(tree: Tree, p: string, node: Node)
    requires WellFormed(tree) && Nested(tree, p) && !IsDir(tree, p)
    ensures WellFormed(tree[p := node])
  {
    var t := tree[p := node];
    forall q | q in t ensures Nested(t, q) {
      assert Nested(tree, q);
    }
  }

  lemma MkdirKeeps(tree: Tree, name: string, w: World)
    requires WellFormed(tree)
    ensures Mkdir(tree, name, w).Ok? ==> WellFormed(Mkdir(tree, name, w).value)
  {
    LocateLands(tree, name, false, w);
    var r := Locate(tree, name, false, w);
    if r.At? && !IsDir(tree, r.name) { PutKeeps(tree, r.name, Dir); }
  }

  lemma {:induction false} MkdirAllKeeps(tree: Tree, name: string, w: World)
    requires WellFormed(tree)
    ensures MkdirAll(tree, name, w).Ok? ==> WellFormed(MkdirAll(tree, name, w).value)
    decreases |name|
  {
    hide WellFormed, Mkdir, Locate;
    var parent := PathDirectory(name);
    if parent != "." { MkdirAllKeeps(tree, parent, w); }
    var t := Parents(tree, name, w);
    if t.Ok? { MkdirKeeps(t.value, name, w); }
  }

  /** Making directories leaves everything that is there. */
  lemma {:induction false} MkdirAllReplacesNothing(tree: Tree, name: string, w: World)
    ensures MkdirAll(tree, name, w).Ok? ==>
              var t := MkdirAll(tree, name, w).value; forall p :: p in tree ==> p in t && t[p] == tree[p]
    decreases |name|
  {
    hide Locate;
    var parent := PathDirectory(name);
    if parent != "." { MkdirAllReplacesNothing(tree, parent, w); }
  }

  lemma ParentsKeep(tree: Tree, name: string, w: World)
    requires WellFormed(tree)
    ensures Parents(tree, name, w).Ok? ==> WellFormed(Parents(tree, name, w).value)
  {
    MkdirAllKeeps(tree, PathDirectory(name), w);
  }

  lemma PutFileKeeps(tree: Tree, name: string, content: string, mode: nat, w: World)
    requires WellFormed(tree)
    ensures PutFile(tree, name, content, mode, w).Ok? ==> WellFormed(PutFile(tree, name, content, mode, w).value)
  {
    LocateLands(tree, name, true, w);
    var r := Locate(tree, name, true, w);
    if r.At? && !IsDir(tree, r.name) { PutKeeps(tree, r.name, File(content, mode)); }
  }

  lemma PutLinkKeeps(tree: Tree, name: string, target: string, w: World)
    requires WellFormed(tree)
    ensures PutLink(tree, name, target, w).Ok? ==> WellFormed(PutLink(tree, name, target, w).value)
  {
    LocateLands(tree, name, false, w);
    var r := Locate(tree, name, false, w);
    if r.At? && !IsDir(tree, r.name) { PutKeeps(tree, r.name, Link(target)); }
  }

  lemma WriteFileKeeps(tree: Tree, name: string, content: string, w: World)
    requires WellFormed(tree)
    ensures WriteFile(tree, name, content, w).Ok? ==> WellFormed(WriteFile(tree, name, content, w).value)
  {
    LocateLands(tree, name, true, w);
    var r := Locate(tree, name, true, w);
    if r.At? && !IsDir(tree, r.name) {
      PutKeeps(tree, r.name, File(content, if r.name in tree && tree[r.name].File? then tree[r.name].mode else 420));
    }
  }

  // ----- Names that lead through no link --------------------------------------------------

  function Descend(at: string, segs: seq<string>): string
    decreases |segs|
  {
    if segs == [] then at else Descend(Child(at, segs[0]), segs[1..])
  }

  /** The directories passed on the way. */
  function Passed(at: string, segs: seq<string>): set<string>
    decreases |segs|
  {
    if |segs| <= 1 then {} else {Child(at, segs[0])} + Passed(Child(at, segs[0]), segs[1..])
  }

  ghost predicate Proper(segs: seq<string>) { forall i :: 0 <= i < |segs| ==> ProperSegment(segs[i]) }

  lemma ProperTail(at: string, segs: seq<string>)
    requires Proper(segs) && segs != [] && at != ""
    ensures Proper(segs[1..]) && Child(at, segs[0]) != "." && Child(at, segs[0]) != ""
  {
    assert ProperSegment(segs[0]);
    if at != "." { assert (at + "/" + segs[0])[|at|] == '/'; }
  }

  lemma {:induction false} DescendJoins(at: string, segs: seq<string>)
    requires Proper(segs) && segs != [] && at != ""
    ensures Descend(at, segs) == if at == "." then Join(segs, '/') else at + "/" + Join(segs, '/')
    decreases |segs|
  {
    ProperTail(at, segs);
    hide Proper;
    if |segs| > 1 { DescendJoins(Child(at, segs[0]), segs[1..]); }
  }

  lemma {:induction false} DescendAncestors(at: string, segs: seq<string>)
    requires Proper(segs) && segs != [] && at != ""
    ensures Ancestors(Descend(at, segs)) == (if at == "." then {} else {at} + Ancestors(at)) + Passed(at, segs)
    decreases |segs|
  {
    assert '/' !in segs[0] by { assert ProperSegment(segs[0]); }
    ProperTail(at, segs);
    ChildParent(at, segs[0]);
    hide Proper, Ancestors, Child;
    if |segs| > 1 {
      DescendAncestors(Child(at, segs[0]), segs[1..]);
    } else {
      assert segs[1..] == [];
    }
  }

  /** A proper name is the walk along its own segments. */
  lemma NameWalk(name: string)
    requires ProperName(name)
    ensures Proper(Split(name, '/')) && Descend(".", Split(name, '/')) == name
    ensures Passed(".", Split(name, '/')) == Ancestors(name)
  {
    DescendJoins(".", Split(name, '/'));
    JoinOfSplit(name, '/');
    DescendAncestors(".", Split(name, '/'));
  }

  ghost predicate AllDirs(tree: Tree, names: set<string>) { forall d :: d in names ==> d in tree && tree[d] == Dir }

  ghost predicate NoLinks(tree: Tree, names: set<string>) { forall d :: d in names && d in tree ==> !tree[d].Link? }

  lemma {:induction false} FollowDirs(tree: Tree, at: string, segs: seq<string>, last: bool, budget: nat)
    requires Proper(segs) && segs != [] && at != "" && AllDirs(tree, Passed(at, segs))
    requires last ==> NoLinks(tree, {Descend(at, segs)})
    ensures Follow(tree, at, segs, last, budget) == At(Descend(at, segs))
    decreases |segs|
  {
    ProperTail(at, segs);
    assert ProperSegment(segs[0]);
    hide Proper, Child;
    if |segs| > 1 {
      FollowDirs(tree, Child(at, segs[0]), segs[1..], last, budget);
    } else {
      assert segs[1..] == [];
    }
  }

  lemma {:induction false} FollowBlocked(tree: Tree, at: string, segs: seq<string>, last: bool, budget: nat)
    requires Proper(segs) && segs != [] && at != "" && NoLinks(tree, Passed(at, segs))
    requires !AllDirs(tree, Passed(at, segs))
    ensures var r := Follow(tree, at, segs, last, budget); r == NoEntry || r == NotDirectory
    decreases |segs|
  {
    ProperTail(at, segs);
    assert ProperSegment(segs[0]);
    hide Proper, Child;
    if |segs| > 1 {
      var p := Child(at, segs[0]);
      assert NoLinks(tree, Passed(p, segs[1..]));
      if p in tree && tree[p] == Dir {
        FollowBlocked(tree, p, segs[1..], last, budget);
      }
    }
  }

  /** With only directories above it, a name leads to itself. */
  lemma LocateDirs(tree: Tree, name: string, last: bool, w: World)
    requires ProperName(name) && AllDirs(tree, Ancestors(name)) && (last ==> NoLinks(tree, {name}))
    ensures Locate(tree, name, last, w) == At(name)
  {
    NameWalk(name);
    FollowDirs(tree, ".", Split(name, '/'), last, w.linkLimit);
  }

  /** With no link above it, a name leads to itself or nowhere. */
  lemma LocateNoLinks(tree: Tree, name: string, last: bool, w: World)
    requires ProperName(name) && NoLinks(tree, Ancestors(name)) && (last ==> NoLinks(tree, {name}))
    ensures var r := Locate(tree, name, last, w);
            if AllDirs(tree, Ancestors(name)) then r == At(name) else r == NoEntry || r == NotDirectory
  {
    if AllDirs(tree, Ancestors(name)) {
      LocateDirs(tree, name, last, w);
    } else {
      NameWalk(name);
      FollowBlocked(tree, ".", Split(name, '/'), last, w.linkLimit);
    }
  }

  /** In a well-formed tree every node is found under its own name. */
  lemma LstatReal(tree: Tree, p: string, w: World)
    requires WellFormed(tree) && p in tree
    ensures Lstat(tree, p, w) == Seen(tree[p])
  {
    assert Nested(tree, p);
    ProperIsNotRoot(p);
    LocateDirs(tree, p, false, w);
  }

  lemma ProperIsNotRoot(p: string)
    requires ProperName(p)
    ensures p != "." && p != ""
  {
    SplitWhole(".", '/');
    SplitWhole("", '/');
    assert ProperSegment(Split(p, '/')[0]);
  }

  lemma NotOwnAncestor(p: string)
    ensures p !in Ancestors(p)
  {
    if p in Ancestors(p) { AncestorsShorter(p, p); }
  }

  lemma ProperParent(name: string)
    requires ProperName(name) && PathDirectory(name) != "."
    ensures ProperName(PathDirectory(name)) && |PathDirectory(name)| < |name|
    ensures Ancestors(name) == {PathDirectory(name)} + Ancestors(PathDirectory(name))
  {
    var i := LastSlash(name);
    var d, seg := name[..i], name[i + 1..];
    assert name == d + "/" + seg;
    SplitSnoc(d, seg);
    assert forall k :: 0 <= k < |Split(d, '/')| ==> Split(d, '/')[k] == Split(name, '/')[k];
  }

  function WithDirs(tree: Tree, names: set<string>): Tree { tree + map d | d in names :: Dir }

  lemma WithOneMore(tree: Tree, names: set<string>, p: string)
    ensures WithDirs(tree, names + {p}) == WithDirs(tree, names)[p := Dir]
  {
  }

  /** If at all, the names become directories, and nothing else stood there. */
  ghost predicate Adds(tree: Tree, names: set<string>, r: Result<Tree, FsError>) {
    r.Ok? ==> r.value == WithDirs(tree, names) && forall d :: d in names && d in tree ==> tree[d] == Dir
  }

  lemma MkdirAllExisting(tree: Tree, name: string, w: World)
    requires WellFormed(tree) && name in tree && name != "." && Locate(tree, name, true, w) == At(name)
    ensures Adds(tree, Ancestors(name) + {name}, MkdirAll(tree, name, w))
  {
    hide Nested, WellFormed, Locate, Ancestors, Mkdir, Parents;
    NestedDirs(tree, name);
    if tree[name] == Dir { assert WithDirs(tree, Ancestors(name) + {name}) == tree; }
  }

  lemma MkdirAllMissing(tree: Tree, name: string, w: World)
    requires name !in tree && name != "."
    requires var r := Locate(tree, name, true, w); r == At(name) || r == NoEntry || r == NotDirectory
    ensures MkdirAll(tree, name, w)
            == match Parents(tree, name, w) case Err(e) => Err(e) case Ok(t) => Mkdir(t, name, w)
  {
    hide Locate, Mkdir, Parents;
  }

  /** `os.MkdirAll` where no link is in the way adds the missing directories. */
  lemma {:induction false} MkdirAllPlain(tree: Tree, name: string, w: World)
    requires WellFormed(tree) && ProperName(name) && NoLinks(tree, Ancestors(name) + {name})
    ensures Adds(tree, Ancestors(name) + {name}, MkdirAll(tree, name, w))
    decreases |name|
  {
    ProperIsNotRoot(name);
    LocateNoLinks(tree, name, true, w);
    hide Locate, Mkdir, ProperName, MkdirAll, WellFormed, Split;
    if name in tree {
      assert AllDirs(tree, Ancestors(name)) by { NestedDirs(tree, name); }
      MkdirAllExisting(tree, name, w);
    } else {
      MkdirAllMissing(tree, name, w);
      ParentsPlain(tree, name, w);
      NotOwnAncestor(name);
      hide Ancestors, Parents;
      var t := Parents(tree, name, w);
      if t.Ok? { MkdirLast(tree, t.value, name, w); }
    }
  }

  lemma NestedDirs(tree: Tree, p: string)
    requires WellFormed(tree) && p in tree
    ensures AllDirs(tree, Ancestors(p))
  {
    assert Nested(tree, p);
  }

  /** The same for the directory part of a name. */
  lemma {:induction false} ParentsPlain(tree: Tree, name: string, w: World)
    requires WellFormed(tree) && ProperName(name) && NoLinks(tree, Ancestors(name))
    ensures Adds(tree, Ancestors(name), Parents(tree, name, w))
    decreases |name|, 0
  {
    hide WellFormed, MkdirAll;
    if PathDirectory(name) == "." {
      assert Ancestors(name) == {};
      assert WithDirs(tree, Ancestors(name)) == tree;
    } else {
      ProperParent(name);
      hide ProperName;
      assert Ancestors(name) == Ancestors(PathDirectory(name)) + {PathDirectory(name)};
      MkdirAllPlain(tree, PathDirectory(name), w);
    }
  }

  lemma MkdirLast(tree: Tree, t: Tree, name: string, w: World)
    requires ProperName(name) && name !in tree && name !in Ancestors(name) && name != "."
    requires t == WithDirs(tree, Ancestors(name))
    ensures Mkdir(t, name, w) == Ok(WithDirs(tree, Ancestors(name) + {name}))
  {
    hide Ancestors, ProperName, Locate;
    assert AllDirs(t, Ancestors(name));
    LocateDirs(t, name, false, w);
    WithOneMore(tree, Ancestors(name), name);
  }

  // ----- Writing where a name leads ---------------------------------------------------------

  /** Following every link never ends at a link. */
  lemma {:induction false} FollowEndsAtNoLink(tree: Tree, at: string, rest: seq<string>, budget: nat)
    requires at in tree ==> !tree[at].Link?
    requires WellFormed(tree) && IsDir(tree, at)
    ensures var r := Follow(tree, at, rest, true, budget); r.At? && r.name in tree ==> !tree[r.name].Link?
    decreases budget, |rest|
  {
    if rest != [] {
      var seg, more := rest[0], rest[1..];
      if seg == "" || seg == "." {
        FollowEndsAtNoLink(tree, at, more, budget);
      } else if seg == ".." {
        if at != "." {
          DirParent(tree, at);
          hide WellFormed;
          NoRootNode(tree);
          FollowEndsAtNoLink(tree, PathDirectory(at), more, budget);
        }
      } else {
        var p := Child(at, seg);
        hide WellFormed, Child, PathDirectory, Split;
        if p in tree && tree[p] == Dir {
          FollowEndsAtNoLink(tree, p, more, budget);
        } else if p in tree && tree[p].Link? && budget > 0 {
          FollowEndsAtNoLink(tree, at, Split(tree[p].target, '/') + more, budget - 1);
        }
      }
    }
  }

  lemma NoRootNode(tree: Tree)
    requires WellFormed(tree)
    ensures "." !in tree
  {
    if "." in tree {
      assert Nested(tree, ".");
      ProperIsNotRoot(".");
    }
  }

  /** A file put where a walk ends does not change where it ends. */
  lemma {:induction false} FollowSame(tree: Tree, at: string, rest: seq<string>, last: bool, budget: nat, p: string,
                                      node: Node)
    requires Follow(tree, at, rest, last, budget) == At(p) && (p in tree ==> tree[p].File?) && node.File?
    ensures Follow(tree[p := node], at, rest, last, budget) == At(p)
    decreases budget, |rest|
  {
    if rest != [] {
      var seg, more := rest[0], rest[1..];
      if seg == "" || seg == "." {
        FollowSame(tree, at, more, last, budget, p, node);
      } else if seg == ".." {
        FollowSame(tree, PathDirectory(at), more, last, budget, p, node);
      } else {
        var q := Child(at, seg);
        hide Child, PathDirectory, Split;
        if q in tree && tree[q] == Dir {
          FollowSame(tree, q, more, last, budget, p, node);
        } else if q in tree && tree[q].Link? && !(more == [] && !last) {
          FollowSame(tree, at, Split(tree[q].target, '/') + more, last, budget - 1, p, node);
        }
      }
    }
  }

  /** What `os.WriteFile` leaves: the content at the place the name leads to, a file's mode
      kept, and the name still leading there. */
  lemma WriteFileMeans(tree: Tree, name: string, content: string, w: World)
    requires WellFormed(tree) && WriteFile(tree, name, content, w).Ok?
    ensures var t, r := WriteFile(tree, name, content, w).value, Locate(tree, name, true, w);
            && WellFormed(t)
            && (r.At? || r == Outside)
            && (r == Outside ==> t == tree)
            && (r.At? ==>
                  && r.name != "." && (r.name in tree ==> tree[r.name].File?)
                  && t == tree[r.name := File(content, if r.name in tree then tree[r.name].mode else 420)]
                  && Locate(t, name, true, w) == r)
  {
    WriteFileKeeps(tree, name, content, w);
    var r := Locate(tree, name, true, w);
    NoRootNode(tree);
    FollowEndsAtNoLink(tree, ".", Split(name, '/'), w.linkLimit);
    if r.At? {
      var node := File(content, if r.name in tree then tree[r.name].mode else 420);
      FollowSame(tree, ".", Split(name, '/'), true, w.linkLimit, r.name, node);
    }
  }
}
