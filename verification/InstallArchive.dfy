/** From archive to install: inspection of every entry, extraction into a staging tree,
    the manifest, and the round trip back through the check. */
module InstallArchive {
  import opened Prelude
  import opened Text
  import opened ArchiveNames
  import opened FileTree
  import opened Install
  import opened InstallTheorems

  datatype Kind = Directory | Regular(content: string) | Symlink(target: string) | OtherKind

  datatype Header = Header(name: string, kind: Kind, mode: int)

  datatype Format = Zip | TarGz

  datatype Entry = Entry(name: string, mode: nat, kind: Kind)

  datatype InspectError =
    | BadName(reason: NameError)
    | DuplicateEntry(name: string)
    | UnsafeLink(name: string)
    | UnsafeTarget(name: string)
    | UnsafeType(name: string)

  // ----- Inspection --------------------------------------------------------------------------------

  /** The permission bits, with a default where the archive has none. */
  function PermOrDefault(mode: int, dir: bool): (p: nat)
    ensures p < 512
  {
    if mode % 512 != 0 then mode % 512 else if dir then 493 else 420
  }

  function KindProblem(h: Header, name: string, format: Format): Option<InspectError> {
    match h.kind
    case Directory => None
    case Regular(_) => None
    case Symlink(target) =>
      if format == Zip then Some(UnsafeLink(h.name))
      else if !TargetAllowed(name, target) then Some(UnsafeTarget(h.name)) else None
    case OtherKind => Some(UnsafeType(h.name))
  }

  function InspectedOne(h: Header, format: Format, seen: set<string>): Result<Entry, InspectError> {
    match Normalize(h.name)
    case Err(e) => Err(BadName(e))
    case Ok(name) =>
      if name in seen then Err(DuplicateEntry(name))
      else match KindProblem(h, name, format)
           case Some(e) => Err(e)
           case None => Ok(Entry(name, PermOrDefault(h.mode, h.kind == Directory), h.kind))
  }

  function Names(entries: seq<Entry>): set<string> { set i | 0 <= i < |entries| :: entries[i].name }

  function InspectAll(headers: seq<Header>, format: Format): Result<seq<Entry>, InspectError> {
    if headers == [] then Ok([])
    else
      match InspectAll(headers[..|headers| - 1], format)
      case Err(e) => Err(e)
      case Ok(entries) =>
        match InspectedOne(headers[|headers| - 1], format, Names(entries))
        case Err(e) => Err(e)
        case Ok(entry) => Ok(entries + [entry])
  }

  lemma {:induction false} InspectStops(headers: seq<Header>, format: Format, n: nat)
    requires n <= |headers| && InspectAll(headers[..n], format).Err?
    ensures InspectAll(headers, format) == InspectAll(headers[..n], format)
  {
    if n == |headers| {
      assert headers[..n] == headers;
    } else {
      assert headers[..|headers| - 1][..n] == headers[..n];
      InspectStops(headers[..|headers| - 1], format, n);
    }
  }

  lemma NamesAppend(entries: seq<Entry>, e: Entry)
    ensures Names(entries + [e]) == Names(entries) + {e.name}
  {
    var more := entries + [e];
    forall n | n in Names(entries) + {e.name} ensures n in Names(more) {
      if n in Names(entries) {
        var i :| 0 <= i < |entries| && entries[i].name == n;
        assert more[i].name == n;
      } else {
        assert more[|entries|].name == n;
      }
    }
  }

  /** `inspectZipEntries` and `inspectTarGzEntries`. */
  method Inspect(headers: seq<Header>, format: Format) returns (r: Result<seq<Entry>, InspectError>)
    ensures r == InspectAll(headers, format)
  {
    hide Normalize, KindProblem;
    var seen: set<string> := {};
    var entries: seq<Entry> := [];
    for i := 0 to |headers|
      invariant InspectAll(headers[..i], format) == Ok(entries) && seen == Names(entries)
    {
      assert headers[..i + 1][..i] == headers[..i];
      var h := headers[i];
      var name := Normalize(h.name);
      if name.Err? {
        InspectStops(headers, format, i + 1);
        return Err(BadName(name.error));
      }
      if name.value in seen {
        InspectStops(headers, format, i + 1);
        return Err(DuplicateEntry(name.value));
      }
      var problem := KindProblem(h, name.value, format);
      if problem.Some? {
        InspectStops(headers, format, i + 1);
        return Err(problem.value);
      }
      var entry := Entry(name.value, PermOrDefault(h.mode, h.kind == Directory), h.kind);
      NamesAppend(entries, entry);
      entries, seen := entries + [entry], seen + {name.value};
    }
    assert headers[..|headers|] == headers;
    return Ok(entries);
  }

  // ----- What inspection guarantees ---------------------------------------------------------------

  ghost predicate EntryGood(e: Entry) {
    && NormalName(e.name) && e.mode < 512 && e.kind != OtherKind
    && (e.kind.Symlink? ==> TargetAllowed(e.name, e.kind.target))
  }

  ghost predicate UniqueNames(entries: seq<Entry>) {
    forall i, j :: 0 <= i < j < |entries| ==> entries[i].name != entries[j].name
  }

  lemma {:induction false} InspectGood(headers: seq<Header>, format: Format)
    requires InspectAll(headers, format).Ok?
    ensures var entries := InspectAll(headers, format).value;
            UniqueNames(entries) && forall i :: 0 <= i < |entries| ==> EntryGood(entries[i])
  {
    if headers != [] {
      InspectGood(headers[..|headers| - 1], format);
      var h := headers[|headers| - 1];
      var front := InspectAll(headers[..|headers| - 1], format).value;
      hide InspectAll, Normalize, TargetAllowed;
      assert forall i :: 0 <= i < |front| ==> front[i].name in Names(front);
      assert NormalName(Normalize(h.name).value);
    }
  }

  // ----- The archive's tables ------------------------------------------------------------------------

  function TablesOf(entries: seq<Entry>): Tables {
    if entries == [] then Tables(map[], map[])
    else
      var t, e := TablesOf(entries[..|entries| - 1]), entries[|entries| - 1];
      match e.kind
      case Regular(_) => t.(modes := t.modes[e.name := e.mode])
      case Symlink(target) => t.(links := t.links[e.name := target])
      case _ => t
  }

  ghost predicate Tabled(t: Tables, e: Entry) {
    && (e.kind.Regular? ==> e.name in t.modes && t.modes[e.name] == e.mode)
    && (e.kind.Symlink? ==> e.name in t.links && t.links[e.name] == e.kind.target)
  }

  lemma {:induction false} TablesHold(entries: seq<Entry>)
    requires UniqueNames(entries)
    ensures forall i :: 0 <= i < |entries| ==> Tabled(TablesOf(entries), entries[i])
  {
    if entries != [] {
      var front := entries[..|entries| - 1];
      TablesHold(front);
      forall i | 0 <= i < |entries| ensures Tabled(TablesOf(entries), entries[i]) {
        if i < |front| { assert Tabled(TablesOf(front), front[i]); }
      }
    }
  }

  lemma {:induction false} TablesInspected(entries: seq<Entry>)
    requires forall i :: 0 <= i < |entries| ==> EntryGood(entries[i])
    ensures Inspected(TablesOf(entries))
  {
    hide TargetAllowed, NormalName;
    if entries != [] {
      TablesInspected(entries[..|entries| - 1]);
      assert EntryGood(entries[|entries| - 1]);
    }
  }

  // ----- Extraction -------------------------------------------------------------------------------------

  /** One entry put where its name leads, with its parent directories. */
  function Placed(tree: Tree, e: Entry, w: World): Result<Tree, FsError> {
    match e.kind
    case Regular(content) =>
      (match Parents(tree, e.name, w)
       case Err(x) => Err(x)
       case Ok(t) => PutFile(t, e.name, content, e.mode, w))
    case Symlink(target) =>
      (match Parents(tree, e.name, w)
       case Err(x) => Err(x)
       case Ok(t) => PutLink(t, e.name, target, w))
    case _ => MkdirAll(tree, e.name, w)
  }

  function ExtractAll(order: seq<Entry>, w: World): Result<Tree, FsError> {
    if order == [] then Ok(map[])
    else
      match ExtractAll(order[..|order| - 1], w)
      case Err(e) => Err(e)
      case Ok(tree) => Placed(tree, order[|order| - 1], w)
  }

  lemma {:induction false} ExtractStops(order: seq<Entry>, n: nat, w: World)
    requires n <= |order| && ExtractAll(order[..n], w).Err?
    ensures ExtractAll(order, w) == ExtractAll(order[..n], w)
  {
    hide Placed;
    if n == |order| {
      assert order[..n] == order;
    } else {
      assert order[..|order| - 1][..n] == order[..n];
      ExtractStops(order[..|order| - 1], n, w);
    }
  }

  /** `extractZipArchive` and `extractTarGzArchive`, entry by entry, following whatever
      symlinks the archive itself has put in the way. */
  method Extract(order: seq<Entry>, w: World) returns (r: Result<Tree, FsError>)
    ensures r == ExtractAll(order, w)
  {
    hide Parents, MkdirAll, PutFile, PutLink;
    var tree: Tree := map[];
    for i := 0 to |order|
      invariant ExtractAll(order[..i], w) == Ok(tree)
    {
      assert order[..i + 1][..i] == order[..i];
      var e := order[i];
      var placed: Result<Tree, FsError>;
      if !e.kind.Regular? && !e.kind.Symlink? {
        placed := MkdirAll(tree, e.name, w);
      } else {
        placed := Parents(tree, e.name, w);
        if placed.Ok? {
          placed := if e.kind.Symlink? then PutLink(placed.value, e.name, e.kind.target, w)
                    else PutFile(placed.value, e.name, e.kind.content, e.mode, w);
        }
      }
      assert placed == Placed(tree, e, w);
      if placed.Err? {
        ExtractStops(order, i + 1, w);
        return Err(placed.error);
      }
      tree := placed.value;
    }
    assert order[..|order|] == order;
    return Ok(tree);
  }

  lemma PlacedWellFormed(tree: Tree, e: Entry, w: World)
    requires WellFormed(tree)
    ensures Placed(tree, e, w).Ok? ==> WellFormed(Placed(tree, e, w).value)
  {
    hide WellFormed, Parents, MkdirAll, PutFile, PutLink;
    MkdirAllKeeps(tree, e.name, w);
    ParentsKeep(tree, e.name, w);
    var t := Parents(tree, e.name, w);
    if t.Ok? && e.kind.Regular? { PutFileKeeps(t.value, e.name, e.kind.content, e.mode, w); }
    if t.Ok? && e.kind.Symlink? { PutLinkKeeps(t.value, e.name, e.kind.target, w); }
  }

  /** Whatever links an archive lays, the extracted tree is a tree. */
  lemma {:induction false} ExtractedWellFormed(order: seq<Entry>, w: World)
    ensures ExtractAll(order, w).Ok? ==> WellFormed(ExtractAll(order, w).value)
  {
    hide Placed;
    if order == [] {
      NothingWellFormed();
    } else {
      hide WellFormed;
      ExtractedWellFormed(order[..|order| - 1], w);
      var t := ExtractAll(order[..|order| - 1], w);
      if t.Ok? { PlacedWellFormed(t.value, order[|order| - 1], w); }
    }
  }

  lemma NothingWellFormed()
    ensures WellFormed(map[])
  {
  }

  function NodeOf(e: Entry): Node {
    match e.kind
    case Regular(content) => File(content, e.mode)
    case Symlink(target) => Link(target)
    case _ => Dir
  }

  /** The entry is in its place, below directories. */
  ghost predicate Holds(tree: Tree, e: Entry) {
    && e.name in tree && tree[e.name] == NodeOf(e)
    && forall d :: d in Ancestors(e.name) ==> d in tree && tree[d] == Dir
  }

  /** The entry, or a parent directory of it, is what stands at p. */
  ghost predicate Explains(e: Entry, tree: Tree, p: string)
    requires p in tree
  {
    e.name == p || (tree[p] == Dir && p in Ancestors(e.name))
  }

  ghost predicate Explained(order: seq<Entry>, tree: Tree, p: string)
    requires p in tree
  {
    exists e :: e in order && Explains(e, tree, p)
  }

  /** The tree is the archive: each entry in its place, parents as directories, no more. */
  ghost predicate Unpacked(tree: Tree, order: seq<Entry>) {
    && (forall e :: e in order ==> Holds(tree, e))
    && (forall p :: p in tree ==> Explained(order, tree, p))
  }

  lemma Explanation(tree: Tree, order: seq<Entry>, p: string) returns (e: Entry)
    requires Unpacked(tree, order) && p in tree
    ensures e in order && Explains(e, tree, p) && Holds(tree, e)
  {
    hide Holds, Explains;
    assert Explained(order, tree, p);
    e :| e in order && Explains(e, tree, p);
  }

  lemma InPlace(tree: Tree, order: seq<Entry>, e: Entry)
    requires Unpacked(tree, order) && e in order
    ensures e.name in tree && tree[e.name] == NodeOf(e)
  {
    hide Explained, Ancestors;
  }

  /** No entry lies beneath a symlink entry. */
  ghost predicate Unaliased(order: seq<Entry>) {
    forall e, l :: e in order && l in order && l.kind.Symlink? ==> l.name !in Ancestors(e.name)
  }

  /** The names are proper: what inspection guarantees. */
  lemma NormalIsProper(p: string)
    requires NormalName(p)
    ensures ProperName(p)
  {
    var raw :| Normalize(raw) == Ok(p);
    NormalShape(raw);
    var ss := Cleaned(Split(Replace(raw, '\\', '/'), '/'));
    hide Normalize, Cleaned, Replace;
    PlainJoined(ss);
    forall i | 0 <= i < |ss| ensures ProperSegment(ss[i]) { assert PlainSegment(ss[i]); }
  }

  /** Only directories can stand above a name none of whose parents is a link. */
  lemma NoLinkAbove(tree: Tree, front: seq<Entry>, e: Entry)
    requires Unpacked(tree, front) && Unaliased(front + [e]) && forall x :: x in front ==> x.name != e.name
    ensures NoLinks(tree, Ancestors(e.name) + {e.name})
  {
    hide Unpacked, Ancestors;
    forall d | d in Ancestors(e.name) + {e.name} && d in tree ensures !tree[d].Link? {
      var x := Explanation(tree, front, d);
      assert x in front + [e] && e in front + [e];
    }
  }

  /** Where no link is in the way, an entry lands under its own name. */
  ghost predicate Lands(tree: Tree, e: Entry, t: Tree) {
    && t == WithDirs(tree, Ancestors(e.name))[e.name := NodeOf(e)]
    && (forall d :: d in Ancestors(e.name) && d in tree ==> tree[d] == Dir)
    && (e.name in tree && tree[e.name] == Dir ==> NodeOf(e) == Dir)
  }

  lemma DirLands(tree: Tree, e: Entry, w: World)
    requires WellFormed(tree) && ProperName(e.name) && NoLinks(tree, Ancestors(e.name) + {e.name})
    requires e.kind == Directory
    ensures Placed(tree, e, w).Ok? ==> Lands(tree, e, Placed(tree, e, w).value)
  {
    hide WellFormed, MkdirAll, Ancestors, ProperName, WithDirs, NoLinks;
    MkdirAllPlain(tree, e.name, w);
    WithOneMore(tree, Ancestors(e.name), e.name);
  }

  lemma LeafLands(tree: Tree, e: Entry, w: World)
    requires WellFormed(tree) && ProperName(e.name) && NoLinks(tree, Ancestors(e.name) + {e.name})
    requires e.kind.Regular? || e.kind.Symlink?
    ensures Placed(tree, e, w).Ok? ==> Lands(tree, e, Placed(tree, e, w).value)
  {
    hide WellFormed, Parents, Ancestors, ProperName, Locate;
    ParentsPlain(tree, e.name, w);
    NotOwnAncestor(e.name);
    ProperIsNotRoot(e.name);
    var parents := Parents(tree, e.name, w);
    if parents.Ok? {
      var t := parents.value;
      assert AllDirs(t, Ancestors(e.name));
      assert e.name in t <==> e.name in tree;
      assert e.name in t ==> t[e.name] == tree[e.name];
      LocateDirs(t, e.name, e.kind.Regular?, w);
    }
  }

  /** Landing keeps what is there and adds the entry and its parents. */
  lemma LandedKeeps(tree: Tree, e: Entry, t: Tree, p: string)
    requires Lands(tree, e, t) && p in tree && (p == e.name ==> tree[p] == Dir)
    ensures p in t && t[p] == tree[p]
  {
    hide Ancestors, NodeOf;
  }

  lemma LandedAdds(tree: Tree, e: Entry, t: Tree)
    requires Lands(tree, e, t)
    ensures Holds(t, e) && forall p :: p in t ==> p in tree || Explains(e, t, p)
  {
    NotOwnAncestor(e.name);
    hide Ancestors, NodeOf;
  }

  /** An entry of a new name leaves everything already there. */
  lemma AllKept(tree: Tree, front: seq<Entry>, e: Entry, t: Tree, p: string)
    requires Unpacked(tree, front) && Lands(tree, e, t) && p in tree && NoLinks(tree, {e.name})
    requires forall x :: x in front ==> x.name != e.name
    ensures p in t && t[p] == tree[p]
  {
    hide Unpacked, Ancestors, Lands;
    var x := Explanation(tree, front, p);
    LandedKeeps(tree, e, t, p);
  }

  lemma StillExplained(tree: Tree, t: Tree, front: seq<Entry>, e: Entry, p: string)
    requires Unpacked(tree, front) && p in tree && p in t && t[p] == tree[p]
    ensures Explained(front + [e], t, p)
  {
    hide Unpacked, Holds, Ancestors;
    var x := Explanation(tree, front, p);
    assert x in front + [e] && Explains(x, t, p);
  }

  lemma StillHolds(tree: Tree, t: Tree, e: Entry)
    requires Holds(tree, e) && forall p :: p in tree ==> p in t && t[p] == tree[p]
    ensures Holds(t, e)
  {
    hide Ancestors, NodeOf;
  }

  lemma NewlyExplained(t: Tree, front: seq<Entry>, e: Entry, p: string)
    requires p in t && Explains(e, t, p)
    ensures Explained(front + [e], t, p)
  {
    hide Explains;
    assert e in front + [e];
  }

  lemma UnpackOne(tree: Tree, front: seq<Entry>, e: Entry, t: Tree)
    requires Unpacked(tree, front) && Lands(tree, e, t) && NoLinks(tree, {e.name})
    requires forall x :: x in front ==> x.name != e.name
    ensures Unpacked(t, front + [e])
  {
    hide Lands, Holds, Explained, Explains, NoLinks;
    LandedAdds(tree, e, t);
    forall p | p in tree ensures p in t && t[p] == tree[p] { AllKept(tree, front, e, t, p); }
    forall x | x in front ensures Holds(t, x) { StillHolds(tree, t, x); }
    forall p | p in t ensures Explained(front + [e], t, p) {
      if p in tree { StillExplained(tree, t, front, e, p); } else { NewlyExplained(t, front, e, p); }
    }
  }

  /** An archive without an entry beneath a symlink unpacks to itself. */
  lemma {:induction false} Unpacks(order: seq<Entry>, w: World)
    requires ExtractAll(order, w).Ok? && UniqueNames(order) && Unaliased(order)
    requires forall i :: 0 <= i < |order| ==> order[i].kind != OtherKind && ProperName(order[i].name)
    ensures Unpacked(ExtractAll(order, w).value, order)
  {
    hide Placed, Unpacked, ProperName, WellFormed, Unaliased;
    if order == [] {
      NothingUnpacked();
    } else {
      var front, e := order[..|order| - 1], order[|order| - 1];
      assert order == front + [e];
      FewerUnaliased(front, e);
      Unpacks(front, w);
      ExtractedWellFormed(front, w);
      var tree := ExtractAll(front, w).value;
      NoLinkAbove(tree, front, e);
      hide NoLinks, Lands, ExtractAll;
      assert NoLinks(tree, {e.name}) by { LinksFewer(tree, Ancestors(e.name) + {e.name}, {e.name}); }
      if e.kind == Directory { DirLands(tree, e, w); } else { LeafLands(tree, e, w); }
      UnpackOne(tree, front, e, Placed(tree, e, w).value);
    }
  }

  lemma LinksFewer(tree: Tree, names: set<string>, fewer: set<string>)
    requires NoLinks(tree, names) && fewer <= names
    ensures NoLinks(tree, fewer)
  {
  }

  lemma FewerUnaliased(front: seq<Entry>, e: Entry)
    requires Unaliased(front + [e])
    ensures Unaliased(front)
  {
    forall x, l | x in front && l in front && l.kind.Symlink? ensures l.name !in Ancestors(x.name) {
      assert x in front + [e] && l in front + [e];
    }
  }

  lemma NothingUnpacked()
    ensures Unpacked(map[], [])
  {
  }

  // ----- The tree and the archive agree ------------------------------------------------------------------

  lemma LeafIsEntry(tree: Tree, order: seq<Entry>, p: string) returns (e: Entry)
    requires Unpacked(tree, order) && Leaf(tree, p)
    ensures e in order && e.name == p && tree[p] == NodeOf(e) && e.kind != Directory
  {
    hide Unpacked, Ancestors;
    e := Explanation(tree, order, p);
  }

  /** The inventory of a tree that is the archive never fails. */
  lemma InventoryClear(tree: Tree, order: seq<Entry>, a: Tables)
    requires Unpacked(tree, order) && forall e :: e in order ==> Tabled(a, e) && e.kind != OtherKind
    ensures Clear(tree, a)
  {
    hide Unpacked;
    forall p | p in tree ensures InventoryProblem(tree, a, p) == None {
      if Leaf(tree, p) {
        var e := LeafIsEntry(tree, order, p);
        assert Tabled(a, e);
      }
    }
  }

  /** Every directory of the archive has a file or symlink beneath it. */
  ghost predicate NoBareDirectory(entries: seq<Entry>) {
    forall d :: d in entries && d.kind == Directory ==>
      exists e :: e in entries && e.kind != Directory && d.name in Ancestors(e.name)
  }

  lemma BeneathLeaf(tree: Tree, order: seq<Entry>, d: string, e: Entry)
    requires Unpacked(tree, order) && e in order && d in Ancestors(e.name) && e.kind != Directory && e.kind != OtherKind
    ensures HasLeaf(tree, d)
  {
    hide Unpacked, Ancestors;
    InPlace(tree, order, e);
    assert Leaf(tree, e.name);
  }

  lemma DirectoriesUsedIff(tree: Tree, order: seq<Entry>)
    requires Unpacked(tree, order) && forall e :: e in order ==> e.kind != OtherKind
    ensures EveryDirectoryUsed(tree) <==> NoBareDirectory(order)
  {
    hide Ancestors, Unpacked;
    if EveryDirectoryUsed(tree) {
      forall d | d in order && d.kind == Directory
        ensures exists e :: e in order && e.kind != Directory && d.name in Ancestors(e.name)
      {
        InPlace(tree, order, d);
        assert HasLeaf(tree, d.name);
        var p :| Leaf(tree, p) && d.name in Ancestors(p);
        var e := LeafIsEntry(tree, order, p);
      }
    }
    if NoBareDirectory(order) {
      forall p | p in tree && tree[p] == Dir ensures HasLeaf(tree, p) {
        DirectoryHasLeaf(tree, order, p);
      }
    }
  }

  lemma DirectoryHasLeaf(tree: Tree, order: seq<Entry>, p: string)
    requires Unpacked(tree, order) && NoBareDirectory(order) && p in tree && tree[p] == Dir
    requires forall e :: e in order ==> e.kind != OtherKind
    ensures HasLeaf(tree, p)
  {
    hide Ancestors, HasLeaf, Unpacked;
    var x := Explanation(tree, order, p);
    if x.kind == Directory {
      var e :| e in order && e.kind != Directory && x.name in Ancestors(e.name);
      if x.name != p { AncestorsTransitive(p, x.name, e.name); }
      BeneathLeaf(tree, order, p, e);
    } else {
      BeneathLeaf(tree, order, p, x);
    }
  }

  lemma LeavesRecognisedIff(tree: Tree, order: seq<Entry>, a: Tables)
    requires Unpacked(tree, order)
    requires forall e :: e in order ==> Tabled(a, e) && e.kind != OtherKind && e.mode < 512
    ensures EveryLeafRecognised(tree, a) <==> forall e :: e in order && e.kind != Directory ==> !IsBlank(e.name)
  {
    hide IsBlank, Ancestors, Unpacked;
    if EveryLeafRecognised(tree, a) {
      forall e | e in order && e.kind != Directory ensures !IsBlank(e.name) {
        InPlace(tree, order, e);
        assert Leaf(tree, e.name) && Recognised(tree, a, e.name);
      }
    }
    if forall e :: e in order && e.kind != Directory ==> !IsBlank(e.name) {
      forall p | Leaf(tree, p) ensures Recognised(tree, a, p) {
        var e := LeafIsEntry(tree, order, p);
        assert Tabled(a, e);
      }
    }
  }

  // ----- The round trip ------------------------------------------------------------------------------------

  /** What must hold of an archive without aliases, whose manifest will be `text`. */
  ghost predicate Recognisable(entries: seq<Entry>, text: string, c: Codec) {
    && NoBareDirectory(entries)
    && (forall e :: e in entries && e.kind != Directory ==> !IsBlank(e.name))
    && (forall e :: e in entries && e.kind.Regular? && e.name == MANIFEST_NAME ==>
          c.hash(text) == c.hash(e.kind.content))
  }

  /** The manifest's place is free or holds a file, unless an entry claims it. */
  lemma ManifestFitsIff(tree: Tree, order: seq<Entry>, text: string, c: Codec, w: World)
    requires Unpacked(tree, order) && WellFormed(tree)
    requires forall e :: e in order && e.kind.Symlink? ==> e.name != MANIFEST_NAME
    requires !IsDir(tree, MANIFEST_NAME)
    ensures ManifestFits(tree, text, c, w)
            <==> forall e :: e in order && e.kind.Regular? && e.name == MANIFEST_NAME ==>
                   c.hash(text) == c.hash(e.kind.content)
  {
    ManifestNameIsProper();
    hide MANIFEST_NAME, Ancestors, Unpacked, ProperName, Locate, WellFormed;
    if MANIFEST_NAME in tree {
      var x := LeafIsEntry(tree, order, MANIFEST_NAME);
    }
    LocateDirs(tree, MANIFEST_NAME, true, w);
    forall e | e in order && e.name == MANIFEST_NAME ensures MANIFEST_NAME in tree && tree[MANIFEST_NAME] == NodeOf(e) {
      InPlace(tree, order, e);
    }
  }

  /** An archive without aliases, once installed, is recognised exactly when every
      directory entry has a file or symlink beneath it, no leaf name is only white space
      and no root file is named like the manifest (or the two hash alike). */
  lemma TreeMatchesIff(tree: Tree, order: seq<Entry>, a: Tables, c: Codec, w: World, archive: string,
                       files: seq<InstalledFile>)
    requires Sound(c) && Inspected(a) && Unpacked(tree, order) && WellFormed(tree)
    requires forall e :: e in order ==> Tabled(a, e) && e.kind != OtherKind && e.mode < 512
    requires forall e :: e in order && e.kind.Symlink? ==> e.name != MANIFEST_NAME
    requires Lists(files, tree, a, c) && files != []
    requires WriteFile(tree, MANIFEST_NAME, c.encode(Manifest(SCHEMA_VERSION, archive, files)), w).Ok?
    ensures var text := c.encode(Manifest(SCHEMA_VERSION, archive, files));
            InstallVerdict(WriteFile(tree, MANIFEST_NAME, text, w).value, archive, c, w) == Good
            <==> Recognisable(order, text, c)
  {
    var text := c.encode(Manifest(SCHEMA_VERSION, archive, files));
    NotADirectoryThere(tree, text, w);
    PlainManifest(tree, order, w);
    hide Unpacked, Tabled, MANIFEST_NAME, Lists, Sound, Inspected, IsBlank, NoBareDirectory, InstallVerdict, WriteFile,
         EveryDirectoryUsed, EveryLeafRecognised, ManifestFits, WellFormed, Locate;
    InventoryClear(tree, order, a);
    hide Clear;
    DirectoriesUsedIff(tree, order);
    LeavesRecognisedIff(tree, order, a);
    ManifestFitsIff(tree, order, text, c, w);
    StagedTreeMatchesIff(tree, a, c, w, archive, files);
  }

  lemma PlainManifest(tree: Tree, order: seq<Entry>, w: World)
    requires Unpacked(tree, order) && WellFormed(tree)
    requires forall e :: e in order && e.kind.Symlink? ==> e.name != MANIFEST_NAME
    ensures Locate(tree, MANIFEST_NAME, true, w) == At(MANIFEST_NAME)
  {
    ManifestNameIsProper();
    hide MANIFEST_NAME, Ancestors, Unpacked, ProperName, Locate, WellFormed;
    if MANIFEST_NAME in tree && tree[MANIFEST_NAME].Link? {
      var x := LeafIsEntry(tree, order, MANIFEST_NAME);
    }
    LocateDirs(tree, MANIFEST_NAME, true, w);
  }
}
