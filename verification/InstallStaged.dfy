/** The whole installation, and what a later check says about it. */
module InstallStaged {
  import opened Prelude
  import opened Text
  import opened Sequences
  import opened ArchiveNames
  import opened FileTree
  import opened Install
  import opened InstallTheorems
  import opened InstallArchive
  import opened Containment
  import opened InstallExtraction

  // ----- Extraction order ----------------------------------------------------------------------

  predicate ByEntryName(a: Entry, b: Entry) { AtMost(a.name, b.name) }

  /** A ZIP is extracted in name order, a tar stream in its own. */
  function ExtractionOrder(format: Format, entries: seq<Entry>): seq<Entry> {
    if format == Zip then Sorted(entries, ByEntryName) else entries
  }

  lemma OrderSame(format: Format, entries: seq<Entry>)
    requires UniqueNames(entries)
    ensures UniqueNames(ExtractionOrder(format, entries))
    ensures forall e :: e in ExtractionOrder(format, entries) <==> e in entries
  {
    forall a: Entry, b: Entry ensures ByEntryName(a, b) || ByEntryName(b, a) { AtMostTotal(a.name, b.name); }
    forall a: Entry, b: Entry, c: Entry | ByEntryName(a, b) && ByEntryName(b, c) ensures ByEntryName(a, c) {
      AtMostTransitive(a.name, b.name, c.name);
    }
    SortedIsOrdered(entries, ByEntryName);
    var r := Sorted(entries, ByEntryName);
    forall e ensures e in r <==> e in entries { SameMembers(r, entries, e); }
    UniqueNamesPermute(entries, r);
  }

  lemma UniqueNamesPermute(entries: seq<Entry>, r: seq<Entry>)
    requires multiset(entries) == multiset(r) && UniqueNames(entries)
    ensures UniqueNames(r)
  {
    NoRepeatsCount(entries);
    NoRepeatsCount(r);
    assert NoRepeats(entries);
    forall i, j | 0 <= i < j < |r| ensures r[i].name != r[j].name {
      assert r[i] != r[j];
      SameMembers(entries, r, r[i]);
      SameMembers(entries, r, r[j]);
    }
  }

  // ----- Installing ------------------------------------------------------------------------------

  method BuildTables(entries: seq<Entry>) returns (a: Tables)
    ensures a == TablesOf(entries)
  {
    a := Tables(map[], map[]);
    for i := 0 to |entries|
      invariant a == TablesOf(entries[..i])
    {
      assert entries[..i + 1][..i] == entries[..i];
      match entries[i].kind {
        case Regular(_) => a := a.(modes := a.modes[entries[i].name := entries[i].mode]);
        case Symlink(target) => a := a.(links := a.links[entries[i].name := target]);
        case _ =>
      }
    }
    assert entries[..|entries|] == entries;
  }

  datatype InstallError =
    | InspectFailed(inspect: InspectError)
    | ExtractFailed(extract: FsError)
    | InventoryFailed(inventory: InventoryError)
    | NoFiles
    | ManifestNotWritten(write: FsError)

  function Staged(headers: seq<Header>, format: Format, w: World): Result<Tree, InstallError> {
    match InspectAll(headers, format)
    case Err(e) => Err(InspectFailed(e))
    case Ok(entries) =>
      match ExtractAll(ExtractionOrder(format, entries), w)
      case Err(e) => Err(ExtractFailed(e))
      case Ok(tree) => Ok(tree)
  }

  function ArchiveTables(headers: seq<Header>, format: Format): Tables {
    match InspectAll(headers, format)
    case Err(_) => Tables(map[], map[])
    case Ok(entries) => TablesOf(entries)
  }

  function ManifestText(archive: string, files: seq<InstalledFile>, c: Codec): string {
    c.encode(Manifest(SCHEMA_VERSION, archive, files))
  }

  /** The result is the staged tree with a manifest that lists it, written where the
      manifest's name leads. */
  ghost predicate Installed(headers: seq<Header>, format: Format, archive: string, c: Codec, w: World,
                            files: seq<InstalledFile>, result: Tree)
  {
    && Staged(headers, format, w).Ok?
    && var tree, a := Staged(headers, format, w).value, ArchiveTables(headers, format);
       && Clear(tree, a) && Lists(files, tree, a, c) && files != []
       && WriteFile(tree, MANIFEST_NAME, ManifestText(archive, files, c), w) == Ok(result)
  }

  /** Whether the manifest can be written at all. */
  predicate ManifestWritable(tree: Tree, w: World) { WriteFile(tree, MANIFEST_NAME, "", w).Ok? }

  lemma AnyText(tree: Tree, text: string, w: World)
    ensures WriteFile(tree, MANIFEST_NAME, text, w).Ok? <==> ManifestWritable(tree, w)
  {
    hide MANIFEST_NAME, Locate;
  }

  /** The first half: inspect, extract and tabulate. */
  method Stage(headers: seq<Header>, format: Format, w: World) returns (r: Result<Tree, InstallError>, a: Tables)
    ensures r == Staged(headers, format, w) && (r.Ok? ==> a == ArchiveTables(headers, format))
  {
    a := Tables(map[], map[]);
    var inspected := Inspect(headers, format);
    if inspected.Err? { return Err(InspectFailed(inspected.error)), a; }
    var entries := inspected.value;
    var extracted := Extract(ExtractionOrder(format, entries), w);
    if extracted.Err? { return Err(ExtractFailed(extracted.error)), a; }
    hide InspectAll, ExtractAll, ExtractionOrder;
    a := BuildTables(entries);
    r := Ok(extracted.value);
  }

  /** `InstallStaged` after the archive's own digest has been checked: refused exactly
      when inspection or extraction fails, when the tree holds a leaf the archive does not
      declare, when it holds no leaf at all, or when the manifest cannot be written. */
  method InstallStaged(headers: seq<Header>, format: Format, archive: string, c: Codec, w: World,
                       list: Tree -> seq<string>)
    returns (r: Result<Tree, InstallError>)
    requires forall t :: Walk(list(t), t)
    ensures Staged(headers, format, w).Err? ==> r.Err? && r.error == Staged(headers, format, w).error
    ensures Staged(headers, format, w).Ok? ==>
              var tree := Staged(headers, format, w).value;
              r.Err? <==> || !Clear(tree, ArchiveTables(headers, format))
                          || (forall p :: !Leaf(tree, p))
                          || !ManifestWritable(tree, w)
    ensures r.Ok? ==> exists files :: Installed(headers, format, archive, c, w, files, r.value)
  {
    hide Staged, ArchiveTables, MANIFEST_NAME, Clear, Ordered;
    var staged, a := Stage(headers, format, w);
    if staged.Err? { return Err(staged.error); }
    var staging := staged.value;
    var files := Inventory(staging, list(staging), a, c);
    if files.Err? { return Err(InventoryFailed(files.error)); }
    ListedLeaf(files.value, staging, a, c);
    hide Lists;
    if |files.value| == 0 { return Err(NoFiles); }
    var text := ManifestText(archive, files.value, c);
    AnyText(staging, text, w);
    hide ManifestWritable, ManifestText;
    var written := WriteFile(staging, MANIFEST_NAME, text, w);
    hide WriteFile;
    if written.Err? { return Err(ManifestNotWritten(written.error)); }
    r := Ok(written.value);
    assert Installed(headers, format, archive, c, w, files.value, r.value);
  }

  lemma ListedLeaf(files: seq<InstalledFile>, tree: Tree, a: Tables, c: Codec)
    requires Lists(files, tree, a, c)
    ensures files == [] <==> forall p :: !Leaf(tree, p)
  {
    hide Record;
    if files != [] { assert files[0] in files; }
  }

  // ----- The round trip ----------------------------------------------------------------------------

  lemma StagedSound(headers: seq<Header>, format: Format, w: World)
    requires Staged(headers, format, w).Ok?
    ensures WellFormed(Staged(headers, format, w).value) && Inspected(ArchiveTables(headers, format))
  {
    var entries := InspectAll(headers, format).value;
    InspectGood(headers, format);
    TablesInspected(entries);
    hide InspectAll, WellFormed;
    ExtractedWellFormed(ExtractionOrder(format, entries), w);
  }

  /** For every archive, whatever links it lays: once installed, the check of the unchanged
      tree succeeds exactly when every staged directory holds a file or symlink, every file
      has on disk the mode the archive gives its own name, no name is only white space, and
      the manifest's name led to its own free place (or to a file that hashes alike, or out
      of the tree to one that still holds it). */
  lemma InstallRoundTrip(headers: seq<Header>, format: Format, archive: string, c: Codec, w: World,
                         files: seq<InstalledFile>, result: Tree)
    requires Sound(c) && Installed(headers, format, archive, c, w, files, result)
    requires Locate(Staged(headers, format, w).value, MANIFEST_NAME, true, w) == Outside ==>
               StillOutside(w, ManifestText(archive, files, c))
    ensures var tree := Staged(headers, format, w).value;
            InstallVerdict(result, archive, c, w) == Good
            <==> && EveryDirectoryUsed(tree)
                 && EveryLeafRecognised(tree, ArchiveTables(headers, format))
                 && ManifestFits(tree, ManifestText(archive, files, c), c, w)
  {
    StagedSound(headers, format, w);
    hide Staged, ArchiveTables, WellFormed, Inspected, Clear, Lists, Sound, MANIFEST_NAME, Locate, WriteFile,
         InstallVerdict, EveryDirectoryUsed, EveryLeafRecognised, ManifestFits, StillOutside;
    StagedTreeMatchesIff(Staged(headers, format, w).value, ArchiveTables(headers, format), c, w, archive, files);
  }

  lemma StagedUnpacked(headers: seq<Header>, format: Format, w: World)
    requires Staged(headers, format, w).Ok? && Unaliased(InspectAll(headers, format).value)
    ensures var entries := InspectAll(headers, format).value;
            var order := ExtractionOrder(format, entries);
            && Unpacked(Staged(headers, format, w).value, order)
            && (forall e :: e in order <==> e in entries)
            && (forall e :: e in order ==> Tabled(TablesOf(entries), e) && e.kind != OtherKind && e.mode < 512)
  {
    var entries := InspectAll(headers, format).value;
    var order := ExtractionOrder(format, entries);
    InspectGood(headers, format);
    OrderSame(format, entries);
    TablesHold(entries);
    hide InspectAll, ExtractionOrder, Unpacked, TablesOf, Tabled, NormalName, TargetAllowed, ProperName, Ancestors;
    forall e | e in order
      ensures Tabled(TablesOf(entries), e) && e.kind != OtherKind && e.mode < 512 && ProperName(e.name)
    {
      var i :| 0 <= i < |entries| && entries[i] == e;
      assert EntryGood(entries[i]);
      NormalIsProper(e.name);
    }
    hide EntryGood;
    assert Unaliased(order);
    hide Unaliased;
    assert forall i :: 0 <= i < |order| ==> order[i] in order;
    Unpacks(order, w);
  }

  /** Every name an archive passes through inspection is proper. */
  lemma OrderProper(headers: seq<Header>, format: Format)
    requires InspectAll(headers, format).Ok?
    ensures var order := ExtractionOrder(format, InspectAll(headers, format).value);
            && UniqueNames(order) && ProperEntries(order)
            && forall i :: 0 <= i < |order| ==> order[i].kind != OtherKind
  {
    var entries := InspectAll(headers, format).value;
    var order := ExtractionOrder(format, entries);
    InspectGood(headers, format);
    OrderSame(format, entries);
    hide InspectAll, ExtractionOrder, NormalName, TargetAllowed, ProperName;
    forall i | 0 <= i < |order| ensures ProperName(order[i].name) && order[i].kind != OtherKind {
      assert order[i] in order && order[i] in entries;
      var j :| 0 <= j < |entries| && entries[j] == order[i];
      assert EntryGood(entries[j]);
      NormalIsProper(order[i].name);
    }
  }

  /** Extraction of an inspected archive depends on nothing outside its tree if and only if
      no entry's name, when its turn comes, leads out of it: inspection alone does not
      ensure that. */
  lemma ExtractionContainedIff(headers: seq<Header>, format: Format, w: World)
    requires InspectAll(headers, format).Ok?
    ensures (forall v: World :: v.linkLimit == w.linkLimit ==> Staged(headers, format, v) == Staged(headers, format, w))
            <==> StaysInside(ExtractionOrder(format, InspectAll(headers, format).value), w)
  {
    var order := ExtractionOrder(format, InspectAll(headers, format).value);
    OrderProper(headers, format);
    ContainedIff(order, w);
    forall v: World ensures Staged(headers, format, v) == Staged(headers, format, w)
                            <==> ExtractAll(order, v) == ExtractAll(order, w)
    {
      hide InspectAll, ExtractAll, ExtractionOrder, StaysInside;
    }
  }

  /** Without an entry beneath a symlink it is contained. */
  lemma UnaliasedContained(headers: seq<Header>, format: Format, w: World)
    requires InspectAll(headers, format).Ok? && Unaliased(InspectAll(headers, format).value)
    ensures StaysInside(ExtractionOrder(format, InspectAll(headers, format).value), w)
  {
    var entries := InspectAll(headers, format).value;
    var order := ExtractionOrder(format, entries);
    OrderProper(headers, format);
    InspectGood(headers, format);
    OrderSame(format, entries);
    hide InspectAll, ExtractionOrder, StaysInside, ProperName, Ancestors;
    assert Unaliased(order);
    UnaliasedStaysInside(order, w);
  }

  /** An inspected archive without an entry beneath a symlink is unpacked if and only if it
      has none beneath a file. */
  lemma StagedIff(headers: seq<Header>, format: Format, w: World)
    requires InspectAll(headers, format).Ok? && Unaliased(InspectAll(headers, format).value)
    ensures Staged(headers, format, w).Ok? <==> NothingBeneathFiles(InspectAll(headers, format).value)
  {
    var entries := InspectAll(headers, format).value;
    var order := ExtractionOrder(format, entries);
    OrderProper(headers, format);
    InspectGood(headers, format);
    OrderSame(format, entries);
    hide InspectAll, ExtractionOrder, ProperName, Ancestors;
    assert Unaliased(order);
    assert NothingBeneathFiles(order) <==> NothingBeneathFiles(entries);
    ExtractsIff(order, w);
  }

  /** The inventory of an archive without an entry beneath a symlink never fails. */
  lemma UnaliasedInventory(headers: seq<Header>, format: Format, w: World)
    requires Staged(headers, format, w).Ok? && Unaliased(InspectAll(headers, format).value)
    ensures Clear(Staged(headers, format, w).value, ArchiveTables(headers, format))
  {
    StagedUnpacked(headers, format, w);
    hide InspectAll, ExtractionOrder, Unpacked, TablesOf, Tabled, Unaliased, Clear;
    var entries := InspectAll(headers, format).value;
    InventoryClear(Staged(headers, format, w).value, ExtractionOrder(format, entries), TablesOf(entries));
  }

  /** For an archive without an entry beneath a symlink and without a symlink named like the
      manifest, the condition is one on the archive: every directory entry has a file or
      symlink beneath it, no file or symlink name is only white space, and no root file is
      named like the manifest (unless the two hash alike). */
  lemma UnaliasedRoundTrip(headers: seq<Header>, format: Format, archive: string, c: Codec, w: World,
                           files: seq<InstalledFile>, result: Tree)
    requires Sound(c) && Installed(headers, format, archive, c, w, files, result)
    requires var entries := InspectAll(headers, format).value;
             && Unaliased(entries)
             && forall e :: e in entries && e.kind.Symlink? ==> e.name != MANIFEST_NAME
    ensures InstallVerdict(result, archive, c, w) == Good
            <==> Recognisable(InspectAll(headers, format).value, ManifestText(archive, files, c), c)
  {
    var entries, tree := InspectAll(headers, format).value, Staged(headers, format, w).value;
    var order, text := ExtractionOrder(format, entries), ManifestText(archive, files, c);
    StagedSound(headers, format, w);
    StagedUnpacked(headers, format, w);
    assert ArchiveTables(headers, format) == TablesOf(entries);
    hide InspectAll, Staged, ExtractionOrder, Unpacked, Inspected, TablesOf, Tabled, Lists, Sound, MANIFEST_NAME, Clear,
         WellFormed, WriteFile, InstallVerdict, Unaliased, ArchiveTables;
    TreeMatchesIff(tree, order, TablesOf(entries), c, w, archive, files);
    SameRecognisable(order, entries, text, c);
  }

  lemma SameRecognisable(a: seq<Entry>, b: seq<Entry>, text: string, c: Codec)
    requires forall e :: e in a <==> e in b
    ensures Recognisable(a, text, c) <==> Recognisable(b, text, c)
  {
    hide MANIFEST_NAME, Ancestors, IsBlank;
  }
}
