/** Exactly which names, symlink targets and archives inspection accepts. */
module InstallAcceptance {
  import opened Prelude
  import opened Text
  import opened Sequences
  import opened ArchiveNames
  import opened FileTree
  import opened Install
  import opened InstallArchive
  import opened InstallStaged

  // ----- Depth -----------------------------------------------------------------------------------

  /** How deep a walk along the segments ends below where it began. */
  function Depth(ss: seq<string>): int {
    if ss == [] then 0
    else
      var s := ss[|ss| - 1];
      Depth(ss[..|ss| - 1]) + if s == ".." then -1 else if s == "" || s == "." then 0 else 1
  }

  /** At no point has the walk climbed above where it began. */
  predicate StaysBelow(ss: seq<string>) { forall n :: 0 <= n <= |ss| ==> Depth(ss[..n]) >= 0 }

  lemma StaysBelowFront(ss: seq<string>)
    requires ss != []
    ensures StaysBelow(ss) <==> StaysBelow(ss[..|ss| - 1]) && Depth(ss) >= 0
  {
    hide Depth;
    var front := ss[..|ss| - 1];
    forall n | 0 <= n <= |front| ensures front[..n] == ss[..n] {}
    assert ss[..|ss|] == ss;
    if StaysBelow(ss) {
      forall n | 0 <= n <= |front| ensures Depth(front[..n]) >= 0 { assert Depth(ss[..n]) >= 0; }
    }
    if StaysBelow(front) && Depth(ss) >= 0 {
      forall n | 0 <= n <= |ss| ensures Depth(ss[..n]) >= 0 {
        if n < |ss| { assert Depth(front[..n]) >= 0; }
      }
    }
  }

  /** Cleaning keeps the depth of a walk that stays below, and leaves a leading ".." exactly
      of one that does not. */
  lemma {:induction false} CleanedDepth(ss: seq<string>)
    ensures var done := Cleaned(ss);
            if StaysBelow(ss) then |done| == Depth(ss) && ".." !in done else done != [] && done[0] == ".."
  {
    if ss != [] {
      CleanedDepth(ss[..|ss| - 1]);
      StaysBelowFront(ss);
      hide StaysBelow;
    }
  }

  /** A symlink is accepted if and only if its target is not blank, not rooted by a slash, a
      backslash or a colon, and a walk from the entry's directory along it, spelled with
      either slash, never climbs above the archive's root. */
  lemma TargetAllowedIff(entry: string, target: string)
    ensures TargetAllowed(entry, target)
            <==> && !IsBlank(target) && target[0] != '/' && target[0] != '\\' && ':' !in target
                 && StaysBelow(Split(PathDirectory(entry), '/') + Split(Replace(target, '\\', '/'), '/'))
  {
    CleanedDepth(Split(PathDirectory(entry), '/') + Split(Replace(target, '\\', '/'), '/'));
    Slashed(target);
    hide Split, PathDirectory, Cleaned, StaysBelow, IsSpace;
  }

  /** What rooting means of the name before its backslashes are turned. */
  lemma Slashed(name: string)
    ensures Rooting(Replace(name, '\\', '/')) <==> (name != "" && (name[0] == '/' || name[0] == '\\')) || ':' in name
  {
    var s := Replace(name, '\\', '/');
    assert forall i :: 0 <= i < |s| ==> (s[i] == ':' <==> name[i] == ':');
    if ':' in name {
      var i :| 0 <= i < |name| && name[i] == ':';
      assert s[i] == ':';
    }
    if ':' in s {
      var i :| 0 <= i < |s| && s[i] == ':';
      assert name[i] == ':';
    }
  }

  // ----- Entry names -----------------------------------------------------------------------------

  /** The segments that name something. */
  function Named(ss: seq<string>): seq<string> {
    if ss == [] then []
    else
      var s := ss[|ss| - 1];
      Named(ss[..|ss| - 1]) + if s == "" || s == "." then [] else [s]
  }

  lemma {:induction false} CleanedIsNamed(ss: seq<string>)
    requires ".." !in ss
    ensures Cleaned(ss) == Named(ss)
  {
    if ss != [] {
      assert ss[|ss| - 1] in ss;
      CleanedIsNamed(ss[..|ss| - 1]);
    }
  }

  lemma JoinedIsNoDot(ss: seq<string>)
    requires ss != [] && forall i :: 0 <= i < |ss| ==> ss[i] != "" && ss[i] != "."
    ensures Join(ss, '/') != "."
  {
    if |ss| > 1 { assert Join(ss, '/')[|ss[0]|] == '/'; }
  }

  lemma {:induction false} NamedNames(ss: seq<string>)
    ensures forall i :: 0 <= i < |Named(ss)| ==> Named(ss)[i] != "" && Named(ss)[i] != "."
  {
    if ss != [] { NamedNames(ss[..|ss| - 1]); }
  }

  /** An entry name is accepted if and only if it is not blank, not rooted by a slash, a
      backslash or a colon, has no ".." segment and has some segment that names something;
      what is kept are those segments. */
  lemma NormalizeIff(name: string)
    ensures var ss := Split(Replace(name, '\\', '/'), '/');
            && (Normalize(name).Ok?
                <==> && !IsBlank(name) && name[0] != '/' && name[0] != '\\' && ':' !in name
                     && ".." !in ss && Named(ss) != [])
            && (Normalize(name).Ok? ==> Normalize(name).value == Join(Named(ss), '/'))
  {
    var ss := Split(Replace(name, '\\', '/'), '/');
    Slashed(name);
    NamedNames(ss);
    if ".." !in ss { CleanedIsNamed(ss); }
    if Named(ss) != [] { JoinedIsNoDot(Named(ss)); }
    hide Split, Cleaned, Named, IsSpace, Join;
  }

  // ----- Archives --------------------------------------------------------------------------------

  /** A header inspection lets through: a directory, a regular file, or in a tar archive a
      symlink with an accepted target. */
  predicate KindAccepted(h: Header, name: string, format: Format) {
    match h.kind
    case Directory => true
    case Regular(_) => true
    case Symlink(target) => format == TarGz && TargetAllowed(name, target)
    case OtherKind => false
  }

  /** The entry a header becomes: its kind kept, its nine permission bits, or 0755 for a
      directory and 0644 for anything else that has none. */
  predicate Became(h: Header, e: Entry) {
    && Normalize(h.name) == Ok(e.name) && e.kind == h.kind
    && e.mode == if h.mode % 512 != 0 then h.mode % 512 else if h.kind == Directory then 7 * 64 + 5 * 8 + 5
                 else 6 * 64 + 4 * 8 + 4
  }

  predicate HeaderAccepted(h: Header, format: Format) {
    Normalize(h.name).Ok? && KindAccepted(h, Normalize(h.name).value, format)
  }

  ghost predicate DistinctNames(headers: seq<Header>) {
    forall i, j :: 0 <= i < j < |headers| ==> Normalize(headers[i].name) != Normalize(headers[j].name)
  }

  ghost predicate Acceptable(headers: seq<Header>, format: Format) {
    DistinctNames(headers) && forall i :: 0 <= i < |headers| ==> HeaderAccepted(headers[i], format)
  }

  lemma DistinctFront(front: seq<Header>, h: Header, entries: seq<Entry>, name: string)
    requires |entries| == |front| && Normalize(h.name) == Ok(name)
    requires forall i :: 0 <= i < |entries| ==> Normalize(front[i].name) == Ok(entries[i].name)
    ensures DistinctNames(front + [h]) <==> DistinctNames(front) && name !in Names(entries)
  {
    hide Normalize;
    var all := front + [h];
    assert all[|front|] == h;
    if DistinctNames(all) {
      assert forall i :: 0 <= i < |front| ==> all[i] == front[i];
      assert forall i :: 0 <= i < |entries| ==> Normalize(all[i].name) != Normalize(all[|front|].name);
    } else if DistinctNames(front) {
      var i, j :| 0 <= i < j < |all| && Normalize(all[i].name) == Normalize(all[j].name);
      assert all[i] == front[i];
      assert j == |front|;
      assert entries[i].name in Names(entries);
    }
  }

  lemma FrontAcceptable(headers: seq<Header>, format: Format, entries: seq<Entry>)
    requires headers != [] && AllBecame(headers[..|headers| - 1], entries)
    ensures var h := headers[|headers| - 1];
            Acceptable(headers, format)
            <==> && Acceptable(headers[..|headers| - 1], format)
                 && HeaderAccepted(h, format) && Normalize(h.name).value !in Names(entries)
  {
    var front, h := headers[..|headers| - 1], headers[|headers| - 1];
    assert headers == front + [h];
    if Normalize(h.name).Ok? { DistinctFront(front, h, entries, Normalize(h.name).value); }
    hide Normalize, KindAccepted, DistinctNames, Names;
    assert HeaderAccepted(h, format) ==> Normalize(h.name).Ok?;
    hide HeaderAccepted;
  }

  ghost predicate AllBecame(headers: seq<Header>, entries: seq<Entry>) {
    |entries| == |headers| && forall i :: 0 <= i < |headers| ==> Became(headers[i], entries[i])
  }

  lemma AllBecameOneMore(headers: seq<Header>, entries: seq<Entry>, e: Entry)
    requires headers != [] && AllBecame(headers[..|headers| - 1], entries) && Became(headers[|headers| - 1], e)
    ensures AllBecame(headers, entries + [e])
  {
    hide Became;
    var front := headers[..|headers| - 1];
    assert forall i :: 0 <= i < |front| ==> front[i] == headers[i];
  }

  /** An archive passes inspection if and only if all its names are accepted and differ once
      normalised, and all its kinds are accepted; then its entries are its headers. */
  lemma {:induction false} InspectsIff(headers: seq<Header>, format: Format)
    ensures InspectAll(headers, format).Ok? <==> Acceptable(headers, format)
    ensures InspectAll(headers, format).Ok? ==> AllBecame(headers, InspectAll(headers, format).value)
  {
    if headers == [] {
      assert InspectAll(headers, format) == Ok([]);
    } else {
      var front, h := headers[..|headers| - 1], headers[|headers| - 1];
      InspectsIff(front, format);
      hide Became, Normalize, HeaderAccepted, Names, InspectedOne, Acceptable, AllBecame;
      if InspectAll(front, format).Ok? {
        var entries := InspectAll(front, format).value;
        var one := InspectedOne(h, format, Names(entries));
        InspectsOne(h, format, Names(entries));
        FrontAcceptable(headers, format, entries);
        if one.Ok? { AllBecameOneMore(headers, entries, one.value); }
      } else {
        StillUnacceptable(headers, format);
      }
    }
  }

  lemma InspectsOne(h: Header, format: Format, seen: set<string>)
    ensures var r := InspectedOne(h, format, seen);
            && (r.Ok? <==> HeaderAccepted(h, format) && Normalize(h.name).value !in seen)
            && (r.Ok? ==> Became(h, r.value))
  {
    hide Normalize, TargetAllowed;
  }

  lemma StillUnacceptable(headers: seq<Header>, format: Format)
    requires headers != [] && !Acceptable(headers[..|headers| - 1], format)
    ensures !Acceptable(headers, format)
  {
    hide Normalize, HeaderAccepted;
    var front := headers[..|headers| - 1];
    assert forall i :: 0 <= i < |front| ==> front[i] == headers[i];
  }

  /** What the error says of a header, given the names before it. */
  predicate Complains(e: InspectError, h: Header, format: Format, seen: set<string>) {
    match e
    case BadName(reason) => Normalize(h.name) == Err(reason)
    case DuplicateEntry(name) => Normalize(h.name) == Ok(name) && name in seen
    case UnsafeLink(name) => name == h.name && h.kind.Symlink? && format == Zip
    case UnsafeTarget(name) =>
      && name == h.name && h.kind.Symlink? && format == TarGz && Normalize(h.name).Ok?
      && !TargetAllowed(Normalize(h.name).value, h.kind.target)
    case UnsafeType(name) => name == h.name && h.kind == OtherKind
  }

  /** A refused archive is refused for its first header that cannot stand where it is. */
  lemma {:induction false} InspectErrorTells(headers: seq<Header>, format: Format) returns (i: nat)
    requires InspectAll(headers, format).Err?
    ensures i < |headers| && InspectAll(headers[..i], format).Ok?
    ensures Complains(InspectAll(headers, format).error, headers[i], format,
                      Names(InspectAll(headers[..i], format).value))
  {
    hide Normalize, TargetAllowed;
    var front := headers[..|headers| - 1];
    if InspectAll(front, format).Err? {
      i := InspectErrorTells(front, format);
      assert front[..i] == headers[..i];
    } else {
      i := |headers| - 1;
    }
  }

  /** A ZIP is extracted in ascending order of its names, a tar stream in its own order. */
  lemma OrderOfExtraction(format: Format, entries: seq<Entry>)
    ensures format == TarGz ==> ExtractionOrder(format, entries) == entries
    ensures format == Zip ==> var r := ExtractionOrder(format, entries);
              && multiset(r) == multiset(entries)
              && forall i, j :: 0 <= i < j < |r| ==> AtMost(r[i].name, r[j].name)
  {
    forall a: Entry, b: Entry ensures ByEntryName(a, b) || ByEntryName(b, a) { AtMostTotal(a.name, b.name); }
    forall a: Entry, b: Entry, c: Entry | ByEntryName(a, b) && ByEntryName(b, c) ensures ByEntryName(a, c) {
      AtMostTransitive(a.name, b.name, c.name);
    }
    SortedIsOrdered(entries, ByEntryName);
  }

  // ----- Manifest entries --------------------------------------------------------------------------

  /** An entry that no install writes is refused whatever the tree holds: a file's digest is
      64 lower-case hexadecimal digits and its mode a zero and three octal digits, a symlink
      has neither. */
  lemma MalformedEntry(tree: Tree, f: InstalledFile, c: Codec, w: World)
    requires || Normalize(f.path) != Ok(f.path)
             || (f.symlinkTarget != "" && (f.sha256 != "" || f.mode != "" || !TargetAllowed(f.path, f.symlinkTarget)))
             || (f.symlinkTarget == "" && |f.sha256| != 64)
             || (f.symlinkTarget == ""
                 && exists i :: 0 <= i < |f.sha256| && !('0' <= f.sha256[i] <= '9' || 'a' <= f.sha256[i] <= 'f'))
             || (f.symlinkTarget == "" && |f.mode| != 4)
             || (f.symlinkTarget == "" && |f.mode| == 4
                 && (f.mode[0] != '0' || exists i :: 1 <= i < 4 && !('0' <= f.mode[i] <= '7')))
    ensures EntryVerdict(tree, f, c, w) == Mismatch
  {
    hide Normalize, TargetAllowed, Lstat;
  }
}
