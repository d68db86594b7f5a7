/** Names inside an archive: normalisation, parent directories and symlink targets.
    Paths are slash-separated; `path.Clean` works on their segments. */
module ArchiveNames {
  import opened Prelude
  import opened Text

  datatype NameError = EmptyEntry | Rooted | DotDot | NoName

  predicate Rooting(s: string) { (s != "" && s[0] == '/') || ':' in s }

  /** `path.Clean` of a path that does not start with a slash, segment by segment: empty
      and "." segments go, ".." takes back the segment before it. */
  function Cleaned(segments: seq<string>): seq<string> {
    if segments == [] then []
    else
      var done, s := Cleaned(segments[..|segments| - 1]), segments[|segments| - 1];
      if s == "" || s == "." then done
      else if s == ".." && done != [] && done[|done| - 1] != ".." then done[..|done| - 1]
      else done + [s]
  }

  function Clean(s: string): string {
    var segments := Cleaned(Split(s, '/'));
    if segments == [] then "." else Join(segments, '/')
  }

  /** `normalizeArchiveEntryName`. */
  function Normalize(name: string): Result<string, NameError> {
    var slashed := Replace(name, '\\', '/');
    if IsBlank(name) then Err(EmptyEntry)
    else if Rooting(slashed) then Err(Rooted)
    else if ".." in Split(slashed, '/') then Err(DotDot)
    else if Clean(slashed) == "." then Err(NoName)
    else Ok(Clean(slashed))
  }

  // ----- Normal names ------------------------------------------------------------------------

  /** A segment that can stand in a normalised name. */
  predicate PlainSegment(s: string) {
    s != "" && s != "." && s != ".." && '/' !in s && '\\' !in s && ':' !in s
  }

  predicate PlainSegments(ss: seq<string>) { forall i :: 0 <= i < |ss| ==> PlainSegment(ss[i]) }

  lemma {:induction false} CleanedKeeps(segments: seq<string>)
    ensures forall s :: s in Cleaned(segments) ==> s in segments && s != "" && s != "."
  {
    if segments != [] {
      var done, last := Cleaned(segments[..|segments| - 1]), segments[|segments| - 1];
      var front := segments[..|segments| - 1];
      CleanedKeeps(front);
      forall s | s in Cleaned(segments) ensures s in segments && s != "" && s != "." {
        if s in done {
          assert s in front;
        } else {
          assert s == last;
        }
      }
    }
  }

  lemma {:induction false} CleanedPlain(ss: seq<string>)
    requires PlainSegments(ss)
    ensures Cleaned(ss) == ss
  {
    if ss != [] {
      CleanedPlain(ss[..|ss| - 1]);
      assert PlainSegment(ss[|ss| - 1]);
      assert ss == ss[..|ss| - 1] + [ss[|ss| - 1]];
    }
  }

  lemma {:induction false} JoinedChars(ss: seq<string>, sep: char, c: char)
    requires c != sep && forall i :: 0 <= i < |ss| ==> c !in ss[i]
    ensures c !in Join(ss, sep)
  {
    if |ss| > 1 { JoinedChars(ss[1..], sep, c); }
  }

  lemma {:induction false} SplitChars(s: string, sep: char, c: char)
    requires c !in s
    ensures forall i :: 0 <= i < |Split(s, sep)| ==> c !in Split(s, sep)[i]
  {
    if s != "" { SplitChars(s[1..], sep, c); }
  }

  /** Plain segments, joined, come back as they are. */
  lemma PlainJoined(ss: seq<string>)
    requires PlainSegments(ss) && ss != []
    ensures var m := Join(ss, '/');
            && Split(m, '/') == ss && Replace(m, '\\', '/') == m && !Rooting(m) && Clean(m) == m && m != "."
  {
    var m := Join(ss, '/');
    SplitOfJoin(ss, '/');
    CleanedPlain(ss);
    JoinedChars(ss, '/', '\\');
    JoinedChars(ss, '/', ':');
    assert Replace(m, '\\', '/') == m;
    assert PlainSegment(ss[0]);
    if m == "." {
      SplitWhole(".", '/');
      assert false;
    }
    if |ss| > 1 {
      assert m[0] == ss[0][0];
    }
    assert m[0] == ss[0][0];
  }

  /** What a normalised name looks like. */
  lemma NormalShape(name: string)
    requires Normalize(name).Ok?
    ensures var ss := Cleaned(Split(Replace(name, '\\', '/'), '/'));
            PlainSegments(ss) && ss != [] && Normalize(name).value == Join(ss, '/')
  {
    var slashed := Replace(name, '\\', '/');
    var parts := Split(slashed, '/');
    var ss := Cleaned(parts);
    CleanedKeeps(parts);
    JoinOfSplit(slashed, '/');
    assert '\\' !in slashed;
    SplitChars(slashed, '/', '\\');
    SplitChars(slashed, '/', ':');
    forall i | 0 <= i < |ss| ensures PlainSegment(ss[i]) {
      assert ss[i] in parts;
    }
  }

  /** Normalising twice is normalising once, exactly when the result is not just white
      space: such a result is rejected the second time. */
  lemma NormalizeIdempotentIff(name: string)
    requires Normalize(name).Ok?
    ensures var m := Normalize(name).value;
            Normalize(m) == (if IsBlank(m) then Err(EmptyEntry) else Ok(m))
  {
    NormalShape(name);
    var ss := Cleaned(Split(Replace(name, '\\', '/'), '/'));
    hide Cleaned, Clean;
    PlainJoined(ss);
    assert ".." !in ss by {
      forall i | 0 <= i < |ss| ensures ss[i] != ".." { assert PlainSegment(ss[i]); }
    }
  }

  lemma BlankSplit()
    ensures Split("./ ", '/') == [".", " "] && Cleaned([".", " "]) == [" "]
  {
    SplitPrefix(".", " ", '/');
    SplitWhole(" ", '/');
    assert "./ " == "." + ['/'] + " ";
    var parts := [".", " "];
    assert parts[..1] == ["."] && ["."][..0] == [];
    assert Cleaned(["."]) == [];
  }

  /** The exception exists: a directory-relative blank name. */
  lemma BlankExample()
    ensures Normalize("./ ") == Ok(" ") && Normalize(" ") == Err(EmptyEntry)
  {
    BlankSplit();
    hide Split, Cleaned;
    var name := "./ ";
    assert Replace(name, '\\', '/') == name;
    assert !IsSpace(name[0]) && IsSpace(' ');
    hide IsSpace;
    assert !IsBlank(name) && IsBlank(" ");
    hide IsBlank;
    assert ".." !in [".", " "] && " " != ".";
  }

  // ----- Parent directories --------------------------------------------------------------------

  /** `pathDirectory`: everything before the last slash, or ".". */
  function PathDirectory(name: string): (d: string)
    ensures d == "." || |d| < |name|
  {
    var i := LastSlash(name);
    if i < 0 then "." else name[..i]
  }

  function LastSlash(name: string): (i: int)
    ensures -1 <= i < |name|
    ensures i >= 0 ==> name[i] == '/'
    ensures forall j :: i < j < |name| ==> name[j] != '/'
  {
    if name == "" then -1
    else if name[|name| - 1] == '/' then |name| - 1
    else LastSlash(name[..|name| - 1])
  }

  /** All proper parents of a name below the root. */
  function Ancestors(name: string): set<string>
    decreases |name|
  {
    var d := PathDirectory(name);
    if d == "." || |d| >= |name| then {} else {d} + Ancestors(d)
  }

  lemma {:induction false} AncestorsTransitive(p: string, q: string, r: string)
    requires p in Ancestors(q) && q in Ancestors(r)
    ensures p in Ancestors(r)
    decreases |r|
  {
    var d := PathDirectory(r);
    if q != d { AncestorsTransitive(p, q, d); }
  }

  lemma {:induction false} AncestorsShorter(p: string, q: string)
    requires p in Ancestors(q)
    ensures |p| < |q| && p != "."
    decreases |q|
  {
    var d := PathDirectory(q);
    if p != d { AncestorsShorter(p, d); }
  }

  // ----- Symlink targets ------------------------------------------------------------------------

  /** `path.Join(path.Dir(entry), target)`, as segments. */
  function Resolved(entry: string, target: string): seq<string> {
    Cleaned(Split(PathDirectory(entry), '/') + Split(Replace(target, '\\', '/'), '/'))
  }

  /** `validateSymlinkTarget`. */
  predicate TargetAllowed(entry: string, target: string) {
    && !IsBlank(target) && !Rooting(Replace(target, '\\', '/'))
    && (Resolved(entry, target) == [] || Resolved(entry, target)[0] != "..")
  }

  /** After cleaning, ".." can only lead. */
  ghost predicate UpsLead(ss: seq<string>) {
    forall i, j :: 0 <= i < j < |ss| && ss[j] == ".." ==> ss[i] == ".."
  }

  lemma {:induction false} CleanedUpsLead(segments: seq<string>)
    ensures UpsLead(Cleaned(segments))
  {
    if segments != [] { CleanedUpsLead(segments[..|segments| - 1]); }
  }

  /** What the vetting of a symlink ensures: by its spelling, read beneath its own entry,
      the target climbs nowhere.  It says nothing of where the name leads once other links
      are in place. */
  lemma AllowedTargetIsSpelledInside(entry: string, target: string)
    requires TargetAllowed(entry, target)
    ensures ".." !in Resolved(entry, target)
  {
    var ss := Resolved(entry, target);
    CleanedUpsLead(Split(PathDirectory(entry), '/') + Split(Replace(target, '\\', '/'), '/'));
    hide Cleaned;
    forall j | 0 <= j < |ss| ensures ss[j] != ".." {
      if j > 0 { assert ss[0] != ".."; }
    }
  }
}
