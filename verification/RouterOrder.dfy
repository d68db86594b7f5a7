/** The order in which files declare scopes and routes does not matter. */
module RouterOrder {
  import opened Prelude
  import opened Sequences
  import opened Router
  import opened Text

  ghost predicate NamesSorted(s: seq<Declaration>) {
    forall i, j :: 0 <= i < j < |s| ==> AtMost(s[i].name, s[j].name)
  }

  lemma NamesAreOrdered()
    ensures Orders(ByName)
  {
    forall a: Declaration, b: Declaration ensures ByName(a, b) || ByName(b, a) { AtMostTotal(a.name, b.name); }
    forall a: Declaration, b: Declaration, c: Declaration | ByName(a, b) && ByName(b, c) ensures ByName(a, c) {
      AtMostTransitive(a.name, b.name, c.name);
    }
  }

  lemma SortIsSorted(s: seq<Declaration>)
    ensures NamesSorted(SortedByName(s)) && multiset(SortedByName(s)) == multiset(s)
  {
    hide AtMost;
    NamesAreOrdered();
    SortedIsOrdered(s, ByName);
    var r := SortedByName(s);
    forall i, j | 0 <= i < j < |r| ensures AtMost(r[i].name, r[j].name) { assert ByName(r[i], r[j]); }
  }

  predicate SameNames(a: seq<Declaration>, b: seq<Declaration>) {
    |a| == |b| && forall i :: 0 <= i < |a| ==> a[i].name == b[i].name
  }

  lemma WithoutSorted(s: seq<Declaration>, i: nat)
    requires NamesSorted(s) && i < |s|
    ensures NamesSorted(Without(s, i))
  {
    hide AtMost;
    var r := Without(s, i);
    forall j, k | 0 <= j < k < |r| ensures AtMost(r[j].name, r[k].name) {
      var p, q := if j < i then j else j + 1, if k < i then k else k + 1;
      assert r[j] == s[p] && r[k] == s[q];
    }
  }

  /** In a sorted list, an element with the greatest name shares it with all that follow. */
  lemma GreatestTail(s: seq<Declaration>, i: nat, j: nat)
    requires NamesSorted(s) && i <= j < |s|
    requires AtMost(s[j].name, s[i].name)
    ensures s[j].name == s[i].name
  {
    hide AtMost;
    if i < j { AtMostAntisymmetric(s[i].name, s[j].name); }
  }

  lemma GreatestName(a: seq<Declaration>, b: seq<Declaration>, i: nat)
    requires NamesSorted(a) && multiset(a) == multiset(b) && a != []
    requires i < |b| && b[i] == a[|a| - 1]
    ensures forall j :: 0 <= j < |b| ==> AtMost(b[j].name, b[i].name)
  {
    hide AtMost;
    forall j | 0 <= j < |b| ensures AtMost(b[j].name, b[i].name) {
      assert b[j] in multiset(a);
      var k :| 0 <= k < |a| && a[k] == b[j];
      if k == |a| - 1 { AtMostTotal(a[k].name, a[k].name); }
    }
  }

  lemma ShiftedNames(a: seq<Declaration>, b: seq<Declaration>, i: nat)
    requires i < |b| == |a| && SameNames(a[..|a| - 1], Without(b, i))
    requires forall j :: i <= j < |b| ==> b[j].name == a[|a| - 1].name
    ensures SameNames(a, b)
  {
    var n := |a| - 1;
    var rest := Without(b, i);
    forall j | 0 <= j < n ensures a[j].name == b[j].name {
      assert a[..n][j].name == rest[j].name;
      assert rest[j] == if j < i then b[j] else b[j + 1];
    }
  }

  lemma {:induction false} SortedNamesUnique(a: seq<Declaration>, b: seq<Declaration>)
    requires multiset(a) == multiset(b) && NamesSorted(a) && NamesSorted(b)
    ensures SameNames(a, b)
  {
    hide AtMost;
    SamePermutationLength(a, b);
    if a != [] {
      var n := |a| - 1;
      var i := TakeLastOut(a, b);
      WithoutSorted(b, i);
      SortedNamesUnique(a[..n], Without(b, i));
      GreatestName(a, b, i);
      forall j | i <= j <= n ensures b[j].name == a[n].name { GreatestTail(b, i, j); }
      hide NamesSorted, AtMost, Without;
      ShiftedNames(a, b, i);
    }
  }

  // ----- Outcomes depend on names only --------------------------------------------------------------

  ghost predicate Agree(r: Result<Table, RegisterError>, q: Result<Table, RegisterError>) {
    match r
    case Err(e) => q == Err(e)
    case Ok(t) => q.Ok? && q.value.Keys == t.Keys
  }

  lemma {:induction false} ScopesAgree(a: seq<Declaration>, b: seq<Declaration>)
    requires SameNames(a, b)
    ensures Agree(AllScopes(a), AllScopes(b))
  {
    hide NormalizeKey;
    if a != [] { ScopesAgree(a[..|a| - 1], b[..|b| - 1]); }
  }

  ghost predicate Handled(list: seq<Declaration>) {
    forall i :: 0 <= i < |list| ==> list[i].handler.Some?
  }

  lemma {:induction false} RoutesAgree(scopes: Table, a: seq<Declaration>, b: seq<Declaration>)
    requires SameNames(a, b) && Handled(a) && Handled(b)
    ensures Agree(AllRoutes(scopes, a), AllRoutes(scopes, b))
  {
    hide NormalizeKey, ScopeOf;
    if a != [] { RoutesAgree(scopes, a[..|a| - 1], b[..|b| - 1]); }
  }

  ghost predicate DistinctNames(list: seq<Declaration>) {
    forall i, j :: 0 <= i < j < |list| ==> list[i].name != list[j].name
  }

  /** The declaration is in the table, under its key. */
  ghost predicate Stored(t: Table, d: Declaration) {
    && NormalizeKey(d.name).Ok? && NormalizeKey(d.name).value in t
    && t[NormalizeKey(d.name).value] == d.(name := NormalizeKey(d.name).value)
  }

  lemma {:induction false} ScopesDistinct(list: seq<Declaration>)
    requires AllScopes(list).Ok?
    ensures DistinctNames(list) && forall i :: 0 <= i < |list| ==> Stored(AllScopes(list).value, list[i])
  {
    hide NormalizeKey;
    if list != [] {
      var front := list[..|list| - 1];
      ScopesDistinct(front);
      assert forall i :: 0 <= i < |front| ==> front[i] == list[i];
    }
  }

  lemma {:induction false} RoutesDistinct(scopes: Table, list: seq<Declaration>)
    requires AllRoutes(scopes, list).Ok?
    ensures DistinctNames(list) && forall i :: 0 <= i < |list| ==> Stored(AllRoutes(scopes, list).value, list[i])
  {
    hide NormalizeKey, ScopeOf;
    if list != [] {
      var front := list[..|list| - 1];
      RoutesDistinct(scopes, front);
      assert forall i :: 0 <= i < |front| ==> front[i] == list[i];
    }
  }

  lemma DistinctSame(a: seq<Declaration>, b: seq<Declaration>)
    requires multiset(a) == multiset(b) && SameNames(a, b) && DistinctNames(b)
    ensures a == b
  {
    forall i | 0 <= i < |a| ensures a[i] == b[i] {
      assert a[i] in multiset(b);
      var j :| 0 <= j < |b| && b[j] == a[i];
      assert b[j].name == b[i].name;
    }
  }

  /** Sorted permutations register alike. */
  lemma ScopesPermute(a: seq<Declaration>, b: seq<Declaration>)
    requires multiset(a) == multiset(b)
    ensures AllScopes(SortedByName(a)) == AllScopes(SortedByName(b))
  {
    SortIsSorted(a);
    SortIsSorted(b);
    var s, t := SortedByName(a), SortedByName(b);
    hide SortedByName, NamesSorted;
    SortedNamesUnique(s, t);
    ScopesAgree(s, t);
    if AllScopes(t).Ok? {
      ScopesDistinct(t);
      DistinctSame(s, t);
    }
  }

  lemma RoutesPermute(scopes: Table, a: seq<Declaration>, b: seq<Declaration>)
    requires multiset(a) == multiset(b) && Handled(a)
    ensures AllRoutes(scopes, SortedByName(a)) == AllRoutes(scopes, SortedByName(b))
  {
    SortIsSorted(a);
    SortIsSorted(b);
    var s, t := SortedByName(a), SortedByName(b);
    hide SortedByName, NamesSorted;
    SortedNamesUnique(s, t);
    HandledPermutes(a, s);
    HandledPermutes(a, t);
    hide Handled;
    RoutesAgree(scopes, s, t);
    if AllRoutes(scopes, t).Ok? {
      RoutesDistinct(scopes, t);
      DistinctSame(s, t);
    }
  }

  lemma HandledPermutes(a: seq<Declaration>, b: seq<Declaration>)
    requires multiset(a) == multiset(b) && Handled(a)
    ensures Handled(b)
  {
    forall i | 0 <= i < |b| ensures b[i].handler.Some? {
      assert b[i] in multiset(a);
      var j :| 0 <= j < |a| && a[j] == b[i];
    }
  }

  /** For every permutation of the declarations the registry, or the error, is the same. */
  lemma OrderIrrelevant(scopes: seq<Declaration>, scopes': seq<Declaration>,
                        routes: seq<Declaration>, routes': seq<Declaration>)
    requires multiset(scopes) == multiset(scopes') && multiset(routes) == multiset(routes') && Handled(routes)
    ensures DefaultRegistry(scopes, routes) == DefaultRegistry(scopes', routes')
  {
    ScopesPermute(scopes, scopes');
    hide Handled, SortedByName, AllScopes, AllRoutes;
    match AllScopes(SortedByName(scopes)) {
      case Err(_) =>
      case Ok(s) => RoutesPermute(s, routes, routes');
    }
  }

  lemma {:induction false} RoutesDeclared(scopes: Table, list: seq<Declaration>, key: string)
    requires AllRoutes(scopes, list).Ok? && key in AllRoutes(scopes, list).value
    ensures ScopeOf(key) in scopes && exists i :: 0 <= i < |list| && NormalizeKey(list[i].name) == Ok(key)
  {
    hide NormalizeKey, ScopeOf;
    var front, last := list[..|list| - 1], list[|list| - 1];
    if NormalizeKey(last.name) == Ok(key) {
      assert list[|list| - 1] == last;
    } else {
      RoutesDeclared(scopes, front, key);
      var i :| 0 <= i < |front| && NormalizeKey(front[i].name) == Ok(key);
      assert list[i] == front[i];
    }
  }

  ghost predicate Declares(list: seq<Declaration>, key: string) {
    exists d :: d in list && NormalizeKey(d.name) == Ok(key)
  }

  lemma RoutesHold(scopes: Table, routes: seq<Declaration>, d: Declaration)
    requires AllRoutes(scopes, SortedByName(routes)).Ok? && d in routes
    ensures Stored(AllRoutes(scopes, SortedByName(routes)).value, d)
  {
    var sorted := SortedByName(routes);
    SortIsSorted(routes);
    RoutesDistinct(scopes, sorted);
    hide SortedByName, AllRoutes, Stored;
    assert d in multiset(sorted);
    var i :| 0 <= i < |sorted| && sorted[i] == d;
  }

  lemma RoutesOnly(scopes: Table, routes: seq<Declaration>, key: string)
    requires AllRoutes(scopes, SortedByName(routes)).Ok? && key in AllRoutes(scopes, SortedByName(routes)).value
    ensures ScopeOf(key) in scopes && Declares(routes, key)
  {
    var sorted := SortedByName(routes);
    SortIsSorted(routes);
    hide NormalizeKey, ScopeOf;
    RoutesDeclared(scopes, sorted, key);
    hide SortedByName, AllRoutes;
    var i :| 0 <= i < |sorted| && NormalizeKey(sorted[i].name) == Ok(key);
    assert sorted[i] in multiset(routes);
  }

  /** A registry holds every declared route under its key, nothing else, and no route
      without its scope. */
  lemma RegistryHoldsDeclarations(scopes: seq<Declaration>, routes: seq<Declaration>)
    requires DefaultRegistry(scopes, routes).Ok?
    ensures var r := DefaultRegistry(scopes, routes).value;
            && (forall d :: d in routes ==> Stored(r.routes, d))
            && (forall key :: key in r.routes ==> ScopeOf(key) in r.scopes && Declares(routes, key))
  {
    var r := DefaultRegistry(scopes, routes).value;
    hide SortedByName, AllRoutes, AllScopes, Stored, Declares, ScopeOf;
    forall d | d in routes ensures Stored(r.routes, d) { RoutesHold(r.scopes, routes, d); }
    forall key | key in r.routes ensures ScopeOf(key) in r.scopes && Declares(routes, key) {
      RoutesOnly(r.scopes, routes, key);
    }
  }

  // ----- When a registry can be built --------------------------------------------------------------

  /** Every name has a key, and no two names share one. */
  ghost predicate Keyed(list: seq<Declaration>) {
    && (forall d :: d in list ==> NormalizeKey(d.name).Ok?)
    && forall i, j :: 0 <= i < j < |list| ==> NormalizeKey(list[i].name) != NormalizeKey(list[j].name)
  }

  ghost predicate OneWord(d: Declaration) { NormalizeKey(d.name).Ok? && ' ' !in NormalizeKey(d.name).value }

  ghost predicate Routable(d: Declaration, scopes: set<string>) {
    NormalizeKey(d.name).Ok? && d.handler.Some? && Split(NormalizeKey(d.name).value, ' ')[0] in scopes
  }

  lemma KeyedPermutes(a: seq<Declaration>, b: seq<Declaration>)
    requires multiset(a) == multiset(b) && Keyed(a)
    ensures Keyed(b)
  {
    hide NormalizeKey;
    NoRepeatsCount(a);
    NoRepeatsCount(b);
    assert NoRepeats(a);
    forall d | d in b ensures d in a { SameMembers(a, b, d); }
    forall i, j | 0 <= i < j < |b| ensures NormalizeKey(b[i].name) != NormalizeKey(b[j].name) {
      assert b[i] != b[j];
      SameMembers(a, b, b[i]);
      SameMembers(a, b, b[j]);
    }
  }

  lemma KeyedFront(list: seq<Declaration>)
    requires list != []
    ensures var front, last := list[..|list| - 1], list[|list| - 1];
            Keyed(list)
            <==> Keyed(front) && NormalizeKey(last.name).Ok? && !Declares(front, NormalizeKey(last.name).value)
  {
    hide NormalizeKey;
    var front, last := list[..|list| - 1], list[|list| - 1];
    assert list == front + [last];
    assert forall d :: d in list <==> d in front || d == last;
    assert forall i :: 0 <= i < |front| ==> list[i] == front[i];
    if Keyed(list) {
      forall d | d in front ensures NormalizeKey(d.name) != NormalizeKey(last.name) {
        var i :| 0 <= i < |front| && front[i] == d;
        assert NormalizeKey(list[i].name) != NormalizeKey(list[|list| - 1].name);
      }
    }
    if Keyed(front) && NormalizeKey(last.name).Ok? && !Declares(front, NormalizeKey(last.name).value) {
      forall i, j | 0 <= i < j < |list| ensures NormalizeKey(list[i].name) != NormalizeKey(list[j].name) {
        if j == |list| - 1 { assert front[i] in front && NormalizeKey(front[i].name).Ok?; }
      }
    }
  }

  lemma DeclaresFront(list: seq<Declaration>, key: string)
    requires list != []
    ensures Declares(list, key)
            <==> Declares(list[..|list| - 1], key) || NormalizeKey(list[|list| - 1].name) == Ok(key)
  {
    hide NormalizeKey;
    var front, last := list[..|list| - 1], list[|list| - 1];
    assert list == front + [last];
    assert forall d :: d in list <==> d in front || d == last;
  }

  lemma {:induction false} ScopesBuildIff(list: seq<Declaration>)
    ensures AllScopes(list).Ok? <==> Keyed(list) && forall d :: d in list ==> OneWord(d)
    ensures AllScopes(list).Ok? ==> forall key :: key in AllScopes(list).value <==> Declares(list, key)
  {
    hide NormalizeKey;
    if list != [] {
      var front, last := list[..|list| - 1], list[|list| - 1];
      ScopesBuildIff(front);
      KeyedFront(list);
      assert list == front + [last];
      assert forall d :: d in list <==> d in front || d == last;
      forall key ensures Declares(list, key) <==> Declares(front, key) || NormalizeKey(last.name) == Ok(key) {
        DeclaresFront(list, key);
      }
      hide Keyed, Declares;
    }
  }

  lemma RouteAddedIff(scopes: Table, routes: Table, d: Declaration)
    ensures var r := RouteAdded(scopes, routes, d);
            && (Routable(d, scopes.Keys) ==> NormalizeKey(d.name).Ok?)
            && (r.Ok? <==> Routable(d, scopes.Keys) && NormalizeKey(d.name).value !in routes)
            && (r.Ok? ==> r.value.Keys == routes.Keys + {NormalizeKey(d.name).value})
  {
    hide NormalizeKey, Split;
  }

  lemma {:induction false} RoutesBuildIff(scopes: Table, list: seq<Declaration>)
    ensures AllRoutes(scopes, list).Ok? <==> Keyed(list) && forall d :: d in list ==> Routable(d, scopes.Keys)
    ensures AllRoutes(scopes, list).Ok? ==> forall key :: key in AllRoutes(scopes, list).value <==> Declares(list, key)
  {
    hide NormalizeKey, Routable, RouteAdded;
    if list != [] {
      var front, last := list[..|list| - 1], list[|list| - 1];
      RoutesBuildIff(scopes, front);
      KeyedFront(list);
      if AllRoutes(scopes, front).Ok? { RouteAddedIff(scopes, AllRoutes(scopes, front).value, last); }
      assert list == front + [last];
      assert forall d :: d in list <==> d in front || d == last;
      forall key ensures Declares(list, key) <==> Declares(front, key) || NormalizeKey(last.name) == Ok(key) {
        DeclaresFront(list, key);
      }
      hide Keyed, Declares;
    }
  }

  lemma SortedKeeps(list: seq<Declaration>)
    ensures Keyed(SortedByName(list)) <==> Keyed(list)
    ensures forall d :: d in SortedByName(list) <==> d in list
  {
    SortIsSorted(list);
    var sorted := SortedByName(list);
    hide SortedByName, NamesSorted;
    if Keyed(list) { KeyedPermutes(list, sorted); }
    if Keyed(sorted) { KeyedPermutes(sorted, list); }
    forall d ensures d in sorted <==> d in list { SameMembers(sorted, list, d); }
  }

  /** The registry can be built if and only if every scope is one word, every route has a
      handler and begins with a declared scope, and no two scopes and no two routes share a
      key; its keys are then exactly those of the declarations. */
  lemma RegistryBuildsIff(scopes: seq<Declaration>, routes: seq<Declaration>)
    ensures DefaultRegistry(scopes, routes).Ok?
            <==> && Keyed(scopes) && (forall d :: d in scopes ==> OneWord(d))
                 && Keyed(routes)
                 && forall d :: d in routes ==>
                      && NormalizeKey(d.name).Ok? && d.handler.Some?
                      && Declares(scopes, Split(NormalizeKey(d.name).value, ' ')[0])
    ensures DefaultRegistry(scopes, routes).Ok? ==>
              var r := DefaultRegistry(scopes, routes).value;
              && (forall key :: key in r.scopes <==> Declares(scopes, key))
              && forall key :: key in r.routes <==> Declares(routes, key)
  {
    var s, t := SortedByName(scopes), SortedByName(routes);
    SortedKeeps(scopes);
    SortedKeeps(routes);
    ScopesBuildIff(s);
    hide SortedByName, Keyed, OneWord, NormalizeKey, Split, AllScopes, AllRoutes;
    forall key ensures (Declares(s, key) <==> Declares(scopes, key)) && (Declares(t, key) <==> Declares(routes, key)) {}
    hide Declares;
    if AllScopes(s).Ok? { RoutesBuildIff(AllScopes(s).value, t); }
  }
}
