/** The command registry: normalised route keys, registration with stable diagnostics,
    construction in sorted order, and longest-prefix lookup. */
module Router {
  import opened Prelude
  import opened Text
  import opened Sequences

  // ----- Keys ----------------------------------------------------------------------------------

  /** `unicode.ToLower` on the characters that can end up in a route word: the ASCII
      letters, the Kelvin sign and the dotted capital I.  Any other character stays
      outside the route alphabet, and a space stays a space. */
  function LowerChar(c: char): char {
    if 'A' <= c <= 'Z' then (c as int + 32) as char
    else if c == '\U{212A}' then 'k'
    else if c == '\U{130}' then 'i'
    else c
  }

  function Lower(s: string): (r: string)
    ensures |r| == |s| && forall i :: 0 <= i < |s| ==> r[i] == LowerChar(s[i])
  {
    seq(|s|, i requires 0 <= i < |s| => LowerChar(s[i]))
  }

  predicate Alphanumeric(c: char) { 'a' <= c <= 'z' || '0' <= c <= '9' }

  /** A lower-case letter or digit, then letters, digits and dashes. */
  predicate RouteWord(w: string) {
    w != "" && Alphanumeric(w[0]) && forall i :: 0 <= i < |w| ==> Alphanumeric(w[i]) || w[i] == '-'
  }

  datatype KeyError = EmptyName | BadWord(word: string)

  predicate AllRouteWords(words: seq<string>) { forall i :: 0 <= i < |words| ==> RouteWord(words[i]) }

  function FirstBad(words: seq<string>): string
    requires !AllRouteWords(words)
  {
    if !RouteWord(words[0]) then words[0]
    else
      assert exists i :: 0 <= i < |words| && !RouteWord(words[i]);
      assert !AllRouteWords(words[1..]) by {
        var i :| 0 <= i < |words| && !RouteWord(words[i]);
        assert words[1..][i - 1] == words[i];
      }
      FirstBad(words[1..])
  }

  /** `normalizeKey`. */
  function NormalizeKey(name: string): Result<string, KeyError> {
    var words := Fields(Lower(name));
    if words == [] then Err(EmptyName)
    else if !AllRouteWords(words) then Err(BadWord(FirstBad(words)))
    else Ok(Join(words, ' '))
  }

  lemma RouteWordsAreWords(words: seq<string>)
    requires AllRouteWords(words)
    ensures forall i :: 0 <= i < |words| ==> IsWord(words[i]) && ' ' !in words[i]
  {
  }

  predicate Plain(s: string) { forall i :: 0 <= i < |s| ==> LowerChar(s[i]) == s[i] }

  lemma {:induction false} JoinedIsPlain(words: seq<string>)
    requires AllRouteWords(words)
    ensures Plain(Join(words, ' '))
  {
    if |words| > 1 {
      JoinedIsPlain(words[1..]);
      var head, tail := words[0] + " ", Join(words[1..], ' ');
      assert RouteWord(words[0]);
      assert Join(words, ' ') == head + tail;
      assert Plain(head);
    } else if |words| == 1 {
      assert RouteWord(words[0]);
    }
  }

  /** A normalised key is its own normal form. */
  lemma NormalizeIdempotent(name: string)
    requires NormalizeKey(name).Ok?
    ensures NormalizeKey(NormalizeKey(name).value) == NormalizeKey(name)
  {
    var words := Fields(Lower(name));
    var key := Join(words, ' ');
    RouteWordsAreWords(words);
    JoinedIsPlain(words);
    assert Lower(key) == key;
    hide AllRouteWords;
    FieldsOfJoin(words);
  }

  /** Two names have the same key exactly when they hold the same words, whatever their
      case and spacing. */
  lemma SameKeyIff(a: string, b: string)
    requires NormalizeKey(a).Ok? && NormalizeKey(b).Ok?
    ensures NormalizeKey(a) == NormalizeKey(b) <==> Fields(Lower(a)) == Fields(Lower(b))
  {
    var ws, vs := Fields(Lower(a)), Fields(Lower(b));
    RouteWordsAreWords(ws);
    RouteWordsAreWords(vs);
    hide AllRouteWords;
    FieldsOfJoin(ws);
    FieldsOfJoin(vs);
  }

  /** Exactly the names whose words, in lower case, are letters, digits and inner dashes have a
      key, and case does not matter. */
  lemma KeyIff(name: string)
    ensures var words := Fields(Lower(name));
            && (NormalizeKey(name).Ok?
                <==> words != []
                     && forall i, k :: 0 <= i < |words| && 0 <= k < |words[i]| ==>
                          'a' <= words[i][k] <= 'z' || '0' <= words[i][k] <= '9' || (k > 0 && words[i][k] == '-'))
            && (NormalizeKey(name).Ok? ==> NormalizeKey(name).value == Join(words, ' '))
    ensures forall i :: 0 <= i < |name| && 'A' <= name[i] <= 'Z' ==> Lower(name)[i] as int == name[i] as int + 32
    ensures NormalizeKey(Lower(name)) == NormalizeKey(name)
  {
    var words := Fields(Lower(name));
    assert Lower(Lower(name)) == Lower(name);
    FieldsAreWords(Lower(name));
    hide Fields, Join, Lower;
  }

  // ----- Registration --------------------------------------------------------------------------------

  /** A scope (no handler needed) or a route. */
  datatype Declaration = Declaration(name: string, summary: string, handler: Option<nat>)

  datatype RegisterError =
    | ScopeInvalid(name: string, reason: KeyError)
    | ScopeNotOneWord(name: string)
    | ScopeDuplicate(key: string)
    | RouteInvalid(name: string, reason: KeyError)
    | HandlerMissing(key: string)
    | ScopeUndeclared(key: string, scope: string)
    | RouteDuplicate(key: string)

  type Table = map<string, Declaration>

  datatype Registry = Registry(scopes: Table, routes: Table)

  function ScopeAdded(scopes: Table, d: Declaration): Result<Table, RegisterError> {
    match NormalizeKey(d.name)
    case Err(e) => Err(ScopeInvalid(d.name, e))
    case Ok(key) =>
      if ' ' in key then Err(ScopeNotOneWord(d.name))
      else if key in scopes then Err(ScopeDuplicate(key))
      else Ok(scopes[key := d.(name := key)])
  }

  /** The first word of a key. */
  function ScopeOf(key: string): string { Split(key, ' ')[0] }

  function RouteAdded(scopes: Table, routes: Table, d: Declaration): Result<Table, RegisterError> {
    match NormalizeKey(d.name)
    case Err(e) => Err(RouteInvalid(d.name, e))
    case Ok(key) =>
      if d.handler == None then Err(HandlerMissing(key))
      else if ScopeOf(key) !in scopes then Err(ScopeUndeclared(key, ScopeOf(key)))
      else if key in routes then Err(RouteDuplicate(key))
      else Ok(routes[key := d.(name := key)])
  }

  class CommandRegistry {
    var scopes: Table
    var routes: Table

    function Now(): Registry reads this { Registry(scopes, routes) }

    constructor ()
      ensures Now() == Registry(map[], map[])
    {
      scopes, routes := map[], map[];
    }

    method RegisterScope(d: Declaration) returns (error: Option<RegisterError>)
      modifies this
      ensures routes == old(routes)
      ensures match ScopeAdded(old(scopes), d)
              case Ok(t) => error == None && scopes == t
              case Err(e) => error == Some(e) && scopes == old(scopes)
    {
      var key := NormalizeKey(d.name);
      if key.Err? { return Some(ScopeInvalid(d.name, key.error)); }
      if ' ' in key.value { return Some(ScopeNotOneWord(d.name)); }
      if key.value in scopes { return Some(ScopeDuplicate(key.value)); }
      scopes := scopes[key.value := d.(name := key.value)];
      error := None;
    }

    method RegisterRoute(d: Declaration) returns (error: Option<RegisterError>)
      modifies this
      ensures scopes == old(scopes)
      ensures match RouteAdded(scopes, old(routes), d)
              case Ok(t) => error == None && routes == t
              case Err(e) => error == Some(e) && routes == old(routes)
    {
      var key := NormalizeKey(d.name);
      if key.Err? { return Some(RouteInvalid(d.name, key.error)); }
      if d.handler == None { return Some(HandlerMissing(key.value)); }
      var scope := ScopeOf(key.value);
      if scope !in scopes { return Some(ScopeUndeclared(key.value, scope)); }
      if key.value in routes { return Some(RouteDuplicate(key.value)); }
      routes := routes[key.value := d.(name := key.value)];
      error := None;
    }

    /** The longest prefix of the words that is a declared route, and the words after it. */
    method Lookup(words: seq<string>) returns (r: Option<(Declaration, seq<string>)>)
      ensures r == None <==> forall n :: 1 <= n <= |words| ==> !Declared(routes, words[..n])
      ensures r.Some? ==>
                exists n :: 1 <= n <= |words| && Declared(routes, words[..n])
                  && (forall m :: n < m <= |words| ==> !Declared(routes, words[..m]))
                  && r.value == (routes[NormalizeKey(Join(words[..n], ' ')).value], words[n..])
    {
      var length := |words|;
      while length >= 1
        invariant 0 <= length <= |words|
        invariant forall m :: length < m <= |words| ==> !Declared(routes, words[..m])
      {
        var key := NormalizeKey(Join(words[..length], ' '));
        if key.Ok? && key.value in routes {
          assert Declared(routes, words[..length]);
          return Some((routes[key.value], words[length..]));
        }
        length := length - 1;
      }
      r := None;
    }
  }

  predicate Declared(routes: Table, words: seq<string>) {
    var key := NormalizeKey(Join(words, ' '));
    key.Ok? && key.value in routes
  }

  // ----- Building the registry from declarations ------------------------------------------------------

  /** The order the declarations are processed in. */
  predicate ByName(a: Declaration, b: Declaration) { AtMost(a.name, b.name) }

  function SortedByName(s: seq<Declaration>): seq<Declaration> { Sorted(s, ByName) }

  function AllScopes(list: seq<Declaration>): Result<Table, RegisterError> {
    if list == [] then Ok(map[])
    else
      match AllScopes(list[..|list| - 1])
      case Err(e) => Err(e)
      case Ok(t) => ScopeAdded(t, list[|list| - 1])
  }

  function AllRoutes(scopes: Table, list: seq<Declaration>): Result<Table, RegisterError> {
    if list == [] then Ok(map[])
    else
      match AllRoutes(scopes, list[..|list| - 1])
      case Err(e) => Err(e)
      case Ok(t) => RouteAdded(scopes, t, list[|list| - 1])
  }

  /** `NewDefaultCommandRegistry`: scopes first, then routes, each in sorted order. */
  function DefaultRegistry(scopes: seq<Declaration>, routes: seq<Declaration>): Result<Registry, RegisterError> {
    match AllScopes(SortedByName(scopes))
    case Err(e) => Err(e)
    case Ok(s) =>
      match AllRoutes(s, SortedByName(routes))
      case Err(e) => Err(e)
      case Ok(r) => Ok(Registry(s, r))
  }

  lemma {:induction false} ScopesStop(list: seq<Declaration>, n: nat)
    requires n <= |list| && AllScopes(list[..n]).Err?
    ensures AllScopes(list) == AllScopes(list[..n])
  {
    if n == |list| {
      assert list[..n] == list;
    } else {
      assert list[..|list| - 1][..n] == list[..n];
      ScopesStop(list[..|list| - 1], n);
    }
  }

  lemma {:induction false} RoutesStop(scopes: Table, list: seq<Declaration>, n: nat)
    requires n <= |list| && AllRoutes(scopes, list[..n]).Err?
    ensures AllRoutes(scopes, list) == AllRoutes(scopes, list[..n])
  {
    if n == |list| {
      assert list[..n] == list;
    } else {
      assert list[..|list| - 1][..n] == list[..n];
      RoutesStop(scopes, list[..|list| - 1], n);
    }
  }

  method BuildDefault(scopes: seq<Declaration>, routes: seq<Declaration>) returns (r: Result<Registry, RegisterError>)
    ensures r == DefaultRegistry(scopes, routes)
  {
    hide SortedByName, ScopeAdded, RouteAdded;
    var registry := new CommandRegistry();
    var list := SortedByName(scopes);
    for i := 0 to |list|
      invariant AllScopes(list[..i]) == Ok(registry.scopes) && registry.routes == map[]
    {
      assert list[..i + 1][..i] == list[..i];
      var error := registry.RegisterScope(list[i]);
      if error.Some? {
        ScopesStop(list, i + 1);
        return Err(error.value);
      }
    }
    assert list[..|list|] == list;
    ghost var declared := registry.scopes;
    list := SortedByName(routes);
    for i := 0 to |list|
      invariant registry.scopes == declared && AllRoutes(declared, list[..i]) == Ok(registry.routes)
    {
      assert list[..i + 1][..i] == list[..i];
      var error := registry.RegisterRoute(list[i]);
      if error.Some? {
        RoutesStop(declared, list, i + 1);
        return Err(error.value);
      }
    }
    assert list[..|list|] == list;
    return Ok(registry.Now());
  }
}
