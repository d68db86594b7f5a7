/** The flag format between the command-line client and the daemon: one parser on each
    side, and the printer the client uses for what it forwards. */
module Flags {
  import opened Prelude
  import opened Strconv
  import opened Targets

  datatype UsageError =
    | Unsupported(argument: string)
    | MissingValue(name: string)
    | TakesNoValue(name: string)
    | Required(name: string)
    | NotAnInteger(name: string, value: string)
    | NotAnAddress(value: string)
    | NotABool(name: string, value: string)

  type FlagMap = map<string, string>

  predicate HasDashes(s: string) { |s| >= 2 && s[0] == '-' && s[1] == '-' }

  /** `strings.Index` of a single character. */
  function IndexOf(s: string, c: char): (i: int)
    ensures -1 <= i < |s|
    ensures i >= 0 ==> s[i] == c && c !in s[..i]
    ensures i < 0 <==> c !in s
  {
    if s == "" then -1
    else if s[0] == c then 0
    else
      var i := IndexOf(s[1..], c);
      assert s == [s[0]] + s[1..];
      if i < 0 then -1 else
      assert s[..i + 1] == [s[0]] + s[1..][..i];
      i + 1
  }

  /** The flags of an argument list, added to those already read.  `switches` are the
      names that stand alone. */
  function Parsed(args: seq<string>, switches: set<string>, flags: FlagMap): Result<FlagMap, UsageError> {
    if args == [] then Ok(flags)
    else if !HasDashes(args[0]) then Err(Unsupported(args[0]))
    else
      var eq := IndexOf(args[0], '=');
      if eq >= 2 then
        var name := args[0][2..eq];
        if name in switches then Err(TakesNoValue(name))
        else Parsed(args[1..], switches, flags[name := args[0][eq + 1..]])
      else
        var name := args[0][2..];
        if name in switches then Parsed(args[1..], switches, flags[name := "true"])
        else if |args| < 2 then Err(MissingValue(name))
        else Parsed(args[2..], switches, flags[name := args[1]])
  }

  /** What is refused, wherever it stands: an argument without two dashes, a last name without
      its value, and a value for a name that stands alone. */
  lemma MisuseIsRefused(argument: string, rest: seq<string>, switches: set<string>, flags: FlagMap)
    ensures |argument| < 2 || argument[..2] != "--" ==>
              Parsed([argument] + rest, switches, flags) == Err(Unsupported(argument))
    ensures |argument| >= 2 && argument[..2] == "--" && '=' !in argument && argument[2..] !in switches ==>
              Parsed([argument], switches, flags) == Err(MissingValue(argument[2..]))
    ensures |argument| >= 2 && argument[..2] == "--" && argument[2..] in switches && '=' !in argument ==>
              Parsed([argument + "=" + argument] + rest, switches, flags) == Err(TakesNoValue(argument[2..]))
  {
    assert ([argument] + rest)[0] == argument && ([argument + "=" + argument] + rest)[0] == argument + "=" + argument;
    if |argument| >= 2 && argument[..2] == "--" {
      assert argument[0] == '-' && argument[1] == '-';
      if '=' !in argument {
        FirstIndex(argument, '=', argument);
        assert (argument + "=" + argument)[2..|argument|] == argument[2..];
      }
    }
  }

  lemma EqualsAfterDashes(s: string)
    requires HasDashes(s)
    ensures IndexOf(s, '=') < 0 || IndexOf(s, '=') >= 2
  {
  }

  /** The daemon's `parseFlags`. */
  method ParseFlags(args: seq<string>) returns (r: Result<FlagMap, UsageError>)
    ensures r == Parsed(args, {}, map[])
  {
    var flags: FlagMap := map[];
    var i := 0;
    while i < |args|
      invariant i <= |args|
      invariant Parsed(args, {}, map[]) == Parsed(args[i..], {}, flags)
    {
      var argument := args[i];
      if !HasDashes(argument) { return Err(Unsupported(argument)); }
      EqualsAfterDashes(argument);
      var eq := IndexOf(argument, '=');
      if eq >= 0 {
        flags := flags[argument[2..eq] := argument[eq + 1..]];
        i := i + 1;
      } else {
        var name := argument[2..];
        if i + 1 >= |args| { return Err(MissingValue(name)); }
        flags := flags[name := args[i + 1]];
        i := i + 2;
      }
    }
    return Ok(flags);
  }

  /** The client's `parseArtnetArgs`. */
  method ParseArtnetArgs(args: seq<string>, switches: set<string>) returns (r: Result<FlagMap, UsageError>)
    ensures r == Parsed(args, switches, map[])
  {
    var flags: FlagMap := map[];
    var i := 0;
    while i < |args|
      invariant i <= |args|
      invariant Parsed(args, switches, map[]) == Parsed(args[i..], switches, flags)
    {
      var argument := args[i];
      if !HasDashes(argument) { return Err(Unsupported(argument)); }
      EqualsAfterDashes(argument);
      var eq := IndexOf(argument, '=');
      if eq >= 0 {
        var name := argument[2..eq];
        if name in switches { return Err(TakesNoValue(name)); }
        flags := flags[name := argument[eq + 1..]];
        i := i + 1;
      } else {
        var name := argument[2..];
        if name in switches {
          flags := flags[name := "true"];
          i := i + 1;
        } else {
          if i + 1 >= |args| { return Err(MissingValue(name)); }
          flags := flags[name := args[i + 1]];
          i := i + 2;
        }
      }
    }
    return Ok(flags);
  }

  // ----- Printing and reading back -----------------------------------------------------------

  /** One flag as written: `--name=value` or `--name value`. */
  datatype Pair = Pair(name: string, value: string, joined: bool)

  function PrintPair(p: Pair): seq<string> {
    if p.joined then ["--" + p.name + "=" + p.value] else ["--" + p.name, p.value]
  }

  function Print(pairs: seq<Pair>): seq<string> {
    if pairs == [] then [] else PrintPair(pairs[0]) + Print(pairs[1..])
  }

  /** The last value given for each name. */
  function LastValues(pairs: seq<Pair>, flags: FlagMap): FlagMap {
    if pairs == [] then flags else LastValues(pairs[1..], flags[pairs[0].name := pairs[0].value])
  }

  predicate IsLast(pairs: seq<Pair>, i: int, name: string) {
    0 <= i < |pairs| && pairs[i].name == name && forall j :: i < j < |pairs| ==> pairs[j].name != name
  }

  lemma {:induction false} LastValuesMeans(pairs: seq<Pair>, flags: FlagMap, name: string)
    ensures name in LastValues(pairs, flags) <==> name in flags || exists i :: 0 <= i < |pairs| && pairs[i].name == name
    ensures forall i :: IsLast(pairs, i, name) ==> LastValues(pairs, flags)[name] == pairs[i].value
    ensures name in flags && (forall i :: 0 <= i < |pairs| ==> pairs[i].name != name) ==>
              LastValues(pairs, flags)[name] == flags[name]
  {
    if pairs != [] {
      var rest := pairs[1..];
      LastValuesMeans(rest, flags[pairs[0].name := pairs[0].value], name);
      assert forall i :: 1 <= i < |pairs| ==> pairs[i] == rest[i - 1];
      if pairs[0].name != name && exists i :: 0 <= i < |pairs| && pairs[i].name == name {
        var i :| 0 <= i < |pairs| && pairs[i].name == name;
        assert rest[i - 1].name == name;
      }
      assert forall i :: 1 <= i < |pairs| && IsLast(pairs, i, name) ==> IsLast(rest, i - 1, name);
    }
  }

  lemma {:induction false} FirstIndex(a: string, c: char, b: string)
    requires c !in a
    ensures IndexOf(a + [c] + b, c) == |a|
    ensures IndexOf(a, c) < 0
  {
    if a != "" {
      FirstIndex(a[1..], c, b);
      assert (a + [c] + b)[1..] == a[1..] + [c] + b;
    }
  }

  lemma ReadPair(p: Pair, rest: seq<string>, flags: FlagMap)
    requires '=' !in p.name
    ensures Parsed(PrintPair(p) + rest, {}, flags) == Parsed(rest, {}, flags[p.name := p.value])
  {
    var args, flag := PrintPair(p) + rest, "--" + p.name;
    assert '=' !in flag;
    FirstIndex(flag, '=', p.value);
    if p.joined {
      assert args[0][2..|p.name| + 2] == p.name && args[0][|p.name| + 3..] == p.value;
      assert args[1..] == rest;
    } else {
      assert args[0][2..] == p.name;
      assert args[2..] == rest;
    }
  }

  lemma {:induction false} ReadBack(pairs: seq<Pair>, flags: FlagMap)
    requires forall i :: 0 <= i < |pairs| ==> '=' !in pairs[i].name
    ensures Parsed(Print(pairs), {}, flags) == Ok(LastValues(pairs, flags))
  {
    if pairs != [] {
      ReadPair(pairs[0], Print(pairs[1..]), flags);
      ReadBack(pairs[1..], flags[pairs[0].name := pairs[0].value]);
    }
  }

  /** No name the parser reports holds an equals sign. */
  lemma {:induction false} NamesWithoutEquals(args: seq<string>, flags: FlagMap)
    requires forall k :: k in flags ==> '=' !in k
    ensures Parsed(args, {}, flags).Ok? ==> forall k :: k in Parsed(args, {}, flags).value ==> '=' !in k
    decreases |args|
  {
    if args != [] && HasDashes(args[0]) {
      var eq := IndexOf(args[0], '=');
      EqualsAfterDashes(args[0]);
      if eq >= 2 {
        assert forall c :: c in args[0][2..eq] ==> c in args[0][..eq];
        NamesWithoutEquals(args[1..], flags[args[0][2..eq] := args[0][eq + 1..]]);
      } else if |args| >= 2 {
        assert forall c :: c in args[0][2..] ==> c in args[0];
        NamesWithoutEquals(args[2..], flags[args[0][2..] := args[1]]);
      }
    }
  }

  /** The last value given for each name is read back exactly when no name holds an
      equals sign, whichever way each flag is written. */
  lemma PrintedFlagsRecovered(pairs: seq<Pair>)
    ensures Parsed(Print(pairs), {}, map[]) == Ok(LastValues(pairs, map[]))
            <==> forall i :: 0 <= i < |pairs| ==> '=' !in pairs[i].name
  {
    if forall i :: 0 <= i < |pairs| ==> '=' !in pairs[i].name {
      ReadBack(pairs, map[]);
    } else {
      var i :| 0 <= i < |pairs| && '=' in pairs[i].name;
      LastValuesMeans(pairs, map[], pairs[i].name);
      NamesWithoutEquals(Print(pairs), map[]);
      assert pairs[i].name in LastValues(pairs, map[]);
    }
  }

  // ----- Target selectors -----------------------------------------------------------------------

  const UNIVERSE_FLAG: string := "universe"
  const IP_FLAG: string := "ip"
  const PORT_FLAG: string := "port"
  const ENABLED_FLAG: string := "enabled"

  datatype Selector = Selector(universe: int, ip: Address, port: int)

  /** `parseTargetSelector`, on both sides; `parseIp` is the address parser, whose result
      is the printed form of the address read. */
  function ParseSelector(flags: FlagMap, parseIp: string -> Option<Address>): Result<Selector, UsageError> {
    var u, i, p := UNIVERSE_FLAG, IP_FLAG, PORT_FLAG;
    if u !in flags then Err(Required(u))
    else if ParseInt(flags[u]) == None then Err(NotAnInteger(u, flags[u]))
    else if i !in flags then Err(Required(i))
    else if parseIp(flags[i]) == None then Err(NotAnAddress(flags[i]))
    else if p in flags && ParseInt(flags[p]) == None then Err(NotAnInteger(p, flags[p]))
    else Ok(Selector(ParseInt(flags[u]).value, parseIp(flags[i]).value,
                     if p in flags then ParseInt(flags[p]).value else 0))
  }

  function ParseEnabled(flags: FlagMap): Result<bool, UsageError> {
    var e := ENABLED_FLAG;
    if e !in flags then Ok(true)
    else match ParseBool(flags[e])
         case None => Err(NotABool(e, flags[e]))
         case Some(b) => Ok(b)
  }

  function TargetFrom(flags: FlagMap, parseIp: string -> Option<Address>): Result<Target, UsageError> {
    match ParseSelector(flags, parseIp)
    case Err(e) => Err(e)
    case Ok(s) =>
      match ParseEnabled(flags)
      case Err(e) => Err(e)
      case Ok(enabled) => Ok(Target(s.universe, Some(s.ip), s.port, enabled))
  }

  /** What the flags of a target mean: universe and address are required, the port is 0 and
      the target enabled unless they say otherwise, and anything that does not parse is
      refused. */
  lemma FlagsMean(flags: FlagMap, parseIp: string -> Option<Address>)
    ensures TargetFrom(flags, parseIp).Ok?
            <==> && "universe" in flags && ParseInt(flags["universe"]).Some?
                 && "ip" in flags && parseIp(flags["ip"]).Some?
                 && ("port" in flags ==> ParseInt(flags["port"]).Some?)
                 && ("enabled" in flags ==> ParseBool(flags["enabled"]).Some?)
    ensures TargetFrom(flags, parseIp).Ok? ==>
              var t := TargetFrom(flags, parseIp).value;
              && t.universe == ParseInt(flags["universe"]).value && t.ip == parseIp(flags["ip"])
              && t.port == (if "port" in flags then ParseInt(flags["port"]).value else 0)
              && t.enabled == if "enabled" in flags then ParseBool(flags["enabled"]).value else true
  {
    hide ParseInt, ParseBool;
  }

  /** The target an argument list of `artnet configure` describes, on both sides. */
  function ConfigureTarget(args: seq<string>, parseIp: string -> Option<Address>): Result<Target, UsageError> {
    match Parsed(args, {}, map[])
    case Err(e) => Err(e)
    case Ok(flags) => TargetFrom(flags, parseIp)
  }

  /** The selector of `artnet target enable` and `disable`, on both sides. */
  function TargetSelector(args: seq<string>, parseIp: string -> Option<Address>): Result<Selector, UsageError> {
    match Parsed(args, {}, map[])
    case Err(e) => Err(e)
    case Ok(flags) => ParseSelector(flags, parseIp)
  }

  /** `targetSelectorArgs`. */
  function SelectorArgs(s: Selector, portGiven: bool): seq<string> {
    ["--" + UNIVERSE_FLAG, FormatInt(s.universe), "--" + IP_FLAG, s.ip]
    + if portGiven then ["--" + PORT_FLAG, FormatInt(s.port)] else []
  }

  /** What `artnet configure` forwards for a target. */
  function ForwardedArgs(t: Target, portGiven: bool): seq<string>
    requires t.ip.Some?
  {
    SelectorArgs(Selector(t.universe, t.ip.value, t.port), portGiven) + ["--" + ENABLED_FLAG, FormatBool(t.enabled)]
  }

  /** Reading an address and printing it is stable. */
  ghost predicate StableAddresses(parseIp: string -> Option<Address>) {
    forall s :: parseIp(s).Some? ==> parseIp(parseIp(s).value) == parseIp(s)
  }

  ghost predicate Distinct4(a: string, b: string, c: string, d: string) {
    a != b && a != c && a != d && b != c && b != d && c != d
  }

  lemma FlagNames()
    ensures Distinct4(UNIVERSE_FLAG, IP_FLAG, PORT_FLAG, ENABLED_FLAG)
    ensures '=' !in UNIVERSE_FLAG && '=' !in IP_FLAG && '=' !in PORT_FLAG && '=' !in ENABLED_FLAG
  {
    assert |UNIVERSE_FLAG| == 8 && |IP_FLAG| == 2 && |PORT_FLAG| == 4 && |ENABLED_FLAG| == 7;
  }

  function SelectorFlags(s: Selector, portGiven: bool): FlagMap {
    var base := map[UNIVERSE_FLAG := FormatInt(s.universe), IP_FLAG := s.ip];
    if portGiven then base[PORT_FLAG := FormatInt(s.port)] else base
  }

  lemma SelectorRead(s: Selector, portGiven: bool, rest: seq<string>)
    ensures Parsed(SelectorArgs(s, portGiven) + rest, {}, map[]) == Parsed(rest, {}, SelectorFlags(s, portGiven))
  {
    FlagNames();
    hide FormatInt, UNIVERSE_FLAG, IP_FLAG, PORT_FLAG, ENABLED_FLAG, Parsed;
    var u, i, p := Pair(UNIVERSE_FLAG, FormatInt(s.universe), false), Pair(IP_FLAG, s.ip, false),
                   Pair(PORT_FLAG, FormatInt(s.port), false);
    var afterIp := if portGiven then PrintPair(p) + rest else rest;
    assert SelectorArgs(s, portGiven) + rest == PrintPair(u) + (PrintPair(i) + afterIp);
    ReadPair(u, PrintPair(i) + afterIp, map[]);
    ReadPair(i, afterIp, map[u.name := u.value]);
    if portGiven { ReadPair(p, rest, map[u.name := u.value][i.name := i.value]); }
  }

  /** The flags the daemon reads from what the client forwards. */
  lemma ForwardedFlags(t: Target, portGiven: bool)
    requires t.ip.Some?
    ensures Parsed(ForwardedArgs(t, portGiven), {}, map[])
            == Ok(SelectorFlags(Selector(t.universe, t.ip.value, t.port), portGiven)
                    [ENABLED_FLAG := FormatBool(t.enabled)])
  {
    var s, e := Selector(t.universe, t.ip.value, t.port), Pair(ENABLED_FLAG, FormatBool(t.enabled), false);
    FlagNames();
    hide FormatInt, UNIVERSE_FLAG, IP_FLAG, PORT_FLAG, ENABLED_FLAG, FormatBool, SelectorFlags, SelectorArgs;
    SelectorRead(s, portGiven, PrintPair(e));
    assert PrintPair(e) + [] == PrintPair(e);
    ReadPair(e, [], SelectorFlags(s, portGiven));
  }

  lemma SelectorFlagsMean(s: Selector, portGiven: bool, parseIp: string -> Option<Address>, more: FlagMap)
    requires MIN_INT64 <= s.universe <= MAX_INT64 && MIN_INT64 <= s.port <= MAX_INT64
    requires parseIp(s.ip) == Some(s.ip) && (!portGiven ==> s.port == 0)
    requires UNIVERSE_FLAG !in more && IP_FLAG !in more && PORT_FLAG !in more
    ensures ParseSelector(SelectorFlags(s, portGiven) + more, parseIp) == Ok(s)
  {
    FlagNames();
    ParseOfFormat(s.universe);
    ParseOfFormat(s.port);
    hide FormatInt, ParseInt, UNIVERSE_FLAG, IP_FLAG, PORT_FLAG, ENABLED_FLAG;
  }

  /** What a parsed selector satisfies. */
  lemma SelectorParsed(flags: FlagMap, parseIp: string -> Option<Address>)
    requires StableAddresses(parseIp) && ParseSelector(flags, parseIp).Ok?
    ensures var s := ParseSelector(flags, parseIp).value;
            && MIN_INT64 <= s.universe <= MAX_INT64 && MIN_INT64 <= s.port <= MAX_INT64
            && parseIp(s.ip) == Some(s.ip) && (PORT_FLAG !in flags ==> s.port == 0)
  {
    hide ParseInt, UNIVERSE_FLAG, IP_FLAG, PORT_FLAG;
  }

  /** Every target the client describes reaches the daemon unchanged. */
  lemma ForwardedUnchanged(args: seq<string>, parseIp: string -> Option<Address>)
    requires StableAddresses(parseIp) && ConfigureTarget(args, parseIp).Ok?
    ensures var t := ConfigureTarget(args, parseIp).value;
            var portGiven := PORT_FLAG in Parsed(args, {}, map[]).value;
            ConfigureTarget(ForwardedArgs(t, portGiven), parseIp) == Ok(t)
  {
    hide Parsed, FormatInt, ParseInt, ParseBool, FormatBool, UNIVERSE_FLAG, IP_FLAG, PORT_FLAG, ENABLED_FLAG;
    var t, flags := ConfigureTarget(args, parseIp).value, Parsed(args, {}, map[]).value;
    var portGiven, s := PORT_FLAG in flags, ParseSelector(flags, parseIp).value;
    SelectorParsed(flags, parseIp);
    FlagNames();
    hide ParseSelector, SelectorFlags, StableAddresses;
    ForwardedFlags(t, portGiven);
    hide ForwardedArgs;
    var more := map[ENABLED_FLAG := FormatBool(t.enabled)];
    SelectorFlagsMean(s, portGiven, parseIp, more);
    assert SelectorFlags(s, portGiven) + more == SelectorFlags(s, portGiven)[ENABLED_FLAG := FormatBool(t.enabled)];
  }

  /** And so does every selector of a target to enable or disable. */
  lemma SelectorUnchanged(args: seq<string>, parseIp: string -> Option<Address>)
    requires StableAddresses(parseIp) && TargetSelector(args, parseIp).Ok?
    ensures var s := TargetSelector(args, parseIp).value;
            var portGiven := PORT_FLAG in Parsed(args, {}, map[]).value;
            TargetSelector(SelectorArgs(s, portGiven), parseIp) == Ok(s)
  {
    hide FormatInt, ParseInt, UNIVERSE_FLAG, IP_FLAG, PORT_FLAG, ENABLED_FLAG;
    var s, flags := TargetSelector(args, parseIp).value, Parsed(args, {}, map[]).value;
    var portGiven := PORT_FLAG in flags;
    SelectorParsed(flags, parseIp);
    FlagNames();
    hide ParseSelector, StableAddresses, SelectorFlags;
    SelectorRead(s, portGiven, []);
    assert SelectorArgs(s, portGiven) + [] == SelectorArgs(s, portGiven);
    hide SelectorArgs;
    SelectorFlagsMean(s, portGiven, parseIp, map[]);
    assert SelectorFlags(s, portGiven) + map[] == SelectorFlags(s, portGiven);
  }
}
