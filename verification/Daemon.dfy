/** The daemon's target map: changed by `artnet configure` and `artnet target enable` or
    `disable`, each followed by stopping the worker and building a fresh one, while one
    health object lives on. */
module Daemon {
  import opened Prelude
  import opened Targets
  import opened Flags
  import P = Packet

  datatype Request = Configure(args: seq<string>) | SetEnabled(args: seq<string>, enabled: bool)

  datatype Response = Done | Usage(error: UsageError) | Rejected(reason: Invalid) | Duplicate | NotFound

  // ----- What a request does to the map --------------------------------------------------------

  ghost function ConfigureStep(m: TargetMap, args: seq<string>, parseIp: string -> Option<Address>)
    : (TargetMap, Response)
  {
    match ConfigureTarget(args, parseIp)
    case Err(e) => (m, Usage(e))
    case Ok(t) =>
      match Validate(t)
      case Some(reason) => (m, Rejected(reason))
      case None =>
        var updated := Configured(ListOf(m, t.universe), t);
        if Unique(updated) then (m[t.universe := updated], Done) else (m, Duplicate)
  }

  function EnableStep(m: TargetMap, args: seq<string>, enabled: bool, parseIp: string -> Option<Address>)
    : (TargetMap, Response)
  {
    match TargetSelector(args, parseIp)
    case Err(e) => (m, Usage(e))
    case Ok(s) =>
      var key := KeyOf(Target(s.universe, Some(s.ip), s.port, false));
      if Has(ListOf(m, s.universe), key) then (m[s.universe := Toggled(ListOf(m, s.universe), key, enabled)], Done)
      else (m, NotFound)
  }

  ghost function Step(m: TargetMap, r: Request, parseIp: string -> Option<Address>): (TargetMap, Response) {
    match r
    case Configure(args) => ConfigureStep(m, args, parseIp)
    case SetEnabled(args, enabled) => EnableStep(m, args, enabled, parseIp)
  }

  ghost function Run(requests: seq<Request>, parseIp: string -> Option<Address>): TargetMap {
    if requests == [] then map[]
    else Step(Run(requests[..|requests| - 1], parseIp), requests[|requests| - 1], parseIp).0
  }

  /** The replies to requests, from an empty start: a usage error exactly if the arguments do
      not parse; for `configure`, a rejection exactly of an invalid target; for `enable` and
      `disable`, not found exactly if the key is not configured; done otherwise. */
  lemma RepliesMean(requests: seq<Request>, r: Request, parseIp: string -> Option<Address>)
    ensures var reply := Step(Run(requests, parseIp), r, parseIp).1;
            match r
            case Configure(args) =>
              && (reply.Usage? <==> ConfigureTarget(args, parseIp).Err?)
              && (reply.Rejected?
                  <==> ConfigureTarget(args, parseIp).Ok? && !Valid(ConfigureTarget(args, parseIp).value))
              && (reply == Done <==> ConfigureTarget(args, parseIp).Ok? && Valid(ConfigureTarget(args, parseIp).value))
            case SetEnabled(args, _) =>
              && (reply.Usage? <==> TargetSelector(args, parseIp).Err?)
              && (TargetSelector(args, parseIp).Ok? ==>
                    var s := TargetSelector(args, parseIp).value;
                    var key := KeyOf(Target(s.universe, Some(s.ip), s.port, false));
                    && (reply == Done <==> key in FlatRun(requests, parseIp))
                    && (reply == NotFound <==> key !in FlatRun(requests, parseIp)))
  {
    NeverDuplicate(requests, r, parseIp);
    if r.SetEnabled? && TargetSelector(r.args, parseIp).Ok? {
      var s := TargetSelector(r.args, parseIp).value;
      RunProper(requests, parseIp);
      DaemonIsLastWriterWins(requests, parseIp);
      hide ProperMap, Same, TargetSelector, FlatRun;
      HasIff(Run(requests, parseIp), FlatRun(requests, parseIp), KeyOf(Target(s.universe, Some(s.ip), s.port, false)));
    }
    hide Run, ConfigureTarget, TargetSelector, Valid;
  }

  // ----- Every list is proper ---------------------------------------------------------------------

  /** Every list is valid, free of duplicates, not empty and filed under its own universe. */
  ghost predicate ProperMap(m: TargetMap) {
    forall u :: u in m ==> m[u] != [] && Proper(m[u], u)
  }

  lemma StepProper(m: TargetMap, r: Request, parseIp: string -> Option<Address>)
    requires ProperMap(m)
    ensures ProperMap(Step(m, r, parseIp).0)
  {
    hide ConfigureTarget, TargetSelector, Configured, Toggled, Proper, Validate;
    match r {
      case Configure(args) =>
        if ConfigureTarget(args, parseIp).Ok? && Valid(ConfigureTarget(args, parseIp).value) {
          var t := ConfigureTarget(args, parseIp).value;
          EmptyProper(t.universe);
          ConfiguredProper(ListOf(m, t.universe), t);
          ConfiguredMeans(ListOf(m, t.universe), t, t);
        }
      case SetEnabled(args, enabled) =>
        if TargetSelector(args, parseIp).Ok? {
          var s := TargetSelector(args, parseIp).value;
          var key := KeyOf(Target(s.universe, Some(s.ip), s.port, false));
          if Has(ListOf(m, s.universe), key) {
            ToggledProper(ListOf(m, s.universe), s.universe, key, enabled);
            ToggledSize(ListOf(m, s.universe), key, enabled);
          }
        }
    }
  }

  lemma EmptyProper(u: int)
    ensures Proper([], u)
  {
  }

  lemma ToggledSize(ts: seq<Target>, key: Key, enabled: bool)
    ensures |Toggled(ts, key, enabled)| == |ts|
  {
  }

  lemma {:induction false} RunProper(requests: seq<Request>, parseIp: string -> Option<Address>)
    ensures ProperMap(Run(requests, parseIp))
  {
    if requests != [] {
      RunProper(requests[..|requests| - 1], parseIp);
      hide ProperMap, Step;
      StepProper(Run(requests[..|requests| - 1], parseIp), requests[|requests| - 1], parseIp);
    }
  }

  /** From an empty start no two configured universes share a Port-Address. */
  lemma AddressesDistinct(requests: seq<Request>, parseIp: string -> Option<Address>, u: int, v: int)
    requires u in Run(requests, parseIp) && v in Run(requests, parseIp) && u != v
    ensures P.PortAddress(u) != P.PortAddress(v)
  {
    RunProper(requests, parseIp);
    var m: TargetMap := Run(requests, parseIp);
    hide Run;
    assert m[u][0].universe == u && Valid(m[u][0]) && m[v][0].universe == v && Valid(m[v][0]);
    P.ValidUniversesDistinct(u, v);
  }

  /** The duplicate check after an update can never reject. */
  lemma NeverDuplicate(requests: seq<Request>, r: Request, parseIp: string -> Option<Address>)
    ensures Step(Run(requests, parseIp), r, parseIp).1 != Duplicate
  {
    RunProper(requests, parseIp);
    var m: TargetMap := Run(requests, parseIp);
    if r.Configure? && ConfigureTarget(r.args, parseIp).Ok? && Valid(ConfigureTarget(r.args, parseIp).value) {
      var t := ConfigureTarget(r.args, parseIp).value;
      EmptyProper(t.universe);
      ConfiguredProper(ListOf(m, t.universe), t);
    }
  }

  // ----- The map is the last word on each key ---------------------------------------------------------

  type Flat = map<Key, Target>

  /** The same requests on a flat map from key to target. */
  function FlatStep(f: Flat, r: Request, parseIp: string -> Option<Address>): Flat {
    match r
    case Configure(args) =>
      (match ConfigureTarget(args, parseIp)
       case Err(_) => f
       case Ok(t) => if Valid(t) then f[KeyOf(t) := t] else f)
    case SetEnabled(args, enabled) =>
      match TargetSelector(args, parseIp)
      case Err(_) => f
      case Ok(s) =>
        var key := KeyOf(Target(s.universe, Some(s.ip), s.port, false));
        if key in f then f[key := f[key].(enabled := enabled)] else f
  }

  function FlatRun(requests: seq<Request>, parseIp: string -> Option<Address>): Flat {
    if requests == [] then map[]
    else FlatStep(FlatRun(requests[..|requests| - 1], parseIp), requests[|requests| - 1], parseIp)
  }

  predicate Holds(m: TargetMap, t: Target) { t in ListOf(m, t.universe) }

  ghost predicate Same(m: TargetMap, f: Flat) {
    && (forall t :: Holds(m, t) <==> KeyOf(t) in f && f[KeyOf(t)] == t)
    && (forall k :: k in f ==> KeyOf(f[k]) == k)
  }

  lemma HasIff(m: TargetMap, f: Flat, key: Key)
    requires Same(m, f) && ProperMap(m)
    ensures Has(ListOf(m, key.universe), key) <==> key in f
  {
    var ts := ListOf(m, key.universe);
    if Has(ts, key) {
      var i :| 0 <= i < |ts| && KeyOf(ts[i]) == key;
      assert Holds(m, ts[i]);
    }
    if key in f {
      var t := f[key];
      assert Holds(m, t) && t.universe == key.universe;
      var i :| 0 <= i < |ts| && ts[i] == t;
      assert KeyOf(ts[i]) == key;
    }
  }

  lemma ConfigureSame(m: TargetMap, f: Flat, t: Target)
    requires Same(m, f)
    ensures Same(m[t.universe := Configured(ListOf(m, t.universe), t)], f[KeyOf(t) := t])
  {
    var n, g := m[t.universe := Configured(ListOf(m, t.universe), t)], f[KeyOf(t) := t];
    hide Configured;
    forall x ensures Holds(n, x) <==> KeyOf(x) in g && g[KeyOf(x)] == x {
      if x.universe == t.universe {
        ConfiguredMeans(ListOf(m, t.universe), t, x);
        assert Holds(m, x) <==> x in ListOf(m, t.universe);
      } else {
        assert Holds(n, x) <==> Holds(m, x);
        assert KeyOf(x) != KeyOf(t);
      }
    }
  }

  lemma ToggleMember(ts: seq<Target>, key: Key, enabled: bool, x: Target)
    ensures x in Toggled(ts, key, enabled)
            <==> if KeyOf(x) == key
                 then x.enabled == enabled && (x in ts || x.(enabled := !enabled) in ts)
                 else x in ts
  {
    var r := Toggled(ts, key, enabled);
    ToggledMeans(ts, key, enabled);
    if x in r {
      var i :| 0 <= i < |r| && r[i] == x;
      assert KeyOf(ts[i]) == KeyOf(x);
      assert ts[i] == x || ts[i] == x.(enabled := !enabled);
    }
    if x in ts && (KeyOf(x) == key ==> x.enabled == enabled) {
      var i :| 0 <= i < |ts| && ts[i] == x;
      assert r[i] == x;
    }
    if KeyOf(x) == key && x.enabled == enabled && x.(enabled := !enabled) in ts {
      var i :| 0 <= i < |ts| && ts[i] == x.(enabled := !enabled);
      assert KeyOf(ts[i]) == key;
      assert r[i] == x;
    }
  }

  lemma ToggleSame(m: TargetMap, f: Flat, key: Key, enabled: bool)
    requires Same(m, f) && key in f
    ensures Same(m[key.universe := Toggled(ListOf(m, key.universe), key, enabled)],
                 f[key := f[key].(enabled := enabled)])
  {
    var u := key.universe;
    var n, g := m[u := Toggled(ListOf(m, u), key, enabled)], f[key := f[key].(enabled := enabled)];
    hide Toggled;
    forall x ensures Holds(n, x) <==> KeyOf(x) in g && g[KeyOf(x)] == x {
      ToggleMember(ListOf(m, u), key, enabled, x);
      var y := x.(enabled := !enabled);
      assert KeyOf(y) == KeyOf(x);
      assert Holds(m, x) <==> KeyOf(x) in f && f[KeyOf(x)] == x;
      assert Holds(m, y) <==> KeyOf(x) in f && f[KeyOf(x)] == y;
    }
  }

  lemma StepSame(m: TargetMap, f: Flat, r: Request, parseIp: string -> Option<Address>)
    requires Same(m, f) && ProperMap(m)
    ensures Same(Step(m, r, parseIp).0, FlatStep(f, r, parseIp))
  {
    match r {
      case Configure(args) =>
        if ConfigureTarget(args, parseIp).Ok? && Valid(ConfigureTarget(args, parseIp).value) {
          var t := ConfigureTarget(args, parseIp).value;
          EmptyProper(t.universe);
          ConfiguredProper(ListOf(m, t.universe), t);
          hide Same, ConfigureTarget, Configured;
          ConfigureSame(m, f, t);
        }
      case SetEnabled(args, enabled) =>
        if TargetSelector(args, parseIp).Ok? {
          var s := TargetSelector(args, parseIp).value;
          var key := KeyOf(Target(s.universe, Some(s.ip), s.port, false));
          HasIff(m, f, key);
          hide Same, TargetSelector, Has, Toggled;
          if key in f { ToggleSame(m, f, key, enabled); }
        }
    }
  }

  /** After any sequence of requests the daemon holds exactly the targets of the flat
      last-writer-wins map. */
  lemma {:induction false} DaemonIsLastWriterWins(requests: seq<Request>, parseIp: string -> Option<Address>)
    ensures Same(Run(requests, parseIp), FlatRun(requests, parseIp))
  {
    if requests != [] {
      var front := requests[..|requests| - 1];
      DaemonIsLastWriterWins(front, parseIp);
      RunProper(front, parseIp);
      hide Same, Step, FlatStep, ProperMap;
      StepSame(Run(front, parseIp), FlatRun(front, parseIp), requests[|requests| - 1], parseIp);
    }
  }
}
