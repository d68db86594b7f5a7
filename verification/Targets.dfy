/** Unicast output targets, one list per universe. */
module Targets {
  import opened Prelude

  /** An address in its printed form; equal addresses print alike. */
  type Address = string

  datatype Target = Target(universe: int, ip: Option<Address>, port: int, enabled: bool)

  datatype Key = Key(universe: int, ip: string, port: int)

  const ARTNET_PORT := 6454
  const MAX_UNIVERSE := 255

  function EffectivePort(t: Target): int { if t.port == 0 then ARTNET_PORT else t.port }

  function Printed(ip: Option<Address>): string { if ip.Some? then ip.value else "<nil>" }

  function KeyOf(t: Target): Key { Key(t.universe, Printed(t.ip), EffectivePort(t)) }

  /** One list per universe; an absent universe has none. */
  type TargetMap = map<int, seq<Target>>

  function ListOf(m: TargetMap, u: int): seq<Target> { if u in m then m[u] else [] }

  /** Two targets have one key if and only if universe, printed address and port agree, where
      a port left open is 6454. */
  lemma SameKeyIff(a: Target, b: Target)
    ensures KeyOf(a) == KeyOf(b)
            <==> && a.universe == b.universe && Printed(a.ip) == Printed(b.ip)
                 && (if a.port == 0 then 6454 else a.port) == (if b.port == 0 then 6454 else b.port)
    ensures a.ip.Some? && b.ip.Some? ==> (Printed(a.ip) == Printed(b.ip) <==> a.ip == b.ip)
  {
  }

  datatype Invalid = UniverseTooLow | UniverseTooHigh | NotSpecific | Broadcast | PortOutOfRange

  predicate Unspecified(ip: Address) { ip == "0.0.0.0" || ip == "::" }

  /** `ValidateTarget`. */
  function Validate(t: Target): Option<Invalid> {
    if t.universe < 1 then Some(UniverseTooLow)
    else if t.universe > MAX_UNIVERSE then Some(UniverseTooHigh)
    else if t.ip == None || Unspecified(t.ip.value) then Some(NotSpecific)
    else if t.ip.value == "255.255.255.255" then Some(Broadcast)
    else if !(1 <= EffectivePort(t) <= 65535) then Some(PortOutOfRange)
    else None
  }

  predicate Valid(t: Target) { Validate(t) == None }

  /** Exactly the unicast targets: a representable universe, a specific address that is
      not the broadcast one, and a port that is left open or a UDP port. */
  lemma ValidIff(t: Target)
    ensures Valid(t) <==>
              && 1 <= t.universe <= 255
              && t.ip.Some? && t.ip.value !in ["0.0.0.0", "::", "255.255.255.255"]
              && 0 <= t.port <= 65535
  {
  }

  /** Why a target is refused: the first of the checks that fails. */
  lemma RefusedFor(t: Target)
    ensures Validate(t) == Some(UniverseTooLow) <==> t.universe < 1
    ensures Validate(t) == Some(UniverseTooHigh) <==> t.universe > 255
    ensures 1 <= t.universe <= 255 ==>
              && (Validate(t) == Some(NotSpecific) <==> t.ip == None || t.ip.value in ["0.0.0.0", "::"])
              && (Validate(t) == Some(Broadcast) <==> t.ip == Some("255.255.255.255"))
  {
  }

  // ----- Duplicates -----------------------------------------------------------------------

  ghost predicate Unique(ts: seq<Target>) {
    forall i, j :: 0 <= i < j < |ts| ==> KeyOf(ts[i]) != KeyOf(ts[j])
  }

  /** `ValidateUniqueTargets`: the first target whose key came before. */
  method FindDuplicate(ts: seq<Target>) returns (dup: Option<nat>)
    ensures dup == None <==> Unique(ts)
    ensures dup.Some? ==>
              && dup.value < |ts| && Unique(ts[..dup.value])
              && exists j :: 0 <= j < dup.value && KeyOf(ts[j]) == KeyOf(ts[dup.value])
  {
    var seen: set<Key> := {};
    for i := 0 to |ts|
      invariant seen == set j | 0 <= j < i :: KeyOf(ts[j])
      invariant Unique(ts[..i])
    {
      var key := KeyOf(ts[i]);
      if key in seen { return Some(i); }
      assert forall j :: 0 <= j < i ==> KeyOf(ts[j]) in seen;
      seen := seen + {key};
    }
    assert ts[..|ts|] == ts;
    dup := None;
  }

  // ----- Enable, disable, add or replace -----------------------------------------------------

  predicate Has(ts: seq<Target>, key: Key) { exists i :: 0 <= i < |ts| && KeyOf(ts[i]) == key }

  function Replaced(ts: seq<Target>, key: Key, f: Target -> Target): (r: seq<Target>)
    ensures |r| == |ts|
    ensures forall i :: 0 <= i < |ts| ==> r[i] == if KeyOf(ts[i]) == key then f(ts[i]) else ts[i]
  {
    seq(|ts|, i requires 0 <= i < |ts| => if KeyOf(ts[i]) == key then f(ts[i]) else ts[i])
  }

  /** `SetEnabled`: a copy with the matching target toggled; `None` when nothing matches. */
  method SetEnabled(ts: seq<Target>, selector: Target, enabled: bool) returns (r: Option<seq<Target>>)
    ensures r == if Has(ts, KeyOf(selector)) then Some(Toggled(ts, KeyOf(selector), enabled)) else None
  {
    var found := false;
    var updated: seq<Target> := [];
    for i := 0 to |ts|
      invariant |updated| == i && updated == Toggled(ts, KeyOf(selector), enabled)[..i]
      invariant found <==> exists j :: 0 <= j < i && KeyOf(ts[j]) == KeyOf(selector)
    {
      var t := ts[i];
      if KeyOf(t) == KeyOf(selector) {
        t := t.(enabled := enabled);
        found := true;
      }
      updated := updated + [t];
    }
    assert updated == Toggled(ts, KeyOf(selector), enabled);
    r := if found then Some(updated) else None;
  }

  function Toggled(ts: seq<Target>, key: Key, enabled: bool): seq<Target> {
    Replaced(ts, key, (t: Target) => t.(enabled := enabled))
  }

  /** `handleConfigure`'s list update: replace the target with this key, or add it. */
  function Configured(ts: seq<Target>, target: Target): seq<Target> {
    var replaced := Replaced(ts, KeyOf(target), t => target);
    if Has(ts, KeyOf(target)) then replaced else replaced + [target]
  }

  method AddOrReplace(ts: seq<Target>, target: Target) returns (r: seq<Target>)
    ensures r == Configured(ts, target)
  {
    var updated: seq<Target> := [];
    var replaced := false;
    for i := 0 to |ts|
      invariant |updated| == i && updated == Replaced(ts, KeyOf(target), t => target)[..i]
      invariant replaced <==> exists j :: 0 <= j < i && KeyOf(ts[j]) == KeyOf(target)
    {
      if KeyOf(ts[i]) == KeyOf(target) { replaced := true; }
      updated := updated + [if KeyOf(ts[i]) == KeyOf(target) then target else ts[i]];
    }
    r := if replaced then updated else updated + [target];
  }

  // ----- What the updates keep ------------------------------------------------------------------

  /** A list a daemon may hold for a universe. */
  ghost predicate Proper(ts: seq<Target>, u: int) {
    Unique(ts) && forall i :: 0 <= i < |ts| ==> Valid(ts[i]) && ts[i].universe == u
  }

  lemma ConfiguredProper(ts: seq<Target>, target: Target)
    requires Proper(ts, target.universe) && Valid(target)
    ensures Proper(Configured(ts, target), target.universe)
  {
    hide Valid;
    var r, key := Configured(ts, target), KeyOf(target);
    forall i | 0 <= i < |ts| ensures KeyOf(r[i]) == KeyOf(ts[i]) {}
    hide KeyOf;
  }

  lemma ToggledProper(ts: seq<Target>, u: int, key: Key, enabled: bool)
    requires Proper(ts, u)
    ensures Proper(Toggled(ts, key, enabled), u)
  {
    var r := Toggled(ts, key, enabled);
    forall i | 0 <= i < |ts|
      ensures KeyOf(r[i]) == KeyOf(ts[i]) && Valid(r[i]) && r[i].universe == u
    {
      assert r[i] == ts[i].(enabled := r[i].enabled);
    }
  }

  function Keys(ts: seq<Target>): set<Key> { set i | 0 <= i < |ts| :: KeyOf(ts[i]) }

  /** Configuring adds exactly the target's key and leaves every other target alone. */
  lemma ConfiguredMeans(ts: seq<Target>, target: Target, t: Target)
    ensures t in Configured(ts, target) <==> t == target || (t in ts && KeyOf(t) != KeyOf(target))
    ensures Keys(Configured(ts, target)) == Keys(ts) + {KeyOf(target)}
  {
    var r, key := Configured(ts, target), KeyOf(target);
    hide KeyOf;
    if t in ts && KeyOf(t) != key {
      var i :| 0 <= i < |ts| && ts[i] == t;
      assert r[i] == t;
    }
    if Has(ts, key) {
      var i :| 0 <= i < |ts| && KeyOf(ts[i]) == key;
      assert r[i] == target;
    } else {
      assert r[|ts|] == target;
    }
    forall k | k in Keys(ts) + {key} ensures k in Keys(r) {
      if k in Keys(ts) && k != key {
        var i :| 0 <= i < |ts| && KeyOf(ts[i]) == k;
        assert r[i] == ts[i];
      } else {
        var i :| 0 <= i < |r| && r[i] == target;
      }
    }
    forall k | k in Keys(r) ensures k in Keys(ts) + {key} {
      var i :| 0 <= i < |r| && KeyOf(r[i]) == k;
      if i < |ts| { assert KeyOf(ts[i]) in Keys(ts); }
    }
  }

  /** A target with the key is replaced where it stands; a new one goes to the end. */
  lemma ConfiguredInPlace(ts: seq<Target>, target: Target)
    ensures var r, key := Configured(ts, target), KeyOf(target);
            && |r| == |ts| + (if key in Keys(ts) then 0 else 1)
            && (forall i :: 0 <= i < |ts| ==> r[i] == if KeyOf(ts[i]) == key then target else ts[i])
            && (key !in Keys(ts) ==> r[|ts|] == target)
  {
    hide KeyOf;
  }

  /** Toggling changes the flag of the matching target only, and no key. */
  lemma ToggledMeans(ts: seq<Target>, key: Key, enabled: bool)
    ensures Keys(Toggled(ts, key, enabled)) == Keys(ts)
    ensures forall i :: 0 <= i < |ts| ==>
              Toggled(ts, key, enabled)[i] == if KeyOf(ts[i]) == key then ts[i].(enabled := enabled) else ts[i]
  {
    var r := Toggled(ts, key, enabled);
    assert forall i :: 0 <= i < |ts| ==> KeyOf(r[i]) == KeyOf(ts[i]);
  }
}
