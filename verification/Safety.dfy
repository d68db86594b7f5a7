/** Blackout, stop-all and the grand and group masters. */
module Safety {
  import opened Prelude
  import opened Fixtures
  import opened Sequences

  /** An immutable snapshot of all master levels. */
  datatype Masters = Masters(grand: real, groups: map<Uuid, real>)

  const IDENTITY: Masters := Masters(1.0, map[])

  predicate InUnit(level: real) { 0.0 <= level <= 1.0 }

  ghost predicate ValidMasters(m: Masters) {
    InUnit(m.grand) && forall g :: g in m.groups ==> InUnit(m.groups[g])
  }

  /** A group without a master of its own is at full. */
  function Level(m: Masters, g: Uuid): real {
    if g in m.groups then m.groups[g] else 1.0
  }

  function ClampUnit(v: real): (r: real)
    ensures InUnit(r)
    ensures InUnit(v) ==> r == v
  {
    if v < 0.0 then 0.0 else if v > 1.0 then 1.0 else v
  }

  function Times(a: real, b: real): real { a * b }

  /** Grand master times every master of the instance's groups. */
  function Multiplier(m: Masters, gs: seq<Uuid>): real {
    if gs == [] then m.grand
    else Times(Multiplier(m, gs[..|gs| - 1]), Level(m, gs[|gs| - 1]))
  }

  /** `effectiveMultiplier`. */
  method EffectiveMultiplier(id: Uuid, m: Masters, membership: map<Uuid, seq<Uuid>>) returns (r: real)
    ensures r == Multiplier(m, GroupsOf(membership, id))
  {
    r := m.grand;
    var gs := GroupsOf(membership, id);
    for i := 0 to |gs|
      invariant r == Multiplier(m, gs[..i])
    {
      assert gs[..i + 1][..i] == gs[..i];
      if gs[i] in m.groups { r := r * m.groups[gs[i]]; }
    }
    assert gs[..|gs|] == gs;
  }

  function GroupsOf(membership: map<Uuid, seq<Uuid>>, id: Uuid): seq<Uuid> {
    if id in membership then membership[id] else []
  }

  datatype State = State(blackout: bool, stopAll: bool, masters: Masters)
  {
    predicate Dark() { blackout || stopAll }
  }

  /** A change of one master level. */
  datatype Update = GrandLevel(level: real) | GroupLevel(group: Uuid, level: real)

  function Updated(m: Masters, u: Update): Masters {
    match u
    case GrandLevel(level) => Masters(level, m.groups)
    case GroupLevel(g, level) => Masters(m.grand, m.groups[g := level])
  }

  const MASTER_INVALID := "GOLC_ARTNET_SAFETY_MASTER_INVALID"

  /** The daemon's safety state; a published masters snapshot is never written to,
      only replaced. */
  class SafetyState {
    var blackout: bool
    var stopAll: bool
    var masters: Masters

    function Current(): State reads this { State(blackout, stopAll, masters) }

    constructor ()
      ensures Current() == State(false, false, IDENTITY)
    {
      blackout, stopAll, masters := false, false, IDENTITY;
    }

    method SetBlackout(on: bool)
      modifies this
      ensures Current() == old(Current()).(blackout := on)
    {
      blackout := on;
    }

    method SetStopAll(on: bool)
      modifies this
      ensures Current() == old(Current()).(stopAll := on)
    {
      stopAll := on;
    }

    /** `setGrandMaster` and `setGroupMaster`, run without another writer. */
    method SetMaster(u: Update) returns (error: Option<string>)
      modifies this
      ensures error == None <==> InUnit(u.level)
      ensures error == None ==>
                && Current() == old(Current()).(masters := Updated(old(masters), u))
                && (old(ValidMasters(masters)) ==> ValidMasters(masters))
      ensures error.Some? ==> Current() == old(Current())
    {
      if u.level < 0.0 || u.level > 1.0 { return Some(MASTER_INVALID); }
      var current := masters;
      match u {
        case GrandLevel(level) => masters := Masters(level, current.groups);
        case GroupLevel(group, level) => masters := Masters(current.grand, current.groups[group := level]);
      }
      error := None;
    }
  }

  /** Intensity forced to 0, everything else kept. */
  function Zeroed(attrs: AttributeSet): AttributeSet {
    map k | k in attrs :: if k == INTENSITY then 0.0 else attrs[k]
  }

  /** Intensity scaled and clamped, everything else kept. */
  function Scaled(attrs: AttributeSet, multiplier: real): AttributeSet {
    map k | k in attrs :: if k == INTENSITY then ClampUnit(Times(attrs[k], multiplier)) else attrs[k]
  }

  function Mastered(attrs: AttributeSet, s: State, gs: seq<Uuid>): AttributeSet {
    if s.Dark() then Zeroed(attrs) else Scaled(attrs, Multiplier(s.masters, gs))
  }

  function Overridden(frame: Frame, s: State, membership: map<Uuid, seq<Uuid>>): Frame {
    map id | id in frame :: Mastered(frame[id], s, GroupsOf(membership, id))
  }

  /** `applyOverrides`: a fresh frame, instance by instance. */
  method ApplyOverrides(frame: Frame, s: State, membership: map<Uuid, seq<Uuid>>) returns (out: Frame)
    ensures out == Overridden(frame, s, membership)
  {
    hide Zeroed, Scaled, Multiplier, GroupsOf;
    out := map[];
    var rest := frame.Keys;
    while rest != {}
      invariant rest <= frame.Keys
      invariant out == map id | id in frame && id !in rest :: Mastered(frame[id], s, GroupsOf(membership, id))
      decreases rest
    {
      var id :| id in rest;
      if s.blackout || s.stopAll {
        out := out[id := Zeroed(frame[id])];
      } else {
        var multiplier := EffectiveMultiplier(id, s.masters, membership);
        out := out[id := Scaled(frame[id], multiplier)];
      }
      rest := rest - {id};
    }
  }

  // ----- The order of groups does not matter -------------------------------------

  lemma SwapFactors(a: real, b: real, c: real)
    ensures Times(Times(a, b), c) == Times(Times(a, c), b)
  {
  }

  lemma {:induction false} MultiplierRemove(m: Masters, gs: seq<Uuid>, i: nat)
    requires i < |gs|
    ensures Multiplier(m, gs) == Times(Multiplier(m, Without(gs, i)), Level(m, gs[i]))
  {
    hide Level, Times;
    if i == |gs| - 1 {
      assert Without(gs, i) == gs[..i];
    } else {
      var front := gs[..|gs| - 1];
      MultiplierRemove(m, front, i);
      WithoutFront(gs, i);
      hide Without;
      SwapFactors(Multiplier(m, Without(front, i)), Level(m, gs[i]), Level(m, gs[|gs| - 1]));
    }
  }

  lemma {:induction false} MultiplierPermutes(m: Masters, gs: seq<Uuid>, hs: seq<Uuid>)
    requires multiset(gs) == multiset(hs)
    ensures Multiplier(m, gs) == Multiplier(m, hs)
  {
    hide Level, Without, Times;
    SamePermutationLength(gs, hs);
    if gs != [] {
      var i := TakeLastOut(gs, hs);
      MultiplierPermutes(m, gs[..|gs| - 1], Without(hs, i));
      MultiplierRemove(m, hs, i);
    }
  }

  // ----- Masters multiply ----------------------------------------------------------------

  /** A factor k of one factor is a factor of the product. */
  lemma FactorOut(a: real, b: real, k: real, x: real, y: real, product: real)
    requires product == Times(a, b)
    ensures x == a * k ==> Times(x, b) == product * k
    ensures y == b * k ==> Times(a, y) == product * k
  {
    assert (a * k) * b == (a * b) * k;
    assert a * (b * k) == (a * b) * k;
  }

  /** k times the grand master is k times every multiplier. */
  lemma {:induction false} GrandScales(m: Masters, k: real, gs: seq<Uuid>)
    ensures Multiplier(m.(grand := m.grand * k), gs) == Multiplier(m, gs) * k
  {
    hide Times;
    if gs != [] {
      var front, g := gs[..|gs| - 1], gs[|gs| - 1];
      var louder := m.(grand := m.grand * k);
      GrandScales(m, k, front);
      FactorOut(Multiplier(m, front), Level(m, g), k, Multiplier(louder, front), 0.0, Multiplier(m, gs));
      assert Level(louder, g) == Level(m, g);
    }
  }

  /** k times the level of a group is k times the multiplier of an instance listed in it
      once, and leaves those alone that are not in it. */
  lemma {:induction false} GroupScales(m: Masters, g: Uuid, k: real, gs: seq<Uuid>)
    requires multiset(gs)[g] <= 1
    ensures Multiplier(m.(groups := m.groups[g := Level(m, g) * k]), gs)
            == if g in gs then Multiplier(m, gs) * k else Multiplier(m, gs)
  {
    hide Times;
    if gs != [] {
      var front, last := gs[..|gs| - 1], gs[|gs| - 1];
      assert gs == front + [last];
      assert g in front <==> g in multiset(front);
      var louder := m.(groups := m.groups[g := Level(m, g) * k]);
      GroupScales(m, g, k, front);
      FactorOut(Multiplier(m, front), Level(m, last), k, Multiplier(louder, front), Level(louder, last),
                Multiplier(m, gs));
      assert g != last ==> Level(louder, last) == Level(m, last);
    }
  }

  /** Without a group that has a master the multiplier is the grand master. */
  lemma {:induction false} UngroupedMultiplier(m: Masters, gs: seq<Uuid>)
    requires forall g :: g in gs ==> g !in m.groups
    ensures Multiplier(m, gs) == m.grand
  {
    if gs != [] {
      UngroupedMultiplier(m, gs[..|gs| - 1]);
      assert gs[|gs| - 1] in gs;
    }
  }

  /** What is sent for an instance whose intensity is v: 0 in a dark state, otherwise v times
      its multiplier, which without mastered groups is the grand master, clamped to the unit
      range; every other attribute is kept. */
  lemma MasteredMeans(attrs: AttributeSet, s: State, gs: seq<Uuid>, v: real, m: real)
    requires INTENSITY in attrs && attrs[INTENSITY] == v && m == Multiplier(s.masters, gs)
    ensures var out := Mastered(attrs, s, gs);
            && out.Keys == attrs.Keys
            && (forall k :: k in attrs && k != INTENSITY ==> out[k] == attrs[k])
            && (s.blackout || s.stopAll ==> out[INTENSITY] == 0.0)
            && (!s.blackout && !s.stopAll ==> out[INTENSITY] == ClampUnit(v * m))
    ensures (forall g :: g in gs ==> g !in s.masters.groups) ==> m == s.masters.grand
  {
    if forall g :: g in gs ==> g !in s.masters.groups { UngroupedMultiplier(s.masters, gs); }
    hide Multiplier;
    ScaledIntensity(attrs, v, m);
    hide Scaled, Zeroed;
  }

  lemma ClampMeans(v: real)
    ensures ClampUnit(v) == if v <= 0.0 then 0.0 else if v >= 1.0 then 1.0 else v
  {
  }

  lemma ScaledIntensity(attrs: AttributeSet, v: real, m: real)
    requires INTENSITY in attrs && attrs[INTENSITY] == v
    ensures var out := Scaled(attrs, m);
            && out.Keys == attrs.Keys && (forall k :: k in attrs && k != INTENSITY ==> out[k] == attrs[k])
            && out[INTENSITY] == ClampUnit(v * m)
    ensures var out := Zeroed(attrs);
            && out.Keys == attrs.Keys && (forall k :: k in attrs && k != INTENSITY ==> out[k] == attrs[k])
            && out[INTENSITY] == 0.0
  {
    assert Times(v, m) == v * m;
    hide Times;
  }

  // ----- Lowering a master never raises a multiplier --------------------------------

  /** Every level of `a` is at most the level of `b`. */
  ghost predicate AtMost(a: Masters, b: Masters) {
    a.grand <= b.grand && forall g :: Level(a, g) <= Level(b, g)
  }

  lemma MulMono(a: real, b: real, c: real, d: real)
    requires 0.0 <= a <= b && 0.0 <= c <= d
    ensures 0.0 <= Times(a, c) <= Times(b, d)
  {
    assert a * c <= b * c;
    assert b * c <= b * d;
  }

  lemma TimesOne()
    ensures Times(1.0, 1.0) == 1.0
  {
  }

  lemma LevelInUnit(m: Masters, g: Uuid)
    requires ValidMasters(m)
    ensures InUnit(Level(m, g))
  {
  }

  lemma {:induction false} MultiplierMono(a: Masters, b: Masters, gs: seq<Uuid>)
    requires ValidMasters(a) && ValidMasters(b) && AtMost(a, b)
    ensures 0.0 <= Multiplier(a, gs) <= Multiplier(b, gs) <= 1.0
  {
    hide Times;
    if gs != [] {
      var front, g := gs[..|gs| - 1], gs[|gs| - 1];
      MultiplierMono(a, b, front);
      LevelInUnit(a, g);
      LevelInUnit(b, g);
      assert Level(a, g) <= Level(b, g);
      hide Level, ValidMasters, AtMost;
      MulMono(Multiplier(a, front), Multiplier(b, front), Level(a, g), Level(b, g));
      MulMono(Multiplier(b, front), 1.0, Level(b, g), 1.0);
      TimesOne();
    }
  }

  /** The scaled level grows with the multiplier, whatever the programmed value. */
  lemma ScaledMono(v: real, a: real, b: real)
    requires 0.0 <= a <= b
    ensures ClampUnit(Times(v, a)) <= ClampUnit(Times(v, b))
  {
    if v >= 0.0 {
      MulMono(v, v, a, b);
    } else {
      MulMono(-v, -v, 0.0, a);
      MulMono(-v, -v, 0.0, b);
      assert v * a == -((-v) * a) && v * b == -((-v) * b);
    }
  }

  // ----- Group membership -------------------------------------------------------------

  predicate Member(inst: Instance, group: Group) {
    exists i :: 0 <= i < |group.members|
      && group.members[i] == MemberRef(inst.poolId, inst.poolMemberId)
  }

  /** The groups of one instance, in group order. */
  function Groups(inst: Instance, groups: seq<Group>): seq<Uuid> {
    if groups == [] then []
    else
      var front, g := Groups(inst, groups[..|groups| - 1]), groups[|groups| - 1];
      if Member(inst, g) then front + [g.id] else front
  }

  /** The groups recorded for an id, over all instances that carry it. */
  function MembershipOf(instances: seq<Instance>, groups: seq<Group>, id: Uuid): seq<Uuid> {
    if instances == [] then []
    else
      var front, inst := MembershipOf(instances[..|instances| - 1], groups, id), instances[|instances| - 1];
      if inst.id == id then front + Groups(inst, groups) else front
  }

  /** `buildMembership`: three nested loops, the innermost left at the first
      matching reference. */
  method BuildMembership(instances: seq<Instance>, groups: seq<Group>) returns (membership: map<Uuid, seq<Uuid>>)
    ensures forall id :: GroupsOf(membership, id) == MembershipOf(instances, groups, id)
  {
    membership := map[];
    for i := 0 to |instances|
      invariant forall id :: GroupsOf(membership, id) == MembershipOf(instances[..i], groups, id)
    {
      var inst := instances[i];
      assert instances[..i + 1][..i] == instances[..i];
      ghost var before := membership;
      for j := 0 to |groups|
        invariant GroupsOf(membership, inst.id) == GroupsOf(before, inst.id) + Groups(inst, groups[..j])
        invariant forall id :: id != inst.id ==> GroupsOf(membership, id) == GroupsOf(before, id)
      {
        assert groups[..j + 1][..j] == groups[..j];
        var found := HasMember(inst, groups[j]);
        if found {
          membership := membership[inst.id := GroupsOf(membership, inst.id) + [groups[j].id]];
        }
      }
      assert groups[..|groups|] == groups;
    }
    assert instances[..|instances|] == instances;
  }

  method HasMember(inst: Instance, group: Group) returns (found: bool)
    ensures found == Member(inst, group)
  {
    found := false;
    for k := 0 to |group.members|
      invariant !found
      invariant forall i :: 0 <= i < k ==> group.members[i] != MemberRef(inst.poolId, inst.poolMemberId)
    {
      if group.members[k].poolId == inst.poolId && group.members[k].poolMemberId == inst.poolMemberId {
        return true;
      }
    }
  }

  lemma {:induction false} GroupsMean(inst: Instance, groups: seq<Group>, g: Uuid)
    ensures g in Groups(inst, groups) <==>
              exists group, ref :: group in groups && group.id == g && ref in group.members
                                   && ref.poolId == inst.poolId && ref.poolMemberId == inst.poolMemberId
  {
    if groups != [] {
      var front, last := groups[..|groups| - 1], groups[|groups| - 1];
      GroupsMean(inst, front, g);
      assert forall group :: group in groups <==> group in front || group == last;
      MemberMeans(inst, last);
      hide Member;
    }
  }

  lemma MemberMeans(inst: Instance, group: Group)
    ensures Member(inst, group)
            <==> exists ref :: ref in group.members && ref.poolId == inst.poolId
                               && ref.poolMemberId == inst.poolMemberId
  {
    if exists ref :: ref in group.members && ref.poolId == inst.poolId && ref.poolMemberId == inst.poolMemberId {
      var ref :| ref in group.members && ref.poolId == inst.poolId && ref.poolMemberId == inst.poolMemberId;
      var i :| 0 <= i < |group.members| && group.members[i] == ref;
    }
  }

  /** An id belongs to a group if and only if some instance of that id fills a place, by pool
      and by member of the pool, that a group of that id refers to. */
  lemma {:induction false} MembershipMeans(instances: seq<Instance>, groups: seq<Group>, id: Uuid, g: Uuid)
    ensures g in MembershipOf(instances, groups, id) <==>
              exists inst, group, ref :: inst in instances && inst.id == id && group in groups && group.id == g
                                         && ref in group.members && ref.poolId == inst.poolId
                                         && ref.poolMemberId == inst.poolMemberId
  {
    if instances != [] {
      var front, last := instances[..|instances| - 1], instances[|instances| - 1];
      MembershipMeans(front, groups, id, g);
      assert forall inst :: inst in instances <==> inst in front || inst == last;
      GroupsMean(last, groups, g);
      hide Groups;
    }
  }

  lemma {:induction false} GroupsRemove(inst: Instance, groups: seq<Group>, i: nat)
    requires i < |groups|
    ensures multiset(Groups(inst, groups))
            == multiset(Groups(inst, Without(groups, i)))
               + if Member(inst, groups[i]) then multiset{groups[i].id} else multiset{}
  {
    hide Member;
    if i == |groups| - 1 {
      assert Without(groups, i) == groups[..i];
    } else {
      GroupsRemove(inst, groups[..|groups| - 1], i);
      WithoutFront(groups, i);
      hide Without;
    }
  }

  lemma {:induction false} GroupsPermute(inst: Instance, groups: seq<Group>, other: seq<Group>)
    requires multiset(groups) == multiset(other)
    ensures multiset(Groups(inst, groups)) == multiset(Groups(inst, other))
  {
    hide Member, Without;
    SamePermutationLength(groups, other);
    if groups != [] {
      var i := TakeLastOut(groups, other);
      GroupsPermute(inst, groups[..|groups| - 1], Without(other, i));
      GroupsRemove(inst, other, i);
    }
  }

  lemma {:induction false} MembershipPermutes(instances: seq<Instance>, groups: seq<Group>, other: seq<Group>, id: Uuid)
    requires multiset(groups) == multiset(other)
    ensures multiset(MembershipOf(instances, groups, id)) == multiset(MembershipOf(instances, other, id))
  {
    if instances != [] {
      MembershipPermutes(instances[..|instances| - 1], groups, other, id);
      GroupsPermute(instances[|instances| - 1], groups, other);
    }
  }

  /** The overridden frame does not depend on the order of the groups. */
  lemma GroupOrderIrrelevant(frame: Frame, s: State, instances: seq<Instance>,
                             groups: seq<Group>, other: seq<Group>,
                             a: map<Uuid, seq<Uuid>>, b: map<Uuid, seq<Uuid>>)
    requires multiset(groups) == multiset(other)
    requires forall id :: GroupsOf(a, id) == MembershipOf(instances, groups, id)
    requires forall id :: GroupsOf(b, id) == MembershipOf(instances, other, id)
    ensures Overridden(frame, s, a) == Overridden(frame, s, b)
  {
    hide Multiplier, MembershipOf, Scaled, Zeroed;
    forall id | id in frame
      ensures Mastered(frame[id], s, GroupsOf(a, id)) == Mastered(frame[id], s, GroupsOf(b, id))
    {
      MembershipPermutes(instances, groups, other, id);
      MultiplierPermutes(s.masters, GroupsOf(a, id), GroupsOf(b, id));
    }
  }
}
