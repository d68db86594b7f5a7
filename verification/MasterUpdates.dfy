/** Concurrent master changes.  A setter checks its level, loads the published
    snapshot and later stores a changed copy; nothing stops another setter from
    storing in between. */
module MasterUpdates {
  import opened Prelude
  import opened Fixtures
  import opened Safety

  type Thread = nat

  /** A setter that has loaded `seen` and not stored yet. */
  datatype Pending = Pending(seen: Masters, update: Update)

  /** Every snapshot published so far, and the setters between load and store. */
  datatype System = System(published: seq<Masters>, pending: map<Thread, Pending>)

  datatype Action = Load(t: Thread, update: Update) | Store(t: Thread)

  const START := System([IDENTITY], map[])

  function Now(s: System): Masters
    requires s.published != []
  {
    s.published[|s.published| - 1]
  }

  function Apply(s: System, a: Action): (r: System)
    requires s.published != []
    ensures s.published <= r.published
  {
    match a
    case Load(t, u) =>
      if !InUnit(u.level) || t in s.pending then s
      else s.(pending := s.pending[t := Pending(Now(s), u)])
    case Store(t) =>
      if t !in s.pending then s
      else System(s.published + [Updated(s.pending[t].seen, s.pending[t].update)], s.pending - {t})
  }

  function Run(actions: seq<Action>): (s: System)
    ensures s.published != []
  {
    if actions == [] then START else Apply(Run(actions[..|actions| - 1]), actions[|actions| - 1])
  }

  /** One accepted change of an earlier snapshot, in full. */
  ghost predicate Untorn(published: seq<Masters>, i: nat)
    requires i < |published|
  {
    exists j: nat, u: Update :: j < i && InUnit(u.level) && published[i] == Updated(published[j], u)
  }

  ghost predicate Sound(s: System) {
    && s.published != [] && s.published[0] == IDENTITY
    && (forall i: nat :: i < |s.published| ==> ValidMasters(s.published[i]))
    && (forall i: nat :: 0 < i < |s.published| ==> Untorn(s.published, i))
    && (forall t :: t in s.pending ==>
          InUnit(s.pending[t].update.level) && s.pending[t].seen in s.published)
  }

  lemma StoreSound(s: System, t: Thread)
    requires Sound(s) && t in s.pending
    ensures Sound(Apply(s, Store(t)))
  {
    var r := Apply(s, Store(t));
    var p := s.pending[t];
    var j :| 0 <= j < |s.published| && s.published[j] == p.seen;
    var n := |s.published|;
    assert r.published[n] == Updated(r.published[j], p.update);
    forall i: nat | 0 < i < |r.published| ensures Untorn(r.published, i) {
      if i < n {
        assert Untorn(s.published, i);
        var k: nat, u: Update :| k < i && InUnit(u.level) && s.published[i] == Updated(s.published[k], u);
        assert r.published[i] == Updated(r.published[k], u);
      } else {
        assert j < i;
      }
    }
    forall q | q in r.pending ensures r.pending[q].seen in r.published {
      assert s.pending[q].seen in s.published;
    }
  }

  /** Under every interleaving each published snapshot is in range and is one
      complete change of an earlier one. */
  lemma {:induction false} SnapshotsSound(actions: seq<Action>)
    ensures Sound(Run(actions))
  {
    if actions != [] {
      var s, a := Run(actions[..|actions| - 1]), actions[|actions| - 1];
      SnapshotsSound(actions[..|actions| - 1]);
      if a.Store? && a.t in s.pending { StoreSound(s, a.t); }
    }
  }

  predicate NoStore(actions: seq<Action>) {
    forall i :: 0 <= i < |actions| ==> actions[i].Load?
  }

  lemma {:induction false} LoadsPublishNothing(before: seq<Action>, loads: seq<Action>, t: Thread)
    requires NoStore(loads) && t in Run(before).pending
    ensures Run(before + loads).published == Run(before).published
    ensures t in Run(before + loads).pending
    ensures Run(before + loads).pending[t] == Run(before).pending[t]
  {
    if loads == [] {
      assert before + loads == before;
    } else {
      LoadsPublishNothing(before, loads[..|loads| - 1], t);
      assert (before + loads)[..|before + loads| - 1] == before + loads[..|loads| - 1];
    }
  }

  /** With no store between its load and its store, a setter changes its own level
      and preserves every other one. */
  lemma UndisturbedKeepsOthers(before: seq<Action>, t: Thread, u: Update, between: seq<Action>)
    requires InUnit(u.level) && t !in Run(before).pending && NoStore(between)
    ensures Now(Run(before + [Load(t, u)] + between + [Store(t)])) == Updated(Now(Run(before)), u)
  {
    var loaded := before + [Load(t, u)];
    assert loaded[..|before|] == before;
    LoadsPublishNothing(loaded, between, t);
    var all := loaded + between + [Store(t)];
    assert all[..|all| - 1] == loaded + between;
  }

  /** A store preserves every level it does not set exactly when those levels are
      still the ones its load saw. */
  lemma StoreKeepsOthersIff(s: System, t: Thread)
    requires s.published != [] && t in s.pending
    ensures var p := s.pending[t];
            Now(Apply(s, Store(t))) == Updated(Now(s), p.update)
            <==> match p.update
                 case GrandLevel(_) => p.seen.groups == Now(s).groups
                 case GroupLevel(g, _) =>
                   p.seen.grand == Now(s).grand && p.seen.groups - {g} == Now(s).groups - {g}
  {
    var p := s.pending[t];
    match p.update {
      case GrandLevel(_) =>
      case GroupLevel(g, level) =>
        var seen, now := p.seen.groups, Now(s).groups;
        assert seen[g := level] - {g} == seen - {g} && now[g := level] - {g} == now - {g};
        assert seen[g := level] == (seen - {g})[g := level] && now[g := level] == (now - {g})[g := level];
    }
  }

  /** Two overlapping setters: the first one's level is lost. */
  lemma OverlapLosesUpdate()
    ensures var actions := [Load(0, GrandLevel(0.5)), Load(1, GroupLevel(7, 0.25)), Store(0), Store(1)];
            Now(Run(actions[..3])).grand == 0.5 && Now(Run(actions)).grand == 1.0
  {
    var actions := [Load(0, GrandLevel(0.5)), Load(1, GroupLevel(7, 0.25)), Store(0), Store(1)];
    assert actions[..3][..2] == actions[..2];
    assert actions[..2][..1] == actions[..1];
    assert actions[..1][..0] == [];
    assert Run(actions[..0]) == START;
    assert Run(actions[..1]) == Apply(START, actions[0]);
    assert Run(actions[..2]) == Apply(Run(actions[..1]), actions[1]);
    assert Run(actions[..3]) == Apply(Run(actions[..2]), actions[2]);
    assert actions[..|actions| - 1] == actions[..3];
  }
}
