/** What a worker's sends tell the health object: for each target, exactly one outcome per
    refused offer and per finished write, in the order of the writes. */
module SendOutcomes {
  import opened Prelude
  import opened Fixtures
  import opened Packet
  import opened Targets
  import opened Sends

  function OutcomesOf(outcomes: seq<Outcome>, t: TargetId): seq<SendResult> {
    if outcomes == [] then []
    else
      var o := outcomes[|outcomes| - 1];
      OutcomesOf(outcomes[..|outcomes| - 1], t) + if o.target == t then [o.result] else []
  }

  function WritesOf(wire: seq<Write>, t: TargetId): seq<SendResult> {
    if wire == [] then []
    else
      var w := wire[|wire| - 1];
      WritesOf(wire[..|wire| - 1], t) + if w.target == t then [w.result] else []
  }

  /** The outcomes of a connected target are the results of its writes, but for the one that
      is written and not recorded yet. */
  ghost predicate Settled(got: seq<SendResult>, sent: seq<SendResult>, flights: Flights, t: TargetId) {
    && (forall g :: g in flights && flights[g].target == t ==>
          sent == if flights[g].stage.Written? then got + [flights[g].stage.result] else got)
    && (!Running(flights, t) ==> sent == got)
  }

  /** Every offer so far of a packet to a target that is not connected was refused. */
  ghost predicate AllRefused(got: seq<SendResult>, s: System, x: TargetState, t: TargetId) {
    && |got| + (if t in s.offers then 1 else 0) == CountFor(s.built, t.universe)
    && forall i :: 0 <= i < |got| ==> got[i] == NotConnected(x.target)
  }

  ghost predicate Silent(sent: seq<SendResult>, flights: Flights, t: TargetId) {
    sent == [] && !Running(flights, t)
  }

  ghost predicate HandedOver(s: System, states: States, t: TargetId)
    requires Known(states, t)
  {
    var x, got, sent := StateOf(states, t), OutcomesOf(s.outcomes, t), WritesOf(s.wire, t);
    if !x.target.enabled then got == [] && Silent(sent, s.flights, t)
    else if !x.connected then AllRefused(got, s, x, t) && Silent(sent, s.flights, t)
    else Settled(got, sent, s.flights, t)
  }

  // ----- One step at a time ---------------------------------------------------------------------

  lemma OutcomeAdded(outcomes: seq<Outcome>, o: Outcome, t: TargetId)
    ensures OutcomesOf(outcomes + [o], t) == OutcomesOf(outcomes, t) + if o.target == t then [o.result] else []
  {
    assert (outcomes + [o])[..|outcomes|] == outcomes;
  }

  lemma WriteAdded(wire: seq<Write>, w: Write, t: TargetId)
    ensures WritesOf(wire + [w], t) == WritesOf(wire, t) + if w.target == t then [w.result] else []
  {
    assert (wire + [w])[..|wire|] == wire;
  }

  lemma BuildHands(s: System, states: States, u: int, levels: Option<seq<Byte>>, t: TargetId)
    requires Known(states, t) && HandedOver(s, states, t)
    ensures HandedOver(BuildStep(s, states, u, levels), states, t)
  {
    hide Wire, NextSeq, SeqOf, OutcomesOf, WritesOf, Settled, Silent, NotConnected;
    var r := BuildStep(s, states, u, levels);
    if s.offers == [] && Levels512(levels) {
      assert r.built[..|s.built|] == s.built;
      if t.universe == u { assert r.offers[t.index] == t; }
    }
  }

  lemma LaunchRuns(flights: Flights, g: Goroutine, t: TargetId, build: nat, q: TargetId)
    requires g !in flights
    ensures var after := flights[g := Flight(t, build, Launched)];
            Running(after, q) <==> Running(flights, q) || q == t
  {
    var after := flights[g := Flight(t, build, Launched)];
    assert after[g].target == t;
    if Running(flights, q) {
      var h :| h in flights && flights[h].target == q;
      assert after[h].target == q;
    }
    if Running(after, q) && q != t {
      var h :| h in after && after[h].target == q;
      assert flights[h].target == q;
    }
  }

  lemma LaunchSettles(got: seq<SendResult>, sent: seq<SendResult>, flights: Flights, g: Goroutine, t: TargetId,
                      build: nat, q: TargetId)
    requires g !in flights && Settled(got, sent, flights, q) && !Running(flights, t)
    ensures Settled(got, sent, flights[g := Flight(t, build, Launched)], q)
  {
    LaunchRuns(flights, g, t, build, q);
  }

  /** The first offer is of the newest packet and comes only once. */
  lemma OfferTaken(s: System, states: States, t: TargetId)
    requires InTickOrder(s, states) && s.offers != []
    ensures t in s.offers[1..] <==> t in s.offers && t != s.offers[0]
    ensures Known(states, s.offers[0]) && s.built != []
  {
    assert OwnPacket(s.built, states, s.offers[0], |s.built| - 1);
  }

  lemma RefusalHands(s: System, states: States, t: TargetId)
    requires InTickOrder(s, states) && Known(states, t) && HandedOver(s, states, t)
    requires s.offers != [] && Known(states, s.offers[0])
    requires var x := StateOf(states, s.offers[0]); x.target.enabled && !x.connected
    ensures HandedOver(OfferStep(s, states), states, t)
  {
    OfferTaken(s, states, t);
    var q := s.offers[0];
    hide InTickOrder, CountFor, OutcomesOf, WritesOf, Settled, Silent, NotConnected;
    var o := Outcome(q, NotConnected(StateOf(states, q).target));
    OutcomeAdded(s.outcomes, o, t);
    assert OfferStep(s, states) == s.(offers := s.offers[1..], outcomes := s.outcomes + [o]);
    hide OfferStep;
    var got := OutcomesOf(s.outcomes, t);
    assert got + [] == got;
  }

  lemma PassHands(s: System, states: States, t: TargetId)
    requires InTickOrder(s, states) && Bounded(s.flights, s.busy, s.launched) && Known(states, t)
    requires HandedOver(s, states, t)
    requires s.offers != [] && Known(states, s.offers[0])
    requires var x := StateOf(states, s.offers[0]); !x.target.enabled || x.connected
    ensures HandedOver(OfferStep(s, states), states, t)
  {
    OfferTaken(s, states, t);
    var q := s.offers[0];
    hide InTickOrder, CountFor, OutcomesOf, WritesOf, NotConnected;
    if q !in s.busy {
      assert !Running(s.flights, q);
      assert s.launched !in s.flights;
      LaunchRuns(s.flights, s.launched, q, |s.built| - 1, t);
      hide Running, Bounded;
      if StateOf(states, t).connected && StateOf(states, t).target.enabled {
        LaunchSettles(OutcomesOf(s.outcomes, t), WritesOf(s.wire, t), s.flights, s.launched, q, |s.built| - 1, t);
      }
    }
  }

  lemma OfferHands(s: System, states: States, t: TargetId)
    requires InTickOrder(s, states) && Bounded(s.flights, s.busy, s.launched) && Known(states, t)
    requires HandedOver(s, states, t)
    ensures HandedOver(OfferStep(s, states), states, t)
  {
    if s.offers != [] {
      OfferTaken(s, states, t);
      var x := StateOf(states, s.offers[0]);
      hide InTickOrder, Bounded, HandedOver;
      if x.target.enabled && !x.connected { RefusalHands(s, states, t); } else { PassHands(s, states, t); }
    }
  }

  lemma RestageRuns(flights: Flights, g: Goroutine, stage: Stage, q: TargetId)
    requires g in flights
    ensures Running(flights[g := flights[g].(stage := stage)], q) <==> Running(flights, q)
  {
    var after := flights[g := flights[g].(stage := stage)];
    if Running(flights, q) {
      var h :| h in flights && flights[h].target == q;
      assert after[h].target == q;
    }
    if Running(after, q) {
      var h :| h in after && after[h].target == q;
      assert flights[h].target == q;
    }
  }

  lemma WriteHands(s: System, states: States, g: Goroutine, result: SendResult, t: TargetId)
    requires Bounded(s.flights, s.busy, s.launched) && Known(states, t) && HandedOver(s, states, t)
    requires g in s.flights && s.flights[g].stage == Launched
    ensures HandedOver(Apply(s, states, WriteStep(g, result)), states, t)
  {
    var f := s.flights[g];
    WriteAdded(s.wire, Write(f.target, f.build, result), t);
    RestageRuns(s.flights, g, Written(result), t);
    assert f.target == t ==> Running(s.flights, t);
    hide Running, CountFor, OutcomesOf, WritesOf, NotConnected;
    assert WritesOf(s.wire, t) + [] == WritesOf(s.wire, t);
  }

  lemma RecordHands(s: System, states: States, g: Goroutine, t: TargetId)
    requires Bounded(s.flights, s.busy, s.launched) && Known(states, t) && HandedOver(s, states, t)
    requires g in s.flights && s.flights[g].stage.Written?
    ensures HandedOver(Apply(s, states, RecordStep(g)), states, t)
  {
    var f := s.flights[g];
    OutcomeAdded(s.outcomes, Outcome(f.target, f.stage.result), t);
    RestageRuns(s.flights, g, Recorded, t);
    assert f.target == t ==> Running(s.flights, t);
    hide Running, CountFor, OutcomesOf, WritesOf, NotConnected;
    assert OutcomesOf(s.outcomes, t) + [] == OutcomesOf(s.outcomes, t);
  }

  lemma ReleaseHands(s: System, states: States, g: Goroutine, t: TargetId)
    requires Bounded(s.flights, s.busy, s.launched) && Known(states, t) && HandedOver(s, states, t)
    requires g in s.flights && s.flights[g].stage == Recorded
    ensures HandedOver(Apply(s, states, Release(g)), states, t)
  {
    var f, after := s.flights[g], s.flights - {g};
    assert Running(after, t) ==> Running(s.flights, t) by {
      if Running(after, t) {
        var h :| h in after && after[h].target == t;
        assert s.flights[h].target == t;
      }
    }
    assert Running(s.flights, t) && f.target != t ==> Running(after, t) by {
      if Running(s.flights, t) && f.target != t {
        var h :| h in s.flights && s.flights[h].target == t;
        assert after[h].target == t;
      }
    }
    hide Running, CountFor, OutcomesOf, WritesOf, NotConnected;
  }

  lemma StepHands(s: System, states: States, a: Action, t: TargetId)
    requires InTickOrder(s, states) && Bounded(s.flights, s.busy, s.launched) && Known(states, t)
    requires HandedOver(s, states, t)
    ensures HandedOver(Apply(s, states, a), states, t)
  {
    hide InTickOrder, Bounded, HandedOver, BuildStep, OfferStep;
    match a {
      case Build(u, levels) => BuildHands(s, states, u, levels, t);
      case Offer => OfferHands(s, states, t);
      case WriteStep(g, result) =>
        if g in s.flights && s.flights[g].stage == Launched { WriteHands(s, states, g, result, t); }
      case RecordStep(g) => if g in s.flights && s.flights[g].stage.Written? { RecordHands(s, states, g, t); }
      case Release(g) => if g in s.flights && s.flights[g].stage == Recorded { ReleaseHands(s, states, g, t); }
    }
  }

  /** Under every interleaving and at every moment.  A disabled target is written nothing and
      reports nothing.  A target without a connection is written nothing and reports one
      refusal for each packet built for its universe, but for the newest while that is still
      to be offered.  A connected target reports the results of its writes, each once and in
      order, but for the write that is finished and not recorded yet. */
  lemma {:induction false} OneOutcomeEach(states: States, actions: seq<Action>, t: TargetId)
    requires Known(states, t)
    ensures HandedOver(Run(states, actions), states, t)
  {
    if actions == [] {
      assert !Running(map[], t);
    } else {
      var front := actions[..|actions| - 1];
      OneOutcomeEach(states, front, t);
      OneInFlight(states, front);
      WritesInTickOrder(states, front);
      hide InTickOrder, Bounded, HandedOver, Apply;
      StepHands(Run(states, front), states, actions[|actions| - 1], t);
    }
  }
}
