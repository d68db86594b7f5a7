/** One worker's asynchronous sends as a step system.  The tick goroutine builds a
    packet for a universe and offers it to that universe's targets one by one; each
    accepted offer starts a goroutine that writes, records and then releases the
    target's busy flag.  Steps of all goroutines interleave freely. */
module Sends {
  import opened Prelude
  import opened Fixtures
  import opened Packet
  import opened Targets
  import opened Strconv

  /** A target by its universe and its position in that universe's list. */
  datatype TargetId = TargetId(universe: int, index: nat)

  type Goroutine = nat

  /** A configured target and whether `Start` dialled it. */
  datatype TargetState = TargetState(universe: int, target: Target, connected: bool)

  type States = map<int, seq<TargetState>>

  function StatesOf(states: States, u: int): seq<TargetState> { if u in states then states[u] else [] }

  predicate Known(states: States, t: TargetId) { t.index < |StatesOf(states, t.universe)| }

  function StateOf(states: States, t: TargetId): TargetState
    requires Known(states, t)
  {
    StatesOf(states, t.universe)[t.index]
  }

  datatype Built = Built(universe: int, packet: seq<Byte>)

  /** What a write or an offer came to: an error or none. */
  type SendResult = Option<string>

  datatype Stage = Launched | Written(result: SendResult) | Recorded

  /** A send goroutine and the packet it carries, by its position in build order. */
  datatype Flight = Flight(target: TargetId, build: nat, stage: Stage)

  datatype Write = Write(target: TargetId, build: nat, result: SendResult)

  datatype Outcome = Outcome(target: TargetId, result: SendResult)

  function NotConnected(t: Target): SendResult {
    Some("GOLC_ARTNET_TARGET_NOT_CONNECTED: target " + Printed(t.ip) + ":" + FormatInt(EffectivePort(t))
         + " has no open connection")
  }

  datatype System = System(
    seqs: map<int, Byte>,            // sequence counter per universe
    built: seq<Built>,               // every packet built, in build order
    offers: seq<TargetId>,           // targets the tick has yet to offer the newest packet to
    busy: set<TargetId>,             // the busy flags that are up
    flights: map<Goroutine, Flight>, // goroutines still running
    launched: nat,                   // goroutines started so far
    wire: seq<Write>,                // writes, in the order they happen
    outcomes: seq<Outcome>)          // outcomes handed to the health model

  const START := System(map[], [], [], {}, map[], 0, [], [])

  datatype Action =
    | Build(u: int, levels: Option<seq<Byte>>)
    | Offer
    | WriteStep(g: Goroutine, result: SendResult)
    | RecordStep(g: Goroutine)
    | Release(g: Goroutine)

  function SeqOf(seqs: map<int, Byte>, u: int): Byte { if u in seqs then seqs[u] else 0 }

  /** The targets of a universe in configuration order. */
  function TargetsOf(states: States, u: int): (r: seq<TargetId>)
    ensures |r| == |StatesOf(states, u)| && forall i :: 0 <= i < |r| ==> r[i] == TargetId(u, i) && Known(states, r[i])
  {
    seq(|StatesOf(states, u)|, i requires 0 <= i < |StatesOf(states, u)| => TargetId(u, i))
  }

  function Levels512(levels: Option<seq<Byte>>): bool { levels.Some? && |levels.value| == 512 }

  function BuildStep(s: System, states: States, u: int, levels: Option<seq<Byte>>): System {
    if s.offers != [] || !Levels512(levels) then s
    else
      var n := NextSeq(SeqOf(s.seqs, u));
      s.(seqs := s.seqs[u := n],
         built := s.built + [Built(u, Wire(Dmx(n, 0, PortAddress(u), levels.value)))],
         offers := TargetsOf(states, u))
  }

  /** `dispatchSend` for the next target. */
  function OfferStep(s: System, states: States): System {
    if s.offers == [] || !Known(states, s.offers[0]) || s.built == [] then s
    else
      var t, s' := s.offers[0], s.(offers := s.offers[1..]);
      if !StateOf(states, t).target.enabled then s'
      else if !StateOf(states, t).connected then
        s'.(outcomes := s.outcomes + [Outcome(t, NotConnected(StateOf(states, t).target))])
      else if t in s.busy then s'
      else s'.(busy := s.busy + {t},
               flights := s.flights[s.launched := Flight(t, |s.built| - 1, Launched)],
               launched := s.launched + 1)
  }

  function Apply(s: System, states: States, a: Action): System {
    match a
    case Build(u, levels) => BuildStep(s, states, u, levels)
    case Offer => OfferStep(s, states)
    case WriteStep(g, result) =>
      if g !in s.flights || s.flights[g].stage != Launched then s
      else
        var f := s.flights[g];
        s.(flights := s.flights[g := f.(stage := Written(result))], wire := s.wire + [Write(f.target, f.build, result)])
    case RecordStep(g) =>
      if g !in s.flights || !s.flights[g].stage.Written? then s
      else
        var f := s.flights[g];
        s.(flights := s.flights[g := f.(stage := Recorded)],
           outcomes := s.outcomes + [Outcome(f.target, f.stage.result)])
    case Release(g) =>
      if g !in s.flights || s.flights[g].stage != Recorded then s
      else s.(flights := s.flights - {g}, busy := s.busy - {s.flights[g].target})
  }

  function Run(states: States, actions: seq<Action>): System {
    if actions == [] then START
    else Apply(Run(states, actions[..|actions| - 1]), states, actions[|actions| - 1])
  }

  type Flights = map<Goroutine, Flight>

  // ----- At most one send in flight per target -------------------------------------------------

  ghost predicate Running(flights: Flights, t: TargetId) {
    exists g :: g in flights && flights[g].target == t
  }

  ghost predicate Bounded(flights: Flights, busy: set<TargetId>, launched: nat) {
    && (forall g :: g in flights ==> g < launched)
    && (forall g, h :: g in flights && h in flights && flights[g].target == flights[h].target ==> g == h)
    && (forall t :: t in busy <==> Running(flights, t))
  }

  lemma LaunchBounded(flights: Flights, busy: set<TargetId>, launched: nat, t: TargetId, build: nat)
    requires Bounded(flights, busy, launched) && t !in busy
    ensures Bounded(flights[launched := Flight(t, build, Launched)], busy + {t}, launched + 1)
  {
    var after := flights[launched := Flight(t, build, Launched)];
    assert !Running(flights, t);
    forall q ensures q in busy + {t} <==> Running(after, q) {
      assert after[launched].target == t;
      if q in busy {
        var g :| g in flights && flights[g].target == q;
        assert after[g].target == q;
      }
      if Running(after, q) && q != t {
        var g :| g in after && after[g].target == q;
        assert flights[g].target == q;
      }
    }
  }

  lemma RestageBounded(flights: Flights, busy: set<TargetId>, launched: nat, g: Goroutine, stage: Stage)
    requires Bounded(flights, busy, launched) && g in flights
    ensures Bounded(flights[g := flights[g].(stage := stage)], busy, launched)
  {
    var after := flights[g := flights[g].(stage := stage)];
    forall q ensures Running(flights, q) <==> Running(after, q) {
      if Running(flights, q) {
        var h :| h in flights && flights[h].target == q;
        assert after[h].target == q;
      }
      if Running(after, q) {
        var h :| h in after && after[h].target == q;
        assert flights[h].target == q;
      }
    }
  }

  lemma ReleaseBounded(flights: Flights, busy: set<TargetId>, launched: nat, g: Goroutine)
    requires Bounded(flights, busy, launched) && g in flights
    ensures Bounded(flights - {g}, busy - {flights[g].target}, launched)
  {
    var after := flights - {g};
    forall q ensures q in busy - {flights[g].target} <==> Running(after, q) {
      if q in busy - {flights[g].target} {
        var h :| h in flights && flights[h].target == q;
        assert h in after && after[h].target == q;
      }
      if Running(after, q) {
        var h :| h in after && after[h].target == q;
        assert h in flights && flights[h].target == q && h != g;
        assert Running(flights, q);
      }
    }
  }

  lemma StepBounded(s: System, states: States, a: Action)
    requires Bounded(s.flights, s.busy, s.launched)
    ensures var r := Apply(s, states, a); Bounded(r.flights, r.busy, r.launched)
  {
    hide Bounded, Wire, NextSeq, PortAddress, TargetsOf, SeqOf;
    match a {
      case Build(u, levels) =>
      case Offer =>
        if s.offers != [] && s.built != [] && s.offers[0] !in s.busy {
          LaunchBounded(s.flights, s.busy, s.launched, s.offers[0], |s.built| - 1);
        }
      case WriteStep(g, result) =>
        if g in s.flights { RestageBounded(s.flights, s.busy, s.launched, g, Written(result)); }
      case RecordStep(g) =>
        if g in s.flights { RestageBounded(s.flights, s.busy, s.launched, g, Recorded); }
      case Release(g) =>
        if g in s.flights { ReleaseBounded(s.flights, s.busy, s.launched, g); }
    }
  }

  /** Under every interleaving a target has at most one send in flight, and its busy
      flag is up exactly while it has one. */
  lemma {:induction false} OneInFlight(states: States, actions: seq<Action>)
    ensures var s := Run(states, actions); Bounded(s.flights, s.busy, s.launched)
  {
    if actions != [] {
      OneInFlight(states, actions[..|actions| - 1]);
      hide Bounded, Apply;
      StepBounded(Run(states, actions[..|actions| - 1]), states, actions[|actions| - 1]);
    }
  }

  // ----- Writes to a target happen in build order -------------------------------------------------

  /** Everything already given to target t was built before n. */
  ghost predicate Before(wire: seq<Write>, flights: Flights, t: TargetId, n: int) {
    && (forall i :: 0 <= i < |wire| && wire[i].target == t ==> wire[i].build < n)
    && (forall g :: g in flights && flights[g].target == t ==> flights[g].build < n)
  }

  ghost predicate WireOrdered(wire: seq<Write>) {
    forall i, j :: 0 <= i < j < |wire| && wire[i].target == wire[j].target ==> wire[i].build < wire[j].build
  }

  /** A goroutine yet to write carries something newer than all its target was sent. */
  ghost predicate Ordered(wire: seq<Write>, flights: Flights) {
    && WireOrdered(wire)
    && forall g, i :: g in flights && flights[g].stage == Launched && 0 <= i < |wire| ==>
         wire[i].target == flights[g].target ==> wire[i].build < flights[g].build
  }

  lemma LaunchOrdered(wire: seq<Write>, flights: Flights, g: Goroutine, t: TargetId, build: nat)
    requires Ordered(wire, flights) && Before(wire, flights, t, build)
    ensures Ordered(wire, flights[g := Flight(t, build, Launched)])
  {
  }

  lemma WriteOrdered(wire: seq<Write>, flights: Flights, busy: set<TargetId>, launched: nat, g: Goroutine,
                     result: SendResult)
    requires Bounded(flights, busy, launched) && Ordered(wire, flights) && g in flights && flights[g].stage == Launched
    ensures Ordered(wire + [Write(flights[g].target, flights[g].build, result)],
                    flights[g := flights[g].(stage := Written(result))])
  {
    hide Running;
  }

  lemma LeaveOrdered(wire: seq<Write>, flights: Flights, g: Goroutine)
    requires Ordered(wire, flights) && g in flights
    ensures Ordered(wire, flights - {g})
    ensures Ordered(wire, flights[g := flights[g].(stage := Recorded)])
  {
  }

  /** The targets still to be offered the newest packet, n: each once, each of the
      packet's universe, none of them given it yet. */
  ghost predicate OffersFresh(offers: seq<TargetId>, wire: seq<Write>, flights: Flights, n: int) {
    && (forall i :: 0 <= i < |offers| ==> Before(wire, flights, offers[i], n))
    && (forall i, j :: 0 <= i < j < |offers| ==> offers[i] != offers[j])
  }

  lemma LaunchFresh(offers: seq<TargetId>, wire: seq<Write>, flights: Flights, n: nat, g: Goroutine)
    requires OffersFresh(offers, wire, flights, n) && offers != []
    ensures OffersFresh(offers[1..], wire, flights, n)
    ensures OffersFresh(offers[1..], wire, flights[g := Flight(offers[0], n, Launched)], n)
  {
    forall i | 0 <= i < |offers| - 1
      ensures Before(wire, flights[g := Flight(offers[0], n, Launched)], offers[1..][i], n)
    {
      assert Before(wire, flights, offers[i + 1], n);
    }
  }

  lemma StepFresh(offers: seq<TargetId>, wire: seq<Write>, flights: Flights, n: int, g: Goroutine, stage: Stage,
                  result: SendResult)
    requires OffersFresh(offers, wire, flights, n) && g in flights
    ensures OffersFresh(offers, wire, flights - {g}, n)
    ensures OffersFresh(offers, wire, flights[g := flights[g].(stage := stage)], n)
    ensures OffersFresh(offers, wire + [Write(flights[g].target, flights[g].build, result)], flights, n)
  {
    forall i | 0 <= i < |offers|
      ensures Before(wire, flights - {g}, offers[i], n)
      ensures Before(wire, flights[g := flights[g].(stage := stage)], offers[i], n)
      ensures Before(wire + [Write(flights[g].target, flights[g].build, result)], flights, offers[i], n)
    {
      assert Before(wire, flights, offers[i], n);
    }
  }

  /** Nothing given to any target is newer than what has been built. */
  ghost predicate AllOwn(built: seq<Built>, states: States, wire: seq<Write>, flights: Flights) {
    && (forall i :: 0 <= i < |wire| ==> OwnPacket(built, states, wire[i].target, wire[i].build))
    && (forall g :: g in flights ==> OwnPacket(built, states, flights[g].target, flights[g].build))
  }

  /** The packet was built for the target's universe. */
  ghost predicate OwnPacket(built: seq<Built>, states: States, t: TargetId, build: nat) {
    Known(states, t) && build < |built| && built[build].universe == t.universe
  }

  ghost predicate OffersOwn(s: System, states: States) {
    s.offers != [] ==>
      s.built != [] && forall i :: 0 <= i < |s.offers| ==> OwnPacket(s.built, states, s.offers[i], |s.built| - 1)
  }

  ghost predicate InTickOrder(s: System, states: States) {
    && Ordered(s.wire, s.flights)
    && AllOwn(s.built, states, s.wire, s.flights)
    && OffersOwn(s, states)
    && OffersFresh(s.offers, s.wire, s.flights, |s.built| - 1)
  }

  lemma BuildInOrder(s: System, states: States, u: int, levels: Option<seq<Byte>>)
    requires InTickOrder(s, states)
    ensures InTickOrder(BuildStep(s, states, u, levels), states)
  {
    hide Wire, NextSeq, PortAddress, Ordered, SeqOf;
    var r := BuildStep(s, states, u, levels);
    if s.offers == [] && Levels512(levels) {
      var n := |s.built|;
      forall t ensures Before(s.wire, s.flights, t, n) {}
    }
  }

  lemma OfferInOrder(s: System, states: States)
    requires InTickOrder(s, states)
    ensures InTickOrder(OfferStep(s, states), states)
  {
    if s.offers != [] {
      var t, n := s.offers[0], |s.built| - 1;
      assert Before(s.wire, s.flights, t, n) && OwnPacket(s.built, states, t, n);
      LaunchOrdered(s.wire, s.flights, s.launched, t, n);
      LaunchFresh(s.offers, s.wire, s.flights, n, s.launched);
      hide Ordered, OffersFresh, Before, OwnPacket;
    }
  }

  lemma StepInOrder(s: System, states: States, a: Action)
    requires InTickOrder(s, states) && Bounded(s.flights, s.busy, s.launched)
    requires a.WriteStep? || a.RecordStep? || a.Release?
    ensures InTickOrder(Apply(s, states, a), states)
  {
    hide Ordered, OffersFresh, OwnPacket, Bounded;
    if a.g in s.flights {
      var f, n := s.flights[a.g], |s.built| - 1;
      if a.WriteStep? && f.stage == Launched {
        WriteOrdered(s.wire, s.flights, s.busy, s.launched, a.g, a.result);
        var restaged := s.flights[a.g := f.(stage := Written(a.result))];
        StepFresh(s.offers, s.wire, s.flights, n, a.g, Written(a.result), a.result);
        StepFresh(s.offers, s.wire, restaged, n, a.g, Written(a.result), a.result);
      } else {
        LeaveOrdered(s.wire, s.flights, a.g);
        StepFresh(s.offers, s.wire, s.flights, n, a.g, Recorded, None);
      }
    }
  }

  /** Under every interleaving, what is written to a target are packets of its own
      universe, each newer than the one written before. */
  lemma {:induction false} WritesInTickOrder(states: States, actions: seq<Action>)
    ensures InTickOrder(Run(states, actions), states)
  {
    if actions != [] {
      var s, a := Run(states, actions[..|actions| - 1]), actions[|actions| - 1];
      WritesInTickOrder(states, actions[..|actions| - 1]);
      OneInFlight(states, actions[..|actions| - 1]);
      hide Bounded, InTickOrder, BuildStep, OfferStep;
      match a {
        case Build(u, levels) => BuildInOrder(s, states, u, levels);
        case Offer => OfferInOrder(s, states);
        case _ => StepInOrder(s, states, a);
      }
    }
  }

  // ----- Sequence numbers ---------------------------------------------------------------------------

  function CountFor(built: seq<Built>, u: int): nat {
    if built == [] then 0
    else CountFor(built[..|built| - 1], u) + if built[|built| - 1].universe == u then 1 else 0
  }

  /** The packet carries its own number among its universe's packets. */
  ghost predicate Numbered(built: seq<Built>, i: nat)
    requires i < |built|
  {
    exists levels: seq<Byte> ::
      |levels| == 512 &&
      built[i].packet == Wire(Dmx(SeqAfter(CountFor(built[..i + 1], built[i].universe)), 0,
                                  PortAddress(built[i].universe), levels))
  }

  ghost predicate AllNumbered(seqs: map<int, Byte>, built: seq<Built>) {
    && (forall u :: SeqOf(seqs, u) == SeqAfter(CountFor(built, u)))
    && (forall i: nat :: i < |built| ==> Numbered(built, i))
  }

  lemma OthersBuildNothing(s: System, states: States, a: Action)
    requires !a.Build?
    ensures Apply(s, states, a).seqs == s.seqs && Apply(s, states, a).built == s.built
  {
  }

  lemma BuildNumbered(s: System, states: States, u: int, levels: Option<seq<Byte>>)
    requires AllNumbered(s.seqs, s.built)
    ensures var r := BuildStep(s, states, u, levels); AllNumbered(r.seqs, r.built)
  {
    hide Wire, PortAddress;
    var r := BuildStep(s, states, u, levels);
    if s.offers == [] && Levels512(levels) {
      var n := |s.built|;
      assert r.built[..n] == s.built;
      assert r.built[..n + 1] == r.built;
      forall v ensures SeqOf(r.seqs, v) == SeqAfter(CountFor(r.built, v)) {
        assert SeqOf(s.seqs, v) == SeqAfter(CountFor(s.built, v));
      }
      hide SeqAfter, CountFor;
      forall i: nat | i < |r.built| ensures Numbered(r.built, i) {
        if i < n {
          assert Numbered(s.built, i);
          assert r.built[..i + 1] == s.built[..i + 1];
        }
      }
    }
  }

  lemma {:induction false} SequencesIndependent(states: States, actions: seq<Action>)
    ensures AllNumbered(Run(states, actions).seqs, Run(states, actions).built)
  {
    if actions != [] {
      var s, a := Run(states, actions[..|actions| - 1]), actions[|actions| - 1];
      SequencesIndependent(states, actions[..|actions| - 1]);
      hide AllNumbered, BuildStep;
      if a.Build? { BuildNumbered(s, states, a.u, a.levels); } else { OthersBuildNothing(s, states, a); }
    }
  }

  lemma {:induction false} CountGrows(built: seq<Built>, i: nat)
    requires i < |built|
    ensures CountFor(built[..i + 1], built[i].universe) >= 1
  {
    assert built[..i + 1][i] == built[i];
  }

  /** The k-th packet of a universe carries sequence ((k - 1) mod 255) + 1, whatever the
      other universes and the send goroutines do. */
  lemma KthPacketSequence(states: States, actions: seq<Action>, i: nat)
    requires i < |Run(states, actions).built|
    ensures var built := Run(states, actions).built;
            var k := CountFor(built[..i + 1], built[i].universe);
            && k >= 1 && |built[i].packet| == HEADER_LENGTH + 512
            && built[i].packet[12] == (k - 1) % 255 + 1
  {
    var built := Run(states, actions).built;
    SequencesIndependent(states, actions);
    assert Numbered(built, i);
    hide Run, AllNumbered;
    var u := built[i].universe;
    var k := CountFor(built[..i + 1], u);
    CountGrows(built, i);
    KthSequence(k);
    var levels: seq<Byte> :| |levels| == 512 && built[i].packet == Wire(Dmx(SeqAfter(k), 0, PortAddress(u), levels));
    WireShape(Dmx(SeqAfter(k), 0, PortAddress(u), levels));
    assert built[i].packet[12] == built[i].packet[8..18][4];
  }
}
