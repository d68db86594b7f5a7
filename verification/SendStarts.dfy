/** Every packet of a target's universe is accounted for: sent, skipped because a send was
    still running, or still on offer. */
module SendStarts {
  import opened Prelude
  import opened Fixtures
  import opened Packet
  import opened Sends

  /** The next offer of the tick goroutine is to t. */
  predicate NextFor(s: System, t: TargetId) { s.offers != [] && s.offers[0] == t }

  /** The packets, by position in build order, that were the newest at an offer to t that
      found its busy flag down. */
  function Taken(states: States, actions: seq<Action>, t: TargetId): seq<int> {
    if actions == [] then []
    else
      var s := Run(states, actions[..|actions| - 1]);
      Taken(states, actions[..|actions| - 1], t)
      + if actions[|actions| - 1].Offer? && NextFor(s, t) && t !in s.busy then [|s.built| - 1] else []
  }

  /** The offers to t that found its busy flag up. */
  function Skipped(states: States, actions: seq<Action>, t: TargetId): nat {
    if actions == [] then 0
    else
      var s := Run(states, actions[..|actions| - 1]);
      Skipped(states, actions[..|actions| - 1], t)
      + if actions[|actions| - 1].Offer? && NextFor(s, t) && t in s.busy then 1 else 0
  }

  /** The packets written to t, in order. */
  function WrittenTo(wire: seq<Write>, t: TargetId): seq<int> {
    if wire == [] then []
    else
      var w := wire[|wire| - 1];
      WrittenTo(wire[..|wire| - 1], t) + if w.target == t then [w.build] else []
  }

  /** What was taken for t is what was written to it, and what a goroutine about to write
      carries. */
  ghost predicate Carried(taken: seq<int>, written: seq<int>, flights: Flights, t: TargetId) {
    && (forall g :: g in flights && flights[g].target == t ==>
          taken == if flights[g].stage == Launched then written + [flights[g].build] else written)
    && (!Running(flights, t) ==> taken == written)
  }

  predicate Served(states: States, t: TargetId) {
    Known(states, t) && StateOf(states, t).target.enabled && StateOf(states, t).connected
  }

  ghost predicate Accounted(s: System, t: TargetId, taken: seq<int>, skipped: nat) {
    && Carried(taken, WrittenTo(s.wire, t), s.flights, t)
    && CountFor(s.built, t.universe) == |taken| + skipped + if t in s.offers then 1 else 0
  }

  // ----- One step at a time ----------------------------------------------------------------------

  lemma WrittenOneMore(wire: seq<Write>, w: Write, t: TargetId)
    ensures WrittenTo(wire + [w], t) == WrittenTo(wire, t) + if w.target == t then [w.build] else []
  {
    assert (wire + [w])[..|wire|] == wire;
  }

  lemma BuildAccounts(s: System, states: States, u: int, levels: Option<seq<Byte>>, t: TargetId, taken: seq<int>,
                      skipped: nat)
    requires Served(states, t) && Accounted(s, t, taken, skipped)
    ensures Accounted(BuildStep(s, states, u, levels), t, taken, skipped)
  {
    hide Wire, NextSeq, SeqOf, WrittenTo, Carried;
    var r := BuildStep(s, states, u, levels);
    if s.offers == [] && Levels512(levels) {
      assert r.built[..|s.built|] == s.built;
      if t.universe == u { assert r.offers[t.index] == t; }
    }
  }

  /** An offer to an idle target launches exactly one send, of the newest packet; to a busy
      one it launches none. */
  lemma OfferStarts(s: System, states: States, t: TargetId)
    requires Served(states, t) && NextFor(s, t) && s.built != []
    ensures var r := OfferStep(s, states);
            && r.wire == s.wire && r.built == s.built && r.outcomes == s.outcomes && r.offers == s.offers[1..]
            && if t in s.busy then r.flights == s.flights && r.busy == s.busy
               else && r.flights == s.flights[s.launched := Flight(t, |s.built| - 1, Launched)]
                    && r.busy == s.busy + {t} && r.launched == s.launched + 1
  {
  }

  lemma OfferCounts(s: System, states: States, t: TargetId, taken: seq<int>, skipped: nat)
    requires InTickOrder(s, states) && Bounded(s.flights, s.busy, s.launched)
    requires Served(states, t) && Accounted(s, t, taken, skipped)
    ensures var idle, busy := NextFor(s, t) && t !in s.busy, NextFor(s, t) && t in s.busy;
            Accounted(OfferStep(s, states), t, taken + (if idle then [|s.built| - 1] else []),
                      skipped + if busy then 1 else 0)
  {
    if s.offers != [] {
      var q := s.offers[0];
      assert OwnPacket(s.built, states, q, |s.built| - 1);
      assert t in s.offers[1..] <==> t in s.offers && t != q;
      assert q !in s.busy ==> !Running(s.flights, q);
      assert taken + [] == taken;
      hide InTickOrder, WrittenTo, CountFor, NotConnected;
      OfferCarries(s, states, t, taken);
      hide OfferStep, Carried;
    }
  }

  lemma OfferCarries(s: System, states: States, t: TargetId, taken: seq<int>)
    requires Bounded(s.flights, s.busy, s.launched) && Carried(taken, WrittenTo(s.wire, t), s.flights, t)
    requires Served(states, t) && s.offers != [] && Known(states, s.offers[0]) && s.built != []
    ensures var r := OfferStep(s, states);
            && r.built == s.built && r.offers == s.offers[1..] && r.wire == s.wire
            && Carried(taken + (if NextFor(s, t) && t !in s.busy then [|s.built| - 1] else []), WrittenTo(s.wire, t),
                       r.flights, t)
  {
    hide WrittenTo, NotConnected;
    var q, n := s.offers[0], |s.built| - 1;
    assert taken + [] == taken;
    if q !in s.busy {
      assert !Running(s.flights, q);
      assert s.launched !in s.flights;
      LaunchCarries(taken, WrittenTo(s.wire, t), s.flights, s.launched, q, n, t);
    }
    hide Carried, Bounded;
  }

  lemma LaunchCarries(taken: seq<int>, written: seq<int>, flights: Flights, g: Goroutine, q: TargetId, n: nat,
                      t: TargetId)
    requires g !in flights && !Running(flights, q) && Carried(taken, written, flights, t)
    ensures Carried(taken + if q == t then [n] else [], written, flights[g := Flight(q, n, Launched)], t)
  {
    var after := flights[g := Flight(q, n, Launched)];
    assert taken + [] == taken;
    assert after[g].target == q;
    if Running(flights, t) {
      var h :| h in flights && flights[h].target == t;
      assert after[h].target == t;
    }
  }

  lemma RestageCarries(taken: seq<int>, written: seq<int>, flights: Flights, g: Goroutine, stage: Stage, t: TargetId)
    requires g in flights && Carried(taken, written, flights, t) && stage != Launched
    requires forall h :: h in flights && flights[h].target == flights[g].target ==> h == g
    ensures var f := flights[g];
            Carried(taken, written + (if f.target == t && f.stage == Launched then [f.build] else []),
                    flights[g := f.(stage := stage)], t)
  {
    var f := flights[g];
    var after := flights[g := f.(stage := stage)];
    assert written + [] == written;
    if Running(flights, t) {
      var h :| h in flights && flights[h].target == t;
      assert after[h].target == t;
    }
    assert after[g].target == f.target;
  }

  lemma LeaveCarries(taken: seq<int>, written: seq<int>, flights: Flights, g: Goroutine, t: TargetId)
    requires g in flights && Carried(taken, written, flights, t) && flights[g].stage == Recorded
    ensures Carried(taken, written, flights - {g}, t)
  {
    var after := flights - {g};
    if Running(flights, t) {
      var h :| h in flights && flights[h].target == t;
      assert h != g ==> after[h].target == t;
    }
  }

  lemma StepAccounts(s: System, states: States, a: Action, t: TargetId, taken: seq<int>, skipped: nat)
    requires Bounded(s.flights, s.busy, s.launched) && Accounted(s, t, taken, skipped)
    requires a.WriteStep? || a.RecordStep? || a.Release?
    ensures Accounted(Apply(s, states, a), t, taken, skipped)
  {
    if a.g in s.flights {
      var f, written := s.flights[a.g], WrittenTo(s.wire, t);
      assert written + [] == written;
      assert forall h :: h in s.flights && s.flights[h].target == f.target ==> h == a.g;
      hide Bounded, CountFor;
      if a.WriteStep? && f.stage == Launched {
        WrittenOneMore(s.wire, Write(f.target, f.build, a.result), t);
        RestageCarries(taken, written, s.flights, a.g, Written(a.result), t);
      } else if a.RecordStep? && f.stage.Written? {
        RestageCarries(taken, written, s.flights, a.g, Recorded, t);
      } else if a.Release? && f.stage == Recorded {
        LeaveCarries(taken, written, s.flights, a.g, t);
      }
      hide Carried, WrittenTo;
    }
  }

  /** Under every interleaving and at every moment, for a target that is enabled and
      connected: the packets built for its universe are those taken for it, those skipped
      at an offer that found its busy flag up, and the newest while that is still on offer.
      What was taken is what has been written to it, in order, and what a goroutine about
      to write carries. */
  lemma {:induction false} EveryPacketAccounted(states: States, actions: seq<Action>, t: TargetId)
    requires Served(states, t)
    ensures Accounted(Run(states, actions), t, Taken(states, actions, t), Skipped(states, actions, t))
  {
    if actions == [] {
      assert !Running(map[], t);
    } else {
      var front, a := actions[..|actions| - 1], actions[|actions| - 1];
      var s := Run(states, front);
      EveryPacketAccounted(states, front, t);
      OneInFlight(states, front);
      WritesInTickOrder(states, front);
      var taken, skipped := Taken(states, front, t), Skipped(states, front, t);
      assert taken + [] == taken;
      hide Accounted, Bounded, InTickOrder, BuildStep, OfferStep, Served, Running;
      match a {
        case Build(u, levels) => BuildAccounts(s, states, u, levels, t, taken, skipped);
        case Offer => OfferCounts(s, states, t, taken, skipped);
        case _ => StepAccounts(s, states, a, t, taken, skipped);
      }
    }
  }

  /** A launched goroutine that runs to its end writes its packet once, reports the result
      once and takes the busy flag down, and touches nothing else. */
  lemma SendCompletes(s: System, states: States, g: Goroutine, result: SendResult)
    requires g in s.flights && s.flights[g].stage == Launched
    ensures var f := s.flights[g];
            Apply(Apply(Apply(s, states, WriteStep(g, result)), states, RecordStep(g)), states, Release(g))
            == s.(flights := s.flights - {g}, busy := s.busy - {f.target},
                  wire := s.wire + [Write(f.target, f.build, result)],
                  outcomes := s.outcomes + [Outcome(f.target, result)])
  {
    var f := s.flights[g];
    var s1 := Apply(s, states, WriteStep(g, result));
    var s2 := Apply(s1, states, RecordStep(g));
    assert s1.flights[g] == f.(stage := Written(result)) && s2.flights[g] == f.(stage := Recorded);
    assert s2.flights - {g} == s.flights - {g};
  }
}
