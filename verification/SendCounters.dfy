/** A target's counters in the health object against its dials, offers and writes. */
module SendCounters {
  import opened Prelude
  import opened Sequences
  import opened Targets
  import opened Sends
  import opened SendOutcomes
  import H = Health
  import W = Worker
  import D = Daemon

  /** Outcomes of one kind for a key among some events. */
  function Matches(events: seq<H.Event>, key: Key, failed: bool): nat {
    if events == [] then 0
    else
      var e := events[|events| - 1];
      Matches(events[..|events| - 1], key, failed)
      + if e.Outcome? && KeyOf(e.from.target) == key && e.error.Some? == failed then 1 else 0
  }

  lemma {:induction false} MatchesSum(some: seq<H.Event>, more: seq<H.Event>, key: Key, failed: bool)
    ensures Matches(some + more, key, failed) == Matches(some, key, failed) + Matches(more, key, failed)
  {
    if more == [] {
      assert some + more == some;
    } else {
      MatchesSum(some, more[..|more| - 1], key, failed);
      assert (some + more)[..|some + more| - 1] == some + more[..|more| - 1];
    }
  }

  // ----- Events of several sources, interleaved --------------------------------------------------

  /** An event that reaches the health object, and whether it is one of this worker's. */
  datatype Arrival = Arrival(own: bool, event: H.Event)

  function EventsOf(arrivals: seq<Arrival>): seq<H.Event> {
    if arrivals == [] then [] else EventsOf(arrivals[..|arrivals| - 1]) + [arrivals[|arrivals| - 1].event]
  }

  function Part(arrivals: seq<Arrival>, own: bool): seq<H.Event> {
    if arrivals == [] then []
    else
      var a := arrivals[|arrivals| - 1];
      Part(arrivals[..|arrivals| - 1], own) + if a.own == own then [a.event] else []
  }

  /** Every reconfiguration among the events lists the key. */
  ghost predicate StaysListed(arrivals: seq<Arrival>, key: Key) {
    forall i :: 0 <= i < |arrivals| && arrivals[i].event.Configure? ==> key in H.ListedKeys(arrivals[i].event.listed)
  }

  function One(e: H.Event, key: Key, failed: bool): nat {
    if e.Outcome? && KeyOf(e.from.target) == key && e.error.Some? == failed then 1 else 0
  }

  lemma MatchesOneMore(events: seq<H.Event>, e: H.Event, key: Key, failed: bool)
    ensures Matches(events + [e], key, failed) == Matches(events, key, failed) + One(e, key, failed)
  {
    assert (events + [e])[..|events|] == events;
  }

  lemma TallyOneMore(events: seq<H.Event>, e: H.Event, key: Key, failed: bool)
    requires H.Listening(events, key) && (e.Configure? ==> key in H.ListedKeys(e.listed))
    ensures H.Listening(events + [e], key)
    ensures H.Tally(events + [e], key, failed) == H.Tally(events, key, failed) + One(e, key, failed)
  {
    hide H.ListedKeys, KeyOf;
    assert (events + [e])[..|events|] == events;
  }

  lemma PartsOneMore(arrivals: seq<Arrival>, key: Key, failed: bool)
    requires arrivals != []
    ensures var front, a := arrivals[..|arrivals| - 1], arrivals[|arrivals| - 1];
            Matches(Part(arrivals, true), key, failed) + Matches(Part(arrivals, false), key, failed)
            == Matches(Part(front, true), key, failed) + Matches(Part(front, false), key, failed)
               + One(a.event, key, failed)
  {
    hide One, Matches;
    var front, a := arrivals[..|arrivals| - 1], arrivals[|arrivals| - 1];
    MatchesOneMore(Part(front, a.own), a.event, key, failed);
    assert Part(arrivals, !a.own) == Part(front, !a.own);
    assert Part(arrivals, a.own) == Part(front, a.own) + [a.event];
  }

  /** While a key is listed every outcome for it counts, whoever sent it. */
  lemma {:induction false} ListedOutcomesCount(before: seq<H.Event>, arrivals: seq<Arrival>, key: Key, failed: bool)
    requires H.Listening(before, key) && StaysListed(arrivals, key)
    ensures H.Listening(before + EventsOf(arrivals), key)
    ensures H.Tally(before + EventsOf(arrivals), key, failed)
            == H.Tally(before, key, failed) + Matches(Part(arrivals, true), key, failed)
               + Matches(Part(arrivals, false), key, failed)
  {
    if arrivals == [] {
      assert before + EventsOf(arrivals) == before;
    } else {
      var front, a := arrivals[..|arrivals| - 1], arrivals[|arrivals| - 1];
      ListedOutcomesCount(before, front, key, failed);
      assert before + EventsOf(arrivals) == before + EventsOf(front) + [a.event];
      hide One, Matches, H.Tally, H.Listening, H.ListedKeys, Part;
      TallyOneMore(before + EventsOf(front), a.event, key, failed);
      PartsOneMore(arrivals, key, failed);
    }
  }

  // ----- What one target's own events come to -----------------------------------------------------

  function ResultsOf(results: seq<SendResult>, failed: bool): nat {
    if results == [] then 0
    else ResultsOf(results[..|results| - 1], failed) + if results[|results| - 1].Some? == failed then 1 else 0
  }

  /** The calls of `RecordSend` that hand the outcomes over. */
  function Handing(outcomes: seq<Outcome>, m: TargetMap): seq<H.Event>
    requires forall i :: 0 <= i < |outcomes| ==> outcomes[i].target.index < |ListOf(m, outcomes[i].target.universe)|
  {
    seq(|outcomes|, i requires 0 <= i < |outcomes| =>
      var t := outcomes[i].target;
      H.Outcome(H.Listed(t.universe, ListOf(m, t.universe)[t.index]), outcomes[i].result))
  }

  /** No other target of the map has t's key. */
  ghost predicate OwnKey(m: TargetMap, t: TargetId)
    requires t.index < |ListOf(m, t.universe)|
  {
    forall u, i :: 0 <= i < |ListOf(m, u)| && KeyOf(ListOf(m, u)[i]) == KeyOf(ListOf(m, t.universe)[t.index]) ==>
      TargetId(u, i) == t
  }

  /** In a daemon's map every target has its own key. */
  lemma DaemonKeysOwn(requests: seq<D.Request>, parseIp: string -> Option<Address>, t: TargetId)
    requires t.index < |ListOf(D.Run(requests, parseIp), t.universe)|
    ensures OwnKey(D.Run(requests, parseIp), t)
  {
    D.RunProper(requests, parseIp);
    var m: TargetMap := D.Run(requests, parseIp);
    hide D.Run;
    var x := ListOf(m, t.universe)[t.index];
    assert x.universe == t.universe;
    forall u, i | 0 <= i < |ListOf(m, u)| && KeyOf(ListOf(m, u)[i]) == KeyOf(x) ensures TargetId(u, i) == t {
      assert ListOf(m, u)[i].universe == u;
    }
  }

  lemma {:induction false} HandingMatches(outcomes: seq<Outcome>, m: TargetMap, t: TargetId, failed: bool)
    requires forall i :: 0 <= i < |outcomes| ==> outcomes[i].target.index < |ListOf(m, outcomes[i].target.universe)|
    requires t.index < |ListOf(m, t.universe)| && OwnKey(m, t)
    ensures Matches(Handing(outcomes, m), KeyOf(ListOf(m, t.universe)[t.index]), failed)
            == ResultsOf(OutcomesOf(outcomes, t), failed)
  {
    if outcomes != [] {
      var front, o := outcomes[..|outcomes| - 1], outcomes[|outcomes| - 1];
      HandingMatches(front, m, t, failed);
      var e := H.Outcome(H.Listed(o.target.universe, ListOf(m, o.target.universe)[o.target.index]), o.result);
      assert Handing(outcomes, m) == Handing(front, m) + [e];
      hide Handing, Matches, KeyOf;
      MatchesOneMore(Handing(front, m), e, KeyOf(ListOf(m, t.universe)[t.index]), failed);
      var got := OutcomesOf(outcomes, t);
      if o.target == t {
        assert got[..|got| - 1] == OutcomesOf(front, t);
      } else {
        assert TargetId(o.target.universe, o.target.index) == o.target;
        assert got == OutcomesOf(front, t);
      }
    }
  }

  lemma {:induction false} DialListMatches(u: int, ts: seq<Target>, dial: W.Dial, key: Key, i: int, failed: bool)
    requires forall j :: 0 <= j < |ts| ==> (KeyOf(ts[j]) == key <==> j == i)
    ensures Matches(W.DialEventsOf(u, ts, dial), key, failed)
            == if failed && 0 <= i < |ts| && dial(u, ts[i]).Some? then 1 else 0
  {
    if ts != [] {
      var front, t := ts[..|ts| - 1], ts[|ts| - 1];
      DialListMatches(u, front, dial, key, i, failed);
      var reports := W.DialEventsOf(u, front, dial);
      assert reports + [] == reports;
      MatchesOneMore(reports, H.Outcome(H.Listed(u, t), dial(u, t)), key, failed);
    }
  }

  /** The dials of a start report one failure for a target whose dial fails. */
  lemma {:induction false} DialMatches(m: TargetMap, universes: seq<int>, dial: W.Dial, t: TargetId, failed: bool)
    requires t.index < |ListOf(m, t.universe)| && OwnKey(m, t) && NoRepeats(universes)
    ensures var x := ListOf(m, t.universe)[t.index];
            Matches(W.DialEvents(m, universes, dial), KeyOf(x), failed)
            == if failed && t.universe in universes && dial(t.universe, x).Some? then 1 else 0
  {
    if universes != [] {
      var front, u := universes[..|universes| - 1], universes[|universes| - 1];
      DialMatches(m, front, dial, t, failed);
      var key := KeyOf(ListOf(m, t.universe)[t.index]);
      MatchesSum(W.DialEvents(m, front, dial), W.DialEventsOf(u, ListOf(m, u), dial), key, failed);
      forall j | 0 <= j < |ListOf(m, u)|
        ensures KeyOf(ListOf(m, u)[j]) == key <==> j == if u == t.universe then t.index else -1
      {
        if KeyOf(ListOf(m, u)[j]) == key { assert TargetId(u, j) == t; }
      }
      DialListMatches(u, ListOf(m, u), dial, key, if u == t.universe then t.index else -1, failed);
      assert u !in front;
      assert t.universe in universes <==> t.universe in front || t.universe == u;
    }
  }

  // ----- The whole account ---------------------------------------------------------------------------

  lemma StateIs(states: States, m: TargetMap, t: TargetId)
    requires W.StatesMatch(states, m)
    ensures Known(states, t) <==> t.index < |ListOf(m, t.universe)|
    ensures Known(states, t) ==> StateOf(states, t).target == ListOf(m, t.universe)[t.index]
    ensures Known(states, t) ==> StateOf(states, t).universe == t.universe
  {
    assert W.StatesMatchList(StatesOf(states, t.universe), t.universe, ListOf(m, t.universe));
  }

  /** Outcomes come from the worker's own targets only. */
  ghost predicate KnownOutcomes(outcomes: seq<Outcome>, states: States) {
    forall i :: 0 <= i < |outcomes| ==> Known(states, outcomes[i].target)
  }

  lemma {:induction false} OutcomesKnown(states: States, actions: seq<Action>)
    ensures KnownOutcomes(Run(states, actions).outcomes, states)
  {
    if actions != [] {
      var front, a := actions[..|actions| - 1], actions[|actions| - 1];
      OutcomesKnown(states, front);
      WritesInTickOrder(states, front);
      var s := Run(states, front);
      hide NotConnected, Known, InTickOrder;
      if a.RecordStep? && a.g in s.flights {
        assert OwnPacket(s.built, states, s.flights[a.g].target, s.flights[a.g].build);

      }
    }
  }

  lemma {:induction false} SameResults(results: seq<SendResult>, failed: bool, value: SendResult)
    requires forall i :: 0 <= i < |results| ==> results[i] == value
    ensures ResultsOf(results, failed) == if value.Some? == failed then |results| else 0
  {
    if results != [] { SameResults(results[..|results| - 1], failed, value); }
  }

  lemma ResultsOneMore(results: seq<SendResult>, r: SendResult, failed: bool)
    ensures ResultsOf(results + [r], failed) == ResultsOf(results, failed) + if r.Some? == failed then 1 else 0
  {
    assert (results + [r])[..|results|] == results;
  }

  /** A write of this kind to t is finished and not recorded yet. */
  ghost predicate Owed(flights: Flights, t: TargetId, failed: bool) {
    exists g :: g in flights && flights[g].target == t && flights[g].stage.Written?
                && flights[g].stage.result.Some? == failed
  }

  /** What target t has reported of one kind since its worker started: its failed dial; then
      nothing if it is disabled, one failure for each packet offered if it is not connected,
      and otherwise its recorded writes. */
  ghost function Reported(s: System, states: States, t: TargetId, failed: bool): int
    requires Known(states, t)
  {
    var x := StateOf(states, t);
    (if failed && !x.connected then 1 else 0)
    + (if !x.target.enabled then 0
       else if !x.connected then
         (if failed then CountFor(s.built, t.universe) - (if t in s.offers then 1 else 0) else 0)
       else ResultsOf(WritesOf(s.wire, t), failed) - (if Owed(s.flights, t, failed) then 1 else 0))
  }

  lemma SettledCounts(got: seq<SendResult>, sent: seq<SendResult>, s: System, t: TargetId, failed: bool)
    requires Settled(got, sent, s.flights, t) && Bounded(s.flights, s.busy, s.launched)
    ensures ResultsOf(got, failed) == ResultsOf(sent, failed) - if Owed(s.flights, t, failed) then 1 else 0
  {
    if Running(s.flights, t) {
      var g :| g in s.flights && s.flights[g].target == t;
      if s.flights[g].stage.Written? { ResultsOneMore(got, s.flights[g].stage.result, failed); }
    }
  }

  lemma HandedCounts(states: States, actions: seq<Action>, t: TargetId, failed: bool)
    requires Known(states, t)
    ensures var s := Run(states, actions);
            ResultsOf(OutcomesOf(s.outcomes, t), failed)
            + (if failed && !StateOf(states, t).connected then 1 else 0) == Reported(s, states, t, failed)
  {
    OneOutcomeEach(states, actions, t);
    OneInFlight(states, actions);
    var s, x := Run(states, actions), StateOf(states, t);
    var got, sent := OutcomesOf(s.outcomes, t), WritesOf(s.wire, t);
    hide Run, Bounded, Settled, OutcomesOf, WritesOf;
    if x.target.enabled && !x.connected { SameResults(got, failed, NotConnected(x.target)); }
    if x.target.enabled && x.connected { SettledCounts(got, sent, s, t, failed); }
  }

  /** The events a worker sends: its failed dials, then the outcomes of its sends. */
  ghost function OwnEvents(m: TargetMap, universes: seq<int>, dial: W.Dial, states: States, actions: seq<Action>)
    : seq<H.Event>
    requires W.StatesMatch(states, m)
  {
    OutcomesKnown(states, actions);
    assert forall i :: 0 <= i < |Run(states, actions).outcomes| ==>
             var t := Run(states, actions).outcomes[i].target; t.index < |ListOf(m, t.universe)| by {
      forall t: TargetId ensures Known(states, t) <==> t.index < |ListOf(m, t.universe)| { StateIs(states, m, t); }
    }
    W.DialEvents(m, universes, dial) + Handing(Run(states, actions).outcomes, m)
  }

  /** Whatever the health object heard before, whatever reaches it from others in between,
      and however the worker's goroutines interleave: as long as a target's key stays listed,
      each of its counters has grown by exactly what the target reported and what others
      reported under its key. */
  lemma CountersAccountForSends(before: seq<H.Event>, m: TargetMap, listing: seq<int>, universes: seq<int>,
                                dial: W.Dial, states: States, actions: seq<Action>, arrivals: seq<Arrival>,
                                t: TargetId, failed: bool)
    requires H.Walks(listing, m.Keys) && H.Walks(universes, m.Keys)
    requires W.StatesMatch(states, m) && W.Dialled(states, dial)
    requires t.index < |ListOf(m, t.universe)| && OwnKey(m, t)
    requires Part(arrivals, true) == OwnEvents(m, universes, dial, states, actions)
    requires StaysListed(arrivals, KeyOf(ListOf(m, t.universe)[t.index]))
    ensures Known(states, t)
    ensures var key := KeyOf(ListOf(m, t.universe)[t.index]);
            H.Count(H.Run(before + [H.Configure(H.Listings(m, listing))] + EventsOf(arrivals)), key, failed)
            == H.Count(H.Run(before), key, failed) + Reported(Run(states, actions), states, t, failed)
               + Matches(Part(arrivals, false), key, failed)
  {
    var key, start := KeyOf(ListOf(m, t.universe)[t.index]), before + [H.Configure(H.Listings(m, listing))];
    StateIs(states, m, t);
    ListedHere(before, m, listing, t, failed);
    hide Handing;
    ListedOutcomesCount(start, arrivals, key, failed);
    H.CountersFaithful(before, key);
    H.CountersFaithful(start + EventsOf(arrivals), key);
    OwnMatches(m, universes, dial, states, actions, t, failed);
    hide H.Run, Run, Reported, H.Tally, H.Listening, EventsOf, Part, Matches, OwnEvents;
  }

  lemma ListedHere(before: seq<H.Event>, m: TargetMap, listing: seq<int>, t: TargetId, failed: bool)
    requires H.Walks(listing, m.Keys) && t.index < |ListOf(m, t.universe)|
    ensures var key, start := KeyOf(ListOf(m, t.universe)[t.index]), before + [H.Configure(H.Listings(m, listing))];
            H.Listening(start, key) && H.Tally(start, key, failed) == H.Tally(before, key, failed)
  {
    var key, start := KeyOf(ListOf(m, t.universe)[t.index]), before + [H.Configure(H.Listings(m, listing))];
    assert start[..|start| - 1] == before;
    H.ListingKeys(m, listing);
    assert key in H.AllKeys(m) by { assert t.universe in m.Keys; }
    hide H.Listings, H.ListedKeys, H.AllKeys;
  }

  lemma OwnMatches(m: TargetMap, universes: seq<int>, dial: W.Dial, states: States, actions: seq<Action>, t: TargetId,
                   failed: bool)
    requires H.Walks(universes, m.Keys) && W.StatesMatch(states, m) && W.Dialled(states, dial)
    requires t.index < |ListOf(m, t.universe)| && OwnKey(m, t) && Known(states, t)
    ensures Matches(OwnEvents(m, universes, dial, states, actions), KeyOf(ListOf(m, t.universe)[t.index]), failed)
            == Reported(Run(states, actions), states, t, failed)
  {
    var key := KeyOf(ListOf(m, t.universe)[t.index]);
    OutcomesKnown(states, actions);
    forall q: TargetId ensures Known(states, q) <==> q.index < |ListOf(m, q.universe)| { StateIs(states, m, q); }
    StateIs(states, m, t);
    var outcomes := Run(states, actions).outcomes;
    assert t.universe in m.Keys && t.universe in universes;
    assert W.DialledList(StatesOf(states, t.universe), dial);
    hide Matches, Handing;
    MatchesSum(W.DialEvents(m, universes, dial), Handing(outcomes, m), key, failed);
    DialMatches(m, universes, dial, t, failed);
    HandingMatches(outcomes, m, t, failed);
    HandedCounts(states, actions, t, failed);
    hide Run, Reported, ResultsOf, OutcomesOf, W.DialEvents;
  }
}
