/** Runs that show why the client theorem needs its two conditions. */
module EventCounterexamples {
  import opened Prelude
  import opened EventStream
  import opened EventDelivery
  import opened EventClients
  import Strconv

  const NOTE: Draft := Draft(0, ScriptLifecycle("run", "script", "running", ""))

  function Note(id: nat): RingEvent { Stamp(NOTE, id) }

  /** A stream with one connection, the client's. */
  function One(capacity: nat, log: seq<RingEvent>, c: Connection, client: Client): System {
    System(capacity, log, Retained(log, capacity), [c], map[0 := client])
  }

  ghost predicate Reached(capacity: nat, actions: seq<Action>, s: System, serial: bool) {
    Run(capacity, actions) == s && (serial ==> Serialised(capacity, actions))
  }

  lemma Then(capacity: nat, actions: seq<Action>, a: Action, s: System, s': System, serial: bool)
    returns (more: seq<Action>)
    requires Reached(capacity, actions, s, serial) && Apply(s, a) == s'
    requires serial && a.Publish? ==> Quiet(s)
    ensures Reached(capacity, more, s', serial)
  {
    more := actions + [a];
    assert more[..|actions|] == actions;
  }

  lemma Join(capacity: nat) returns (actions: seq<Action>)
    ensures Reached(capacity, actions,
                    One(capacity, [], Connection(0, 0, [], 0, {}, {}, true, 0),
                        Client(Some(0), 0, None, [], {}, map[0 := 0])), true)
  {
    assert Strconv.ParseInt("") == None;
    assert CatchUpFrom([], "") == CatchUp([], false);
    var s := Init(capacity);
    actions := Then(capacity, [], Connect(0), s, Apply(s, Connect(0)), true);
  }

  lemma PublishOne(capacity: nat, actions: seq<Action>, log: seq<RingEvent>, c: Connection, k: Client,
                   serial: bool) returns (more: seq<Action>)
    requires Reached(capacity, actions, One(capacity, log, c, k), serial)
    requires c.open && (serial ==> c.offers == {})
    ensures Reached(capacity, more,
                    One(capacity, log + [Note(|log| + 1)], Enlist(c, |log| + 1), k), serial)
  {
    hide Run, Serialised;
    var s := One(capacity, log, c, k);
    RetainedAppend(log, Note(|log| + 1), capacity);
    assert EnlistAll([c], |log| + 1) == [Enlist(c, |log| + 1)];
    more := Then(capacity, actions, Publish(NOTE), s, Apply(s, Publish(NOTE)), serial);
  }

  lemma OfferOne(capacity: nat, actions: seq<Action>, log: seq<RingEvent>, c: Connection, k: Client,
                 serial: bool, id: nat) returns (more: seq<Action>)
    requires Reached(capacity, actions, One(capacity, log, c, k), serial)
    requires 1 <= id <= |log| && id in c.offers
    ensures Reached(capacity, more, One(capacity, log, Offer(c, capacity, log[id - 1]), k), serial)
  {
    hide Run, Serialised;
    var s := One(capacity, log, c, k);
    var c' := Offer(c, capacity, log[id - 1]);
    assert [c][0 := c'] == [c'];
    more := Then(capacity, actions, Deliver(id, 0), s, Apply(s, Deliver(id, 0)), serial);
  }

  /** The handler sends the next message and the client reads it. */
  lemma PassOne(capacity: nat, actions: seq<Action>, log: seq<RingEvent>, c: Connection, k: Client,
                serial: bool) returns (more: seq<Action>)
    requires Reached(capacity, actions, One(capacity, log, c, k), serial)
    requires c.open && k.conn == Some(0) && k.read == c.sent < |c.queue|
    ensures Reached(capacity, more,
                    One(capacity, log, c.(sent := c.sent + 1), ReadMessage(k, c.queue[k.read])), serial)
  {
    hide Run, Serialised;
    var c', k' := c.(sent := c.sent + 1), ReadMessage(k, c.queue[k.read]);
    assert [c][0 := c'] == [c'];
    assert map[0 := k][0 := k'] == map[0 := k'];
    more := Then(capacity, actions, Send(0), One(capacity, log, c, k), One(capacity, log, c', k), serial);
    more := Then(capacity, more, Read(0), One(capacity, log, c', k), One(capacity, log, c', k'), serial);
  }

  /** Two overlapping publications can reach a channel, and so the client, in the
      wrong order: without serialised publishers the ids need not increase. */
  lemma OverlapReorders() returns (a: seq<Action>)
    ensures ClientOf(Run(2, a), 0).stretch == [Note(2), Note(1)]
  {
    hide Run, Serialised;
    var c := Connection(0, 0, [], 0, {}, {}, true, 0);
    var k := Client(Some(0), 0, None, [], {}, map[0 := 0]);
    a := Join(2);
    a := PublishOne(2, a, [], c, k, false);
    c := Enlist(c, 1);
    a := PublishOne(2, a, [] + [Note(1)], c, k, false);
    c := Enlist(c, 2);
    var log := [] + [Note(1)] + [Note(2)];
    a := OfferOne(2, a, log, c, k, false, 2);
    c := Offer(c, 2, log[1]);
    a := OfferOne(2, a, log, c, k, false, 1);
    c := Offer(c, 2, log[0]);
    assert c.queue == [Event(Note(2)), Event(Note(1))];
    a := PassOne(2, a, log, c, k, false);
    a := PassOne(2, a, log, c.(sent := 1), ReadMessage(k, c.queue[0]), false);
  }

  /** With serialised publishers and a channel of one slot, an event offered to
      the full channel is stepped over once a later one is read. */
  lemma FullChannelSkips() returns (a: seq<Action>)
    ensures Serialised(1, a)
    ensures ClientOf(Run(1, a), 0).stretch == [Note(1), Note(3)]
    ensures ClientOf(Run(1, a), 0).skipped == {2}
  {
    hide Run, Serialised;
    var c := Connection(0, 0, [], 0, {}, {}, true, 0);
    var k := Client(Some(0), 0, None, [], {}, map[0 := 0]);
    var log := [];
    a := Join(1);
    a := PublishOne(1, a, log, c, k, true);
    log := log + [Note(1)];
    a := OfferOne(1, a, log, Enlist(c, 1), k, true, 1);
    c := c.(queue := [Event(Note(1))]);
    assert Offer(Enlist(Connection(0, 0, [], 0, {}, {}, true, 0), 1), 1, Note(1)) == c;
    a := PublishOne(1, a, log, c, k, true);
    log := log + [Note(2)];
    a := OfferOne(1, a, log, Enlist(c, 2), k, true, 2);
    assert Offer(Enlist(c, 2), 1, Note(2)) == c.(dropped := {2});
    c := c.(dropped := {2});
    a := PassOne(1, a, log, c, k, true);
    c, k := c.(sent := 1), ReadMessage(k, Event(Note(1)));
    a := PublishOne(1, a, log, c, k, true);
    log := log + [Note(3)];
    a := OfferOne(1, a, log, Enlist(c, 3), k, true, 3);
    c := Offer(Enlist(c, 3), 1, Note(3));
    assert c.queue == [Event(Note(1)), Event(Note(3))];
    a := PassOne(1, a, log, c, k, true);
    assert Between(1, 3) == {2};
  }
}
