/** Event delivery as a step system: the locked step of `publish`, its unlocked
    per-subscriber sends, subscriptions, the connection handlers and the
    clients interleave in every order.  A run is any list of actions; an action
    that is not enabled leaves the system as it is. */
module EventDelivery {
  import opened Prelude
  import opened EventStream
  import Strconv

  datatype Message = Resync | Event(e: RingEvent)

  function IdOf(m: Message): nat {
    match m case Resync => 0 case Event(e) => e.id
  }

  function Wrap(events: seq<RingEvent>): (ms: seq<Message>)
    ensures |ms| == |events|
    ensures forall i :: 0 <= i < |ms| ==> ms[i] == Event(events[i])
  {
    seq(|events|, i requires 0 <= i < |events| => Event(events[i]))
  }

  /** One open stream.  `queue[..lead]` is the replay or the resync notice; the
      rest is every live event its channel has accepted, oldest first.  The
      handler has sent `queue[..sent]`.  `offers` holds the ids of publications
      that took this channel into their list and have not yet tried to send to
      it.  Ids up to `base` were published before the subscription; ids above
      `top` after a closed one ended. */
  datatype Connection = Connection(base: nat, lead: nat, queue: seq<Message>, sent: nat,
                                   offers: set<nat>, dropped: set<nat>, open: bool, top: nat)
  {
    /** How many events sit in the channel. */
    function Waiting(): int {
      |queue| - if sent < lead then lead else sent
    }

    /** Ids accepted by the channel. */
    function LiveIds(): set<nat> {
      set k | lead <= k < |queue| :: IdOf(queue[k])
    }
  }

  /** A client remembers the last id it read and echoes it when it reconnects.
      `stretch` is what it has read since the last resync; `skipped` records
      the ids it stepped over inside that stretch, and `seen` how many messages
      it has read on each connection it ever opened. */
  datatype Client = Client(conn: Option<nat>, read: nat, lastId: Option<nat>,
                           stretch: seq<RingEvent>, skipped: set<nat>, seen: map<nat, nat>)

  datatype System = System(capacity: nat, log: seq<RingEvent>, buffer: seq<RingEvent>,
                           conns: seq<Connection>, clients: map<nat, Client>)

  datatype Action =
    | Publish(draft: Draft)
    | Deliver(id: nat, conn: nat)
    | Open(lastEventId: string)
    | Connect(client: nat)
    | Send(conn: nat)
    | Close(conn: nat)
    | Read(client: nat)
    | Disconnect(client: nat)

  function Init(capacity: nat): System {
    System(capacity, [], [], [], map[])
  }

  /** Taken into the list of channels of publication `id` if subscribed. */
  function Enlist(c: Connection, id: nat): Connection {
    if c.open then c.(offers := c.offers + {id}) else c
  }

  function EnlistAll(conns: seq<Connection>, id: nat): (r: seq<Connection>)
    ensures |r| == |conns|
    ensures forall i :: 0 <= i < |conns| ==> r[i] == Enlist(conns[i], id)
  {
    seq(|conns|, i requires 0 <= i < |conns| => Enlist(conns[i], id))
  }

  /** A non-blocking send: a full channel drops the event. */
  function Offer(c: Connection, capacity: nat, e: RingEvent): Connection {
    var d := c.(offers := c.offers - {e.id});
    if c.Waiting() < capacity then d.(queue := c.queue + [Event(e)])
    else d.(dropped := c.dropped + {e.id})
  }

  function NewConnection(s: System, lastEventId: string): Connection {
    var c := CatchUpFrom(s.buffer, lastEventId);
    var lead := if c.resync then [Resync] else Wrap(c.replay);
    Connection(|s.log|, |lead|, lead, 0, {}, {}, true, 0)
  }

  function ClientOf(s: System, k: nat): Client {
    if k in s.clients then s.clients[k] else Client(None, 0, None, [], {}, map[])
  }

  function LastEventIdHeader(c: Client): string {
    match c.lastId case None => "" case Some(n) => Strconv.FormatInt(n)
  }

  /** The ids strictly between two ids. */
  function Between(a: nat, b: nat): (ids: set<nat>)
    ensures forall x :: x in ids <==> a < x < b
    decreases b
  {
    if b <= a + 1 then {} else Between(a, b - 1) + {b - 1}
  }

  function Gap(stretch: seq<RingEvent>, e: RingEvent): set<nat> {
    if stretch == [] then {} else Between(stretch[|stretch| - 1].id, e.id)
  }

  function ReadMessage(c: Client, m: Message): Client {
    var seen := if c.conn.Some? then c.seen[c.conn.value := c.read + 1] else c.seen;
    match m
    case Resync => c.(read := c.read + 1, stretch := [], skipped := {}, seen := seen)
    case Event(e) =>
      c.(read := c.read + 1, lastId := Some(e.id), stretch := c.stretch + [e],
         skipped := c.skipped + Gap(c.stretch, e), seen := seen)
  }

  function Apply(s: System, a: Action): System {
    match a
    case Publish(draft) =>
      var e := Stamp(draft, |s.log| + 1);
      s.(log := s.log + [e], buffer := Retained(s.buffer + [e], s.capacity),
         conns := EnlistAll(s.conns, e.id))
    case Deliver(id, i) =>
      if i < |s.conns| && id in s.conns[i].offers && 1 <= id <= |s.log|
      then s.(conns := s.conns[i := Offer(s.conns[i], s.capacity, s.log[id - 1])])
      else s
    case Open(lastEventId) => s.(conns := s.conns + [NewConnection(s, lastEventId)])
    case Connect(k) =>
      var c := ClientOf(s, k);
      s.(conns := s.conns + [NewConnection(s, LastEventIdHeader(c))],
         clients := s.clients[k := c.(conn := Some(|s.conns|), read := 0, seen := c.seen[|s.conns| := 0])])
    case Send(i) =>
      if i < |s.conns| && s.conns[i].open && s.conns[i].sent < |s.conns[i].queue|
      then s.(conns := s.conns[i := s.conns[i].(sent := s.conns[i].sent + 1)])
      else s
    case Close(i) =>
      if i < |s.conns| && s.conns[i].open
      then s.(conns := s.conns[i := s.conns[i].(open := false, top := |s.log|)])
      else s
    case Read(k) =>
      var c := ClientOf(s, k);
      if c.conn.Some? && c.conn.value < |s.conns|
         && c.read < s.conns[c.conn.value].sent
         && c.read < |s.conns[c.conn.value].queue|
      then s.(clients := s.clients[k := ReadMessage(c, s.conns[c.conn.value].queue[c.read])])
      else s
    case Disconnect(k) =>
      s.(clients := s.clients[k := ClientOf(s, k).(conn := None)])
  }

  function Run(capacity: nat, actions: seq<Action>): System {
    if actions == [] then Init(capacity)
    else Apply(Run(capacity, actions[..|actions| - 1]), actions[|actions| - 1])
  }

  // ----- What every interleaving keeps --------------------------------------

  /** The last id that concerns a connection. */
  function Top(log: seq<RingEvent>, c: Connection): nat {
    if c.open then |log| else c.top
  }

  /** The lead is a resync notice or the run of events just before `base`. */
  ghost predicate LeadOk(log: seq<RingEvent>, c: Connection) {
    && c.lead <= |c.queue|
    && c.base <= |log|
    && (|| (c.lead == 1 && c.queue[0] == Resync)
        || (c.lead <= c.base && c.queue[..c.lead] == Wrap(log[c.base - c.lead..c.base])))
  }

  /** The live part holds distinct events of the log from after `base`. */
  ghost predicate LiveOk(log: seq<RingEvent>, c: Connection, top: nat) {
    && top <= |log|
    && (forall k {:trigger c.queue[k]} :: c.lead <= k < |c.queue| ==>
          var id := IdOf(c.queue[k]);
          c.base < id <= top && c.queue[k] == Event(log[id - 1]))
    && forall j, k {:trigger c.queue[j], c.queue[k]} :: c.lead <= j < k < |c.queue| ==>
         IdOf(c.queue[j]) != IdOf(c.queue[k])
  }

  function Count(b: bool): nat { if b then 1 else 0 }

  /** An event that concerns a connection is in exactly one place: accepted by
      its channel, dropped, or still to be offered to it.  Any other is in none. */
  ghost predicate Placed(c: Connection, top: nat, id: nat) {
    Count(id in c.LiveIds()) + Count(id in c.dropped) + Count(id in c.offers)
    == Count(c.base < id <= top)
  }

  ghost predicate ConnOk(log: seq<RingEvent>, c: Connection) {
    && c.sent <= |c.queue| && c.lead <= |c.queue|
    && c.base <= Top(log, c)
    && LeadOk(log, c)
    && LiveOk(log, c, Top(log, c))
    && forall id :: Placed(c, Top(log, c), id)
  }

  ghost predicate Inv(s: System) {
    && s.capacity >= 1
    && Consecutive(s.log)
    && s.buffer == Retained(s.log, s.capacity)
    && forall i :: 0 <= i < |s.conns| ==> ConnOk(s.log, s.conns[i])
  }

  lemma LiveIdsAppend(c: Connection, m: Message)
    requires c.lead <= |c.queue|
    ensures c.(queue := c.queue + [m]).LiveIds() == c.LiveIds() + {IdOf(m)}
  {
    var d := c.(queue := c.queue + [m]);
    forall id | id in d.LiveIds() ensures id in c.LiveIds() + {IdOf(m)} {
      var k :| d.lead <= k < |d.queue| && IdOf(d.queue[k]) == id;
      if k < |c.queue| { assert c.queue[k] == d.queue[k]; }
    }
    forall id | id in c.LiveIds() + {IdOf(m)} ensures id in d.LiveIds() {
      if id in c.LiveIds() {
        var k :| c.lead <= k < |c.queue| && IdOf(c.queue[k]) == id;
        assert d.queue[k] == c.queue[k];
      } else {
        assert IdOf(d.queue[|c.queue|]) == id;
      }
    }
  }

  /** Connections with the same queue have accepted the same ids. */
  lemma SameLive(c: Connection, c': Connection)
    requires c'.queue == c.queue && c'.lead == c.lead
    ensures c'.LiveIds() == c.LiveIds()
  {
  }

  lemma LiveInRange(log: seq<RingEvent>, c: Connection, top: nat)
    requires LiveOk(log, c, top)
    ensures forall id :: id in c.LiveIds() ==> c.base < id <= top
  {
  }

  lemma EnlistKeepsPlaces(log: seq<RingEvent>, e: RingEvent, c: Connection, id: nat)
    requires ConnOk(log, c) && e.id == |log| + 1
    ensures Placed(Enlist(c, e.id), Top(log + [e], Enlist(c, e.id)), id)
  {
    SameLive(c, Enlist(c, e.id));
    LiveInRange(log, c, Top(log, c));
    assert Placed(c, Top(log, c), id);
  }

  lemma PublishKeepsConn(log: seq<RingEvent>, e: RingEvent, c: Connection)
    requires ConnOk(log, c) && e.id == |log| + 1
    ensures ConnOk(log + [e], Enlist(c, e.id))
  {
    hide Placed;
    forall id ensures Placed(Enlist(c, e.id), Top(log + [e], Enlist(c, e.id)), id) {
      EnlistKeepsPlaces(log, e, c, id);
    }
    if !(c.lead == 1 && c.queue[0] == Resync) {
      assert (log + [e])[c.base - c.lead..c.base] == log[c.base - c.lead..c.base];
    }
  }

  lemma AcceptKeepsLive(log: seq<RingEvent>, c: Connection, top: nat, id: nat)
    requires Consecutive(log) && c.lead <= |c.queue| && LiveOk(log, c, top)
    requires c.base < id <= top && id !in c.LiveIds()
    ensures LiveOk(log, c.(queue := c.queue + [Event(log[id - 1])]), top)
  {
    var c' := c.(queue := c.queue + [Event(log[id - 1])]);
    forall k | c.lead <= k < |c.queue| ensures IdOf(c'.queue[k]) != id {
      assert c'.queue[k] == c.queue[k];
      assert IdOf(c.queue[k]) in c.LiveIds();
    }
  }

  lemma OfferKeepsPlaces(c: Connection, capacity: nat, e: RingEvent, top: nat, id: nat)
    requires c.lead <= |c.queue| && e.id in c.offers
    requires Placed(c, top, id)
    ensures Placed(Offer(c, capacity, e), top, id)
  {
    var d := c.(offers := c.offers - {e.id});
    SameLive(c, d);
    if c.Waiting() < capacity {
      LiveIdsAppend(d, Event(e));
    } else {
      SameLive(c, Offer(c, capacity, e));
    }
  }

  lemma LeadKept(log: seq<RingEvent>, c: Connection, c': Connection)
    requires LeadOk(log, c) && c'.base == c.base && c'.lead == c.lead && c.queue <= c'.queue
    ensures LeadOk(log, c')
  {
    assert c'.queue[..c'.lead] == c.queue[..c.lead];
  }

  lemma OfferKeepsLive(log: seq<RingEvent>, c: Connection, capacity: nat, id: nat, top: nat)
    requires Consecutive(log) && c.lead <= |c.queue| && LiveOk(log, c, top)
    requires 1 <= id <= |log| && id in c.offers && Placed(c, top, id)
    ensures LiveOk(log, Offer(c, capacity, log[id - 1]), top)
  {
    assert c.base < id <= top && id !in c.LiveIds();
    hide Placed;
    if c.Waiting() < capacity { AcceptKeepsLive(log, c, top, id); }
  }

  lemma OfferKeepsConn(log: seq<RingEvent>, c: Connection, capacity: nat, id: nat)
    requires Consecutive(log) && ConnOk(log, c) && id in c.offers && 1 <= id <= |log|
    ensures ConnOk(log, Offer(c, capacity, log[id - 1]))
  {
    hide Placed, LiveOk, LeadOk;
    var c' := Offer(c, capacity, log[id - 1]);
    LeadKept(log, c, c');
    OfferKeepsLive(log, c, capacity, id, Top(log, c));
    forall x ensures Placed(c', Top(log, c), x) {
      OfferKeepsPlaces(c, capacity, log[id - 1], Top(log, c), x);
    }
  }

  /** A change that leaves the events of a connection where they are. */
  lemma TouchKeepsConn(log: seq<RingEvent>, c: Connection, c': Connection)
    requires ConnOk(log, c) && c.open
    requires c' == c.(sent := c'.sent, open := c'.open, top := c'.top)
    requires (c'.sent == c.sent || c'.sent <= |c'.queue|) && (c'.open || c'.top == |log|)
    ensures ConnOk(log, c')
  {
    SameLive(c, c');
    forall id ensures Placed(c', Top(log, c'), id) { assert Placed(c, Top(log, c), id); }
  }

  lemma FreshPlaces(c: Connection, id: nat)
    requires |c.queue| == c.lead && c.offers == {} && c.dropped == {}
    ensures Placed(c, c.base, id)
  {
    assert c.LiveIds() == {};
  }

  lemma NewConnectionOk(s: System, lastEventId: string)
    requires s.capacity >= 1 && Consecutive(s.log) && s.buffer == Retained(s.log, s.capacity)
    ensures ConnOk(s.log, NewConnection(s, lastEventId))
    ensures var c := NewConnection(s, lastEventId); |c.queue| == c.lead
  {
    hide Placed, CatchUpFrom;
    CatchUpIsRecent(s.log, s.capacity, lastEventId);
    var c := NewConnection(s, lastEventId);
    forall id ensures Placed(c, c.base, id) { FreshPlaces(c, id); }
    assert c.queue[..c.lead] == c.queue;
    assert s.log[..|s.log|] == s.log;
  }

  lemma ApplyKeepsInv(s: System, a: Action)
    requires Inv(s)
    ensures Inv(Apply(s, a))
  {
    hide ConnOk, Offer, Enlist, NewConnection, Retained, ReadMessage, ClientOf;
    match a
    case Publish(draft) =>
      var e := Stamp(draft, |s.log| + 1);
      RetainedAppend(s.log, e, s.capacity);
      forall i | 0 <= i < |s.conns| ensures ConnOk(s.log + [e], Enlist(s.conns[i], e.id)) {
        PublishKeepsConn(s.log, e, s.conns[i]);
      }
    case Deliver(id, i) =>
      if Apply(s, a) != s { OfferKeepsConn(s.log, s.conns[i], s.capacity, id); }
    case Open(lastEventId) => NewConnectionOk(s, lastEventId);
    case Connect(k) => NewConnectionOk(s, LastEventIdHeader(ClientOf(s, k)));
    case Send(i) =>
      if Apply(s, a) != s {
        TouchKeepsConn(s.log, s.conns[i], s.conns[i].(sent := s.conns[i].sent + 1));
      }
    case Close(i) =>
      if Apply(s, a) != s {
        TouchKeepsConn(s.log, s.conns[i], s.conns[i].(open := false, top := |s.log|));
      }
    case Read(k) =>
    case Disconnect(k) =>
  }

  lemma {:induction false} RunInv(capacity: nat, actions: seq<Action>)
    requires capacity >= 1
    ensures Inv(Run(capacity, actions)) && Run(capacity, actions).capacity == capacity
  {
    if actions != [] {
      RunInv(capacity, actions[..|actions| - 1]);
      ApplyKeepsInv(Run(capacity, actions[..|actions| - 1]), actions[|actions| - 1]);
    }
  }

  // ----- The channel -----------------------------------------------------------------------------

  /** How full a channel is: empty when a connection is made, one more for each event it
      accepts, one less for each live event its handler sends, and the same for anything it
      drops or sends of the replay. */
  lemma ChannelFills(s: System, c: Connection, e: RingEvent, lastEventId: string)
    requires c.sent <= |c.queue| && c.lead <= |c.queue|
    ensures NewConnection(s, lastEventId).Waiting() == 0
    ensures Offer(c, s.capacity, e).Waiting() == c.Waiting() + if c.Waiting() < s.capacity then 1 else 0
    ensures c.sent < |c.queue| ==>
              c.(sent := c.sent + 1).Waiting() == c.Waiting() - if c.sent >= c.lead then 1 else 0
  {
    hide CatchUpFrom;
  }

  predicate Holdable(c: Connection, capacity: nat) {
    c.sent <= |c.queue| && c.lead <= |c.queue| && 0 <= c.Waiting() <= capacity
  }

  lemma StepHoldable(s: System, a: Action, i: nat)
    requires i < |Apply(s, a).conns| && (i < |s.conns| ==> Holdable(s.conns[i], s.capacity))
    ensures Holdable(Apply(s, a).conns[i], s.capacity)
  {
    hide CatchUpFrom, ReadMessage, Retained, ClientOf;
  }

  /** No channel ever holds more than its capacity. */
  lemma {:induction false} ChannelsBounded(capacity: nat, actions: seq<Action>, i: nat)
    requires i < |Run(capacity, actions).conns|
    ensures var c := Run(capacity, actions).conns[i];
            c.sent <= |c.queue| && c.lead <= |c.queue| && 0 <= c.Waiting() <= capacity
  {
    var s, a := Run(capacity, actions[..|actions| - 1]), actions[|actions| - 1];
    hide Apply;
    SameCapacity(capacity, actions[..|actions| - 1]);
    if i < |s.conns| { ChannelsBounded(capacity, actions[..|actions| - 1], i); }
    StepHoldable(s, a, i);
  }

  lemma {:induction false} SameCapacity(capacity: nat, actions: seq<Action>)
    ensures Run(capacity, actions).capacity == capacity
  {
    if actions != [] {
      SameCapacity(capacity, actions[..|actions| - 1]);
      hide EnlistAll, NewConnection, Retained, Offer, ReadMessage;
    }
  }

  // ----- The history ---------------------------------------------------------------------------

  /** What has been published, in order. */
  function Drafts(actions: seq<Action>): seq<Draft> {
    if actions == [] then []
    else
      var a := actions[|actions| - 1];
      Drafts(actions[..|actions| - 1]) + if a.Publish? then [a.draft] else []
  }

  lemma LogGrows(s: System, a: Action)
    ensures Apply(s, a).log == s.log + if a.Publish? then [Stamp(a.draft, |s.log| + 1)] else []
  {
  }

  /** The n-th event of the history has id n and the revision and payload of the n-th
      publication. */
  lemma {:induction false} HistoryHoldsDrafts(capacity: nat, actions: seq<Action>)
    ensures var log, drafts := Run(capacity, actions).log, Drafts(actions);
            |log| == |drafts|
            && forall n :: 0 <= n < |log| ==>
                 log[n].id == n + 1 && log[n].revision == drafts[n].revision && log[n].payload == drafts[n].payload
  {
    if actions != [] {
      HistoryHoldsDrafts(capacity, actions[..|actions| - 1]);
      LogGrows(Run(capacity, actions[..|actions| - 1]), actions[|actions| - 1]);
      hide Apply;
    }
  }
}
