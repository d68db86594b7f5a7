/** What the event stream promises its clients, over every run. */
module EventClients {
  import opened Prelude
  import opened EventStream
  import opened EventDelivery
  import Strconv

  /** Under every interleaving an event is queued for a connection at most once:
      in the replay or through the channel, never both and never twice. */
  lemma AtMostOnce(capacity: nat, actions: seq<Action>, i: nat)
    requires capacity >= 1
    requires i < |Run(capacity, actions).conns|
    ensures var q := Run(capacity, actions).conns[i].queue;
            forall j, k :: 0 <= j < k < |q| && q[j].Event? && q[k].Event? ==> q[j].e.id != q[k].e.id
  {
    hide Placed;
    RunInv(capacity, actions);
    var s := Run(capacity, actions);
    var c := s.conns[i];
    assert ConnOk(s.log, c);
    forall j, k | 0 <= j < k < |c.queue| && c.queue[j].Event? && c.queue[k].Event?
      ensures c.queue[j].e.id != c.queue[k].e.id
    {
      if j < c.lead {
        LeadId(s.log, c, j);
        if k < c.lead { LeadId(s.log, c, k); }
      }
      if c.lead <= k { assert IdOf(c.queue[k]) > c.base; }
      if c.lead <= j { assert IdOf(c.queue[j]) != IdOf(c.queue[k]); }
    }
  }

  /** Replayed events carry the ids just up to `base`. */
  lemma LeadId(log: seq<RingEvent>, c: Connection, j: nat)
    requires Consecutive(log) && LeadOk(log, c) && j < c.lead
    ensures c.queue[j] == Resync
            || (c.lead <= c.base && c.queue[j] == Event(log[c.base - c.lead + j])
                && IdOf(c.queue[j]) == c.base - c.lead + j + 1)
  {
    assert c.queue[..c.lead][j] == c.queue[j];
  }

  /** Every event published while a connection is subscribed is, at any moment,
      in exactly one place: accepted, dropped, or still to be offered. */
  lemma ExactlyOnePlace(capacity: nat, actions: seq<Action>, i: nat, id: nat)
    requires capacity >= 1
    requires i < |Run(capacity, actions).conns|
    ensures var s := Run(capacity, actions);
            var c := s.conns[i];
            Count(id in c.LiveIds()) + Count(id in c.dropped) + Count(id in c.offers)
            == Count(c.base < id <= Top(s.log, c))
  {
    RunInv(capacity, actions);
    var s := Run(capacity, actions);
    var c := s.conns[i];
    hide LiveOk, LeadOk;
    assert ConnOk(s.log, c);
    assert Placed(c, Top(s.log, c), id);
  }

  lemma DropStep(s: System, a: Action, i: nat, id: nat)
    requires Consecutive(s.log)
    requires i < |Apply(s, a).conns| && id in Apply(s, a).conns[i].dropped
    ensures i < |s.conns|
    ensures id in s.conns[i].dropped || (a == Deliver(id, i) && s.conns[i].Waiting() >= s.capacity)
  {
    hide CatchUpFrom;
  }

  /** A subscribed connection misses an event only because its channel was full
      at the moment the event was offered to it. */
  lemma {:induction false} MissedOnlyWhenFull(capacity: nat, actions: seq<Action>, i: nat, id: nat)
    returns (n: nat)
    requires capacity >= 1
    requires i < |Run(capacity, actions).conns| && id in Run(capacity, actions).conns[i].dropped
    ensures n < |actions| && actions[n] == Deliver(id, i)
    ensures i < |Run(capacity, actions[..n]).conns|
    ensures Run(capacity, actions[..n]).conns[i].Waiting() >= capacity
  {
    hide ConnOk, Apply;
    var prior := actions[..|actions| - 1];
    RunInv(capacity, prior);
    var s := Run(capacity, prior);
    DropStep(s, actions[|actions| - 1], i, id);
    if id in s.conns[i].dropped {
      n := MissedOnlyWhenFull(capacity, prior, i, id);
      assert prior[..n] == actions[..n];
    } else {
      n := |actions| - 1;
    }
  }

  // ----- Serialised publishers -----------------------------------------------

  /** No publication still has a channel to offer its event to. */
  ghost predicate Quiet(s: System) {
    forall i :: 0 <= i < |s.conns| ==> s.conns[i].offers == {}
  }

  /** Calls of `publish` do not overlap: each starts when no other is under way. */
  ghost predicate Serialised(capacity: nat, actions: seq<Action>) {
    if actions == [] then true
    else
      var prior := actions[..|actions| - 1];
      && Serialised(capacity, prior)
      && (actions[|actions| - 1].Publish? ==> Quiet(Run(capacity, prior)))
  }

  /** Live ids increase, and only the newest event can still be on offer. */
  ghost predicate Ordered(c: Connection, newest: nat) {
    && c.offers <= {newest}
    && forall j, k :: c.lead <= j < k < |c.queue| ==> IdOf(c.queue[j]) < IdOf(c.queue[k])
  }

  ghost predicate SerialInv(s: System) {
    forall i :: 0 <= i < |s.conns| ==> Ordered(s.conns[i], |s.log|)
  }

  lemma OfferKeepsOrder(log: seq<RingEvent>, c: Connection, capacity: nat, id: nat)
    requires Consecutive(log) && ConnOk(log, c) && Ordered(c, |log|)
    requires id in c.offers && 1 <= id <= |log|
    ensures Ordered(Offer(c, capacity, log[id - 1]), |log|)
  {
    assert Placed(c, Top(log, c), id);
    hide Placed, LeadOk;
    var c' := Offer(c, capacity, log[id - 1]);
    if c.Waiting() < capacity {
      forall k | c.lead <= k < |c.queue| ensures IdOf(c'.queue[k]) < |log| {
        assert c'.queue[k] == c.queue[k];
        assert IdOf(c.queue[k]) in c.LiveIds();
      }
    }
  }

  lemma ApplyKeepsSerial(s: System, a: Action)
    requires Inv(s) && SerialInv(s)
    requires a.Publish? ==> Quiet(s)
    ensures SerialInv(Apply(s, a))
  {
    hide ConnOk, CatchUpFrom;
    match a
    case Deliver(id, i) =>
      if Apply(s, a) != s { OfferKeepsOrder(s.log, s.conns[i], s.capacity, id); }
    case Open(h) => NewConnectionOk(s, h);
    case Connect(k) => NewConnectionOk(s, LastEventIdHeader(ClientOf(s, k)));
    case _ =>
  }

  /** Serialising is needed: a publication that starts while an earlier event is still
      on offer to a subscribed channel with two free slots can always be delivered
      ahead of it. */
  lemma OverlapCanReorder(s: System, i: nat, id: nat, draft: Draft)
    requires Inv(s) && i < |s.conns| && s.conns[i].open && id in s.conns[i].offers
    requires s.conns[i].Waiting() + 2 <= s.capacity
    ensures var newer := |s.log| + 1;
            var s' := Apply(Apply(Apply(s, Publish(draft)), Deliver(newer, i)), Deliver(id, i));
            var n := |s.conns[i].queue|;
            && i < |s'.conns| && |s'.conns[i].queue| == n + 2
            && IdOf(s'.conns[i].queue[n]) == newer > IdOf(s'.conns[i].queue[n + 1]) == id
  {
    var d, newer := s.conns[i], |s.log| + 1;
    assert ConnOk(s.log, d) && Placed(d, Top(s.log, d), id);
    hide ConnOk;
    var s1 := Apply(s, Publish(draft));
    var s2 := Apply(s1, Deliver(newer, i));
    assert s1.conns[i] == Enlist(d, newer);
    assert s2.conns[i] == Offer(Enlist(d, newer), s.capacity, s1.log[newer - 1]);
    assert id in s2.conns[i].offers;
  }

  // ----- Clients --------------------------------------------------------------

  function Ids(stretch: seq<RingEvent>): set<nat> {
    set i | 0 <= i < |stretch| :: stretch[i].id
  }

  /** Events of the log in increasing order. */
  ghost predicate InOrder(log: seq<RingEvent>, stretch: seq<RingEvent>) {
    && (forall i :: 0 <= i < |stretch| ==>
          1 <= stretch[i].id <= |log| && stretch[i] == log[stretch[i].id - 1])
    && forall i, j :: 0 <= i < j < |stretch| ==> stretch[i].id < stretch[j].id
  }

  /** Every id from the first to the last event read is either read or recorded
      as skipped, never both, and nothing else is recorded. */
  ghost predicate Covered(stretch: seq<RingEvent>, skipped: set<nat>) {
    if stretch == [] then skipped == {}
    else
      forall x :: if stretch[0].id <= x <= stretch[|stretch| - 1].id
                  then (x in Ids(stretch)) != (x in skipped)
                  else x !in skipped
  }

  ghost predicate StretchOk(log: seq<RingEvent>, stretch: seq<RingEvent>, skipped: set<nat>) {
    InOrder(log, stretch) && Covered(stretch, skipped)
  }

  /** Where a client stands on its connection. */
  ghost predicate Cursor(d: Connection, c: Client) {
    && d.lead <= |d.queue|
    && c.read <= d.sent <= |d.queue|
    && if c.read == 0 then
         && (c.stretch != [] ==> c.lastId.Some?)
         && (c.lastId.Some? ==>
               && c.lastId.value <= d.base
               && ((d.lead == 1 && d.queue[0] == Resync) || c.lastId.value == d.base - d.lead))
       else
         match d.queue[c.read - 1]
         case Resync => c.stretch == [] && (c.lastId.Some? ==> c.lastId.value <= d.base)
         case Event(e) => c.stretch != [] && c.stretch[|c.stretch| - 1] == e
  }

  /** The client's books: how far it has read on each of its connections, and that
      nothing it has read is newer than its last id. */
  ghost predicate BooksOk(s: System, c: Client) {
    && (c.conn.Some? ==> c.conn.value in c.seen && c.seen[c.conn.value] == c.read)
    && (forall i :: i in c.seen ==> i < |s.conns| && c.seen[i] <= |s.conns[i].queue|)
    && (forall i, r :: i in c.seen && 0 <= r < c.seen[i] && s.conns[i].queue[r].Event? ==>
          c.lastId.Some? && s.conns[i].queue[r].e.id <= c.lastId.value)
  }

  /** Among the first n messages of the connection is an event newer than x. */
  ghost predicate Passed(d: Connection, n: nat, x: nat) {
    exists r :: 0 <= r < n && r < |d.queue| && d.queue[r].Event? && d.queue[r].e.id > x
  }

  /** One of the client's own channels dropped x, and the client read past x there. */
  ghost predicate Lost(s: System, c: Client, x: nat) {
    exists i :: i in c.seen && i < |s.conns| && x in s.conns[i].dropped && Passed(s.conns[i], c.seen[i], x)
  }

  /** The ids stepped over are exactly those lost on the client's own channels. */
  ghost predicate SkipsOwn(s: System, c: Client) {
    c.stretch != [] ==> forall x :: c.stretch[0].id < x ==> (x in c.skipped <==> Lost(s, c, x))
  }

  ghost predicate ClientOk(s: System, c: Client) {
    && StretchOk(s.log, c.stretch, c.skipped)
    && (c.stretch != [] ==> c.lastId == Some(c.stretch[|c.stretch| - 1].id))
    && (c.lastId.Some? ==> c.lastId.value <= |s.log|)
    && (c.conn.Some? ==> c.conn.value < |s.conns| && Cursor(s.conns[c.conn.value], c))
    && BooksOk(s, c)
    && SkipsOwn(s, c)
  }

  ghost predicate ConnGrows(c: Connection, c': Connection) {
    && c'.base == c.base && c'.lead == c.lead
    && c.queue <= c'.queue
    && c.sent <= c'.sent <= |c'.queue|
    && c.dropped <= c'.dropped
  }

  ghost predicate Grows(s: System, s': System) {
    && s.log <= s'.log
    && |s.conns| <= |s'.conns|
    && forall i :: 0 <= i < |s.conns| ==> ConnGrows(s.conns[i], s'.conns[i])
  }

  lemma ApplyGrows(s: System, a: Action)
    requires forall i :: 0 <= i < |s.conns| ==> s.conns[i].sent <= |s.conns[i].queue|
    ensures Grows(s, Apply(s, a))
  {
    hide CatchUpFrom;
  }

  /** What changes around a client that does not move itself: logs and queues grow,
      and a channel can newly drop only the newest event. */
  ghost predicate DropsNewest(s: System, s': System) {
    forall i :: 0 <= i < |s.conns| && i < |s'.conns| ==> s'.conns[i].dropped <= s.conns[i].dropped + {|s.log|}
  }

  lemma ApplyDropsNewest(s: System, a: Action)
    requires SerialInv(s) && Consecutive(s.log)
    ensures DropsNewest(s, Apply(s, a))
  {
    hide CatchUpFrom;
    if a.Deliver? && a.conn < |s.conns| { assert Ordered(s.conns[a.conn], |s.log|); }
  }

  lemma PassedKept(d: Connection, d': Connection, n: nat, x: nat)
    requires d.queue <= d'.queue && n <= |d.queue|
    ensures Passed(d, n, x) <==> Passed(d', n, x)
  {
    if Passed(d, n, x) {
      var r :| 0 <= r < n && r < |d.queue| && d.queue[r].Event? && d.queue[r].e.id > x;
      assert d'.queue[r] == d.queue[r];
    }
    if Passed(d', n, x) {
      var r :| 0 <= r < n && r < |d'.queue| && d'.queue[r].Event? && d'.queue[r].e.id > x;
      assert d'.queue[r] == d.queue[r];
    }
  }

  lemma NotPassed(s: System, c: Client, i: nat, x: nat)
    requires BooksOk(s, c) && (c.lastId.Some? ==> c.lastId.value <= x) && i in c.seen
    ensures !Passed(s.conns[i], c.seen[i], x)
  {
  }

  lemma NotLost(s: System, c: Client, x: nat)
    requires BooksOk(s, c) && (c.lastId.Some? ==> c.lastId.value <= x)
    ensures !Lost(s, c, x)
  {
    forall i: nat | i in c.seen ensures !Passed(s.conns[i], c.seen[i], x) { NotPassed(s, c, i, x); }
  }

  lemma LostKept(s: System, s': System, c: Client, x: nat)
    requires Grows(s, s') && DropsNewest(s, s') && BooksOk(s, c)
    requires c.lastId.Some? ==> c.lastId.value <= |s.log|
    ensures Lost(s, c, x) <==> Lost(s', c, x)
  {
    if c.lastId.None? || c.lastId.value <= x {
      BooksKept(s, s', c);
      NotLost(s, c, x);
      NotLost(s', c, x);
    } else {
      forall i: nat | i in c.seen
        ensures x in s.conns[i].dropped <==> x in s'.conns[i].dropped
        ensures Passed(s.conns[i], c.seen[i], x) <==> Passed(s'.conns[i], c.seen[i], x)
      {
        assert ConnGrows(s.conns[i], s'.conns[i]);
        PassedKept(s.conns[i], s'.conns[i], c.seen[i], x);
      }
      hide Passed;
    }
  }

  lemma BooksKept(s: System, s': System, c: Client)
    requires Grows(s, s') && BooksOk(s, c)
    ensures BooksOk(s', c)
  {
    forall i | i in c.seen ensures i < |s'.conns| && c.seen[i] <= |s'.conns[i].queue| {
      assert ConnGrows(s.conns[i], s'.conns[i]);
    }
    forall i, r | i in c.seen && 0 <= r < c.seen[i] && s'.conns[i].queue[r].Event?
      ensures c.lastId.Some? && s'.conns[i].queue[r].e.id <= c.lastId.value
    {
      assert ConnGrows(s.conns[i], s'.conns[i]);
      assert s'.conns[i].queue[r] == s.conns[i].queue[r];
    }
  }

  lemma CursorKept(d: Connection, d': Connection, c: Client)
    requires ConnGrows(d, d') && Cursor(d, c)
    ensures Cursor(d', c)
  {
    if c.read > 0 { assert d'.queue[c.read - 1] == d.queue[c.read - 1]; }
    if d.lead == 1 { assert d'.queue[0] == d.queue[0]; }
  }

  lemma ClientKept(s: System, s': System, c: Client)
    requires Grows(s, s') && DropsNewest(s, s') && ClientOk(s, c)
    ensures ClientOk(s', c)
  {
    BooksKept(s, s', c);
    forall x ensures Lost(s, c, x) <==> Lost(s', c, x) { LostKept(s, s', c, x); }
    if c.conn.Some? {
      assert ConnGrows(s.conns[c.conn.value], s'.conns[c.conn.value]);
      CursorKept(s.conns[c.conn.value], s'.conns[c.conn.value], c);
    }
    hide Lost, Cursor, BooksOk, ConnGrows;
  }

  lemma ReconnectResumes(s: System, n: nat)
    requires Inv(s) && n <= |s.log| <= Strconv.MAX_INT64
    ensures var d := NewConnection(s, Strconv.FormatInt(n));
            || (d.lead == 1 && d.lead <= |d.queue| && d.queue[0] == Resync)
            || n == d.base - d.lead
  {
    Strconv.ParseOfFormat(n);
    CatchUpIsExact(s.log, s.capacity, Strconv.FormatInt(n));
    assert Exact(s.log, s.capacity, n, CatchUpFrom(s.buffer, Strconv.FormatInt(n)));
  }

  lemma ReconnectCursor(s: System, c: Client)
    requires Inv(s) && |s.log| <= Strconv.MAX_INT64
    requires c.stretch != [] ==> c.lastId.Some?
    requires c.lastId.Some? ==> c.lastId.value <= |s.log|
    requires c.read == 0
    ensures Cursor(NewConnection(s, LastEventIdHeader(c)), c)
  {
    NewConnectionOk(s, LastEventIdHeader(c));
    if c.lastId.Some? { ReconnectResumes(s, c.lastId.value); }
  }

  lemma OpenedUnread(s: System, c: Client, i: nat)
    requires c.conn == None && BooksOk(s, c) && SkipsOwn(s, c) && i == |s.conns| - 1 && i !in c.seen
    ensures var c' := c.(conn := Some(i), read := 0, seen := c.seen[i := 0]); BooksOk(s, c') && SkipsOwn(s, c')
  {
    var c' := c.(conn := Some(i), read := 0, seen := c.seen[i := 0]);
    forall x ensures Lost(s, c, x) <==> Lost(s, c', x) {
      if Lost(s, c, x) {
        var j :| j in c.seen && j < |s.conns| && x in s.conns[j].dropped && Passed(s.conns[j], c.seen[j], x);
        assert j in c'.seen && c'.seen[j] == c.seen[j];
      }
      if Lost(s, c', x) {
        var j :| j in c'.seen && j < |s.conns| && x in s.conns[j].dropped && Passed(s.conns[j], c'.seen[j], x);
        assert j != i;
      }
    }
    hide Lost;
  }

  lemma ConnectKeepsClient(s: System, k: nat)
    requires Inv(s) && SerialInv(s) && |s.log| <= Strconv.MAX_INT64
    requires ClientOk(s, ClientOf(s, k))
    ensures var s' := Apply(s, Connect(k)); ClientOk(s', ClientOf(s', k))
  {
    var c := ClientOf(s, k);
    var s' := Apply(s, Connect(k));
    ApplyGrows(s, Connect(k));
    ApplyDropsNewest(s, Connect(k));
    assert |s.conns| !in c.seen;
    hide SerialInv, StretchOk, Cursor, SkipsOwn, Grows, DropsNewest, CatchUpFrom;
    GoneIsOk(s, c);
    ReconnectCursor(s, c.(conn := Some(|s.conns|), read := 0, seen := c.seen[|s.conns| := 0]));
    hide BooksOk, Inv;
    ClientKept(s, s', c.(conn := None));
    OpenedUnread(s', c.(conn := None), |s.conns|);
  }

  lemma IdsAppend(stretch: seq<RingEvent>, e: RingEvent)
    ensures Ids(stretch + [e]) == Ids(stretch) + {e.id}
  {
    var more := stretch + [e];
    forall x | x in Ids(stretch) + {e.id} ensures x in Ids(more) {
      if x in Ids(stretch) {
        var i :| 0 <= i < |stretch| && stretch[i].id == x;
        assert more[i].id == x;
      } else {
        assert more[|stretch|].id == x;
      }
    }
  }

  lemma CoverExtends(log: seq<RingEvent>, stretch: seq<RingEvent>, skipped: set<nat>, e: RingEvent)
    requires InOrder(log, stretch) && Covered(stretch, skipped)
    requires stretch != [] ==> stretch[|stretch| - 1].id < e.id
    ensures Covered(stretch + [e], skipped + Gap(stretch, e))
  {
    var more, all := stretch + [e], skipped + Gap(stretch, e);
    IdsAppend(stretch, e);
    if stretch != [] {
      var first, last := stretch[0].id, stretch[|stretch| - 1].id;
      assert more[0] == stretch[0] && more[|more| - 1] == e;
      assert forall x :: x in Ids(stretch) ==> first <= x <= last;
    }
  }

  lemma StretchExtends(log: seq<RingEvent>, stretch: seq<RingEvent>, skipped: set<nat>, e: RingEvent)
    requires StretchOk(log, stretch, skipped)
    requires 1 <= e.id <= |log| && e == log[e.id - 1]
    requires stretch != [] ==> stretch[|stretch| - 1].id < e.id
    ensures StretchOk(log, stretch + [e], skipped + Gap(stretch, e))
  {
    CoverExtends(log, stretch, skipped, e);
    var more := stretch + [e];
    forall i | 0 <= i < |stretch| ensures more[i].id < e.id {
      assert more[i] == stretch[i] && stretch[i].id <= stretch[|stretch| - 1].id;
    }
  }

  /** The next event on a connection is newer than everything read before. */
  lemma NextIsNewer(s: System, i: nat, c: Client)
    requires Inv(s) && SerialInv(s) && i < |s.conns| && Cursor(s.conns[i], c)
    requires c.stretch != [] ==> c.lastId == Some(c.stretch[|c.stretch| - 1].id)
    requires c.read < |s.conns[i].queue| && s.conns[i].queue[c.read].Event?
    ensures c.lastId.Some? ==> c.lastId.value < s.conns[i].queue[c.read].e.id
  {
    var d, r := s.conns[i], c.read;
    assert ConnOk(s.log, d) && Ordered(d, |s.log|);
    hide Placed;
    if r < d.lead {
      LeadId(s.log, d, r);
      if r > 0 { LeadId(s.log, d, r - 1); }
    } else {
      assert IdOf(d.queue[r]) > d.base;
      if 0 < r == d.lead { LeadId(s.log, d, r - 1); }
      if r > d.lead { assert IdOf(d.queue[r - 1]) < IdOf(d.queue[r]); }
    }
  }

  /** Between the last event a client has read and the next one on its
      connection lie only ids that this connection dropped. */
  lemma GapIsDropped(s: System, i: nat, c: Client)
    requires Inv(s) && SerialInv(s) && i < |s.conns|
    requires Cursor(s.conns[i], c)
    requires c.stretch != [] && c.lastId == Some(c.stretch[|c.stretch| - 1].id)
    requires c.read < |s.conns[i].queue| && s.conns[i].queue[c.read].Event?
    ensures var last, next := c.stretch[|c.stretch| - 1].id, s.conns[i].queue[c.read].e.id;
            last < next && Between(last, next) <= s.conns[i].dropped
  {
    NextIsNewer(s, i, c);
    var d, r := s.conns[i], c.read;
    var last, next := c.stretch[|c.stretch| - 1].id, d.queue[r].e.id;
    assert ConnOk(s.log, d) && Ordered(d, |s.log|);
    hide Placed;
    if r < d.lead {
      LeadId(s.log, d, r);
      if r > 0 { LeadId(s.log, d, r - 1); }
    } else {
      assert IdOf(d.queue[r]) == next > d.base;
      if 0 < r == d.lead { LeadId(s.log, d, r - 1); }
      assert d.base <= last;
      forall x | x in Between(last, next) ensures x in d.dropped {
        NotLive(d, |s.log|, r, last, next, x);
        PlacedDropped(d, Top(s.log, d), x);
      }
    }
  }

  lemma PlacedDropped(d: Connection, top: nat, x: nat)
    requires Placed(d, top, x) && d.base < x <= top && x !in d.LiveIds() && x !in d.offers
    ensures x in d.dropped
  {
  }

  lemma NotLive(d: Connection, newest: nat, r: nat, last: nat, next: nat, x: nat)
    requires Ordered(d, newest) && d.lead <= r < |d.queue| && IdOf(d.queue[r]) == next
    requires r > d.lead ==> IdOf(d.queue[r - 1]) == last
    requires last < x < next
    ensures x !in d.LiveIds()
  {
    if x in d.LiveIds() {
      var k :| d.lead <= k < |d.queue| && IdOf(d.queue[k]) == x;
    }
  }

  lemma QueuedIsLogged(log: seq<RingEvent>, d: Connection, r: nat)
    requires Consecutive(log) && ConnOk(log, d) && r < |d.queue| && d.queue[r].Event?
    ensures var e := d.queue[r].e; 1 <= e.id <= |log| && e == log[e.id - 1]
  {
    if r < d.lead { LeadId(log, d, r); }
  }

  lemma ClientHere(s: System, c: Client, i: nat)
    requires Inv(s) && ClientOk(s, c) && c.conn == Some(i)
    ensures Consecutive(s.log) && i < |s.conns| && ConnOk(s.log, s.conns[i]) && Cursor(s.conns[i], c)
    ensures StretchOk(s.log, c.stretch, c.skipped)
    ensures c.stretch != [] ==> c.lastId == Some(c.stretch[|c.stretch| - 1].id)
  {
    hide StretchOk, Cursor, BooksOk, SkipsOwn;
  }

  lemma ReadExtends(s: System, c: Client, i: nat, e: RingEvent)
    requires Inv(s) && SerialInv(s) && ClientOk(s, c)
    requires c.conn == Some(i) && c.read < |s.conns[i].queue|
    requires s.conns[i].queue[c.read] == Event(e)
    ensures e.id <= |s.log|
    ensures StretchOk(s.log, c.stretch + [e], c.skipped + Gap(c.stretch, e))
  {
    hide *;
    ClientHere(s, c, i);
    QueuedIsLogged(s.log, s.conns[i], c.read);
    if c.stretch != [] { GapIsDropped(s, i, c); }
    StretchExtends(s.log, c.stretch, c.skipped, e);
  }

  lemma ReadKeepsBooks(s: System, c: Client, i: nat, e: RingEvent)
    requires Inv(s) && SerialInv(s) && ClientOk(s, c)
    requires c.conn == Some(i) && c.read < |s.conns[i].queue| && s.conns[i].queue[c.read] == Event(e)
    ensures BooksOk(s, ReadMessage(c, Event(e)))
  {
    hide Inv, SerialInv, StretchOk, SkipsOwn, Gap;
    NextIsNewer(s, i, c);
    hide Cursor;
  }

  lemma DroppedIsLater(log: seq<RingEvent>, d: Connection, x: nat)
    requires ConnOk(log, d) && x in d.dropped
    ensures d.base < x && x !in d.LiveIds()
  {
    assert Placed(d, Top(log, d), x);
  }

  lemma AboveBaseIsLive(log: seq<RingEvent>, d: Connection, r: nat)
    requires Consecutive(log) && ConnOk(log, d) && r < |d.queue| && d.queue[r].Event?
    ensures d.queue[r].e.id > d.base ==> d.queue[r].e.id in d.LiveIds()
  {
    hide Placed;
    if r < d.lead { LeadId(log, d, r); }
  }

  /** An id not above the last one read, dropped on the connection being read, was
      passed there already. */
  lemma PassedBefore(s: System, c: Client, i: nat, x: nat)
    requires Inv(s) && ClientOk(s, c) && c.conn == Some(i) && c.stretch != []
    requires x in s.conns[i].dropped && x <= c.stretch[|c.stretch| - 1].id
    ensures Passed(s.conns[i], c.read, x)
  {
    var d := s.conns[i];
    hide Inv, ClientOk, ConnOk, Cursor, StretchOk, Consecutive;
    ClientHere(s, c, i);
    DroppedIsLater(s.log, d, x);
    LastRead(d, c);
    AboveBaseIsLive(s.log, d, c.read - 1);
  }

  /** What a client has read last, if it lies after the connection's start. */
  lemma LastRead(d: Connection, c: Client)
    requires Cursor(d, c) && c.stretch != [] && c.lastId == Some(c.stretch[|c.stretch| - 1].id)
    requires c.stretch[|c.stretch| - 1].id > d.base
    ensures 0 < c.read <= |d.queue| && d.queue[c.read - 1].Event?
    ensures d.queue[c.read - 1].e.id == c.stretch[|c.stretch| - 1].id
  {
  }

  lemma NothingHeld(s: System, c: Client)
    requires ClientOk(s, c) && c.stretch == []
    ensures c.skipped == {}
  {
    hide Cursor, BooksOk, SkipsOwn, InOrder;
  }

  lemma ReadKeepsSkips(s: System, c: Client, i: nat, e: RingEvent, x: nat)
    requires Inv(s) && SerialInv(s) && ClientOk(s, c)
    requires c.conn == Some(i) && c.read < |s.conns[i].queue| && s.conns[i].queue[c.read] == Event(e)
    requires if c.stretch == [] then e.id < x else c.stretch[0].id < x
    ensures x in c.skipped + Gap(c.stretch, e) <==> Lost(s, ReadMessage(c, Event(e)), x)
  {
    var c' := ReadMessage(c, Event(e));
    hide Inv, SerialInv, Cursor, StretchOk, Lost, BooksOk, Passed;
    ReadKeepsBooks(s, c, i, e);
    if c.stretch == [] {
      NothingHeld(s, c);
      NotLost(s, c', x);
    } else {
      GapIsDropped(s, i, c);
      if x in c.skipped { StillLost(s, c, i, e, x); }
      if x in Gap(c.stretch, e) { GapIsLost(s, c, i, e, x); }
      if Lost(s, c', x) { LostBefore(s, c, i, e, x); }
    }
  }

  lemma StillLost(s: System, c: Client, i: nat, e: RingEvent, x: nat)
    requires BooksOk(s, c) && c.conn == Some(i) && Lost(s, c, x)
    ensures Lost(s, ReadMessage(c, Event(e)), x)
  {
    hide Gap;
    var c' := ReadMessage(c, Event(e));
    var j :| j in c.seen && j < |s.conns| && x in s.conns[j].dropped && Passed(s.conns[j], c.seen[j], x);
    assert j in c'.seen && c'.seen[j] >= c.seen[j];
    assert Passed(s.conns[j], c'.seen[j], x);
  }

  lemma GapIsLost(s: System, c: Client, i: nat, e: RingEvent, x: nat)
    requires c.conn == Some(i) && i < |s.conns| && c.read < |s.conns[i].queue| && s.conns[i].queue[c.read] == Event(e)
    requires x in s.conns[i].dropped && x < e.id
    ensures Lost(s, ReadMessage(c, Event(e)), x)
  {
    hide Gap;
    var c' := ReadMessage(c, Event(e));
    assert i in c'.seen && c'.seen[i] == c.read + 1;
    assert Passed(s.conns[i], c.read + 1, x);
  }

  lemma LostBefore(s: System, c: Client, i: nat, e: RingEvent, x: nat)
    requires Inv(s) && ClientOk(s, c) && c.stretch != [] && c.stretch[0].id < x
    requires c.conn == Some(i) && BooksOk(s, ReadMessage(c, Event(e)))
    requires Lost(s, ReadMessage(c, Event(e)), x)
    ensures x in c.skipped + Gap(c.stretch, e)
  {
    var c' := ReadMessage(c, Event(e));
    var last := c.stretch[|c.stretch| - 1].id;
    if x <= last {
      var j :| j in c'.seen && j < |s.conns| && x in s.conns[j].dropped && Passed(s.conns[j], c'.seen[j], x);
      if j == i { PassedBefore(s, c, i, x); }
      hide Inv, StretchOk, Cursor, Passed;
      assert Passed(s.conns[j], c.seen[j], x);
      assert Lost(s, c, x);
    } else {
      hide Inv, StretchOk, Cursor, SkipsOwn;
      if e.id <= x { NotLost(s, c', x); }
      assert x in Between(last, e.id);
    }
  }

  lemma ReadMoves(s: System, c: Client, i: nat, e: RingEvent)
    requires ClientOk(s, c) && c.conn == Some(i)
    requires c.read < s.conns[i].sent && c.read < |s.conns[i].queue| && s.conns[i].queue[c.read] == Event(e)
    ensures Cursor(s.conns[i], ReadMessage(c, Event(e)))
  {
    hide StretchOk, BooksOk, SkipsOwn, Gap;
  }

  lemma ReadEventKeepsClient(s: System, c: Client, i: nat, e: RingEvent)
    requires Inv(s) && SerialInv(s) && ClientOk(s, c)
    requires c.conn == Some(i) && c.read < s.conns[i].sent && c.read < |s.conns[i].queue|
    requires s.conns[i].queue[c.read] == Event(e)
    ensures ClientOk(s, ReadMessage(c, Event(e)))
  {
    hide Inv, SerialInv, StretchOk, BooksOk, Lost, Gap, Cursor;
    var c' := ReadMessage(c, Event(e));
    ReadExtends(s, c, i, e);
    ReadKeepsBooks(s, c, i, e);
    ReadMoves(s, c, i, e);
    forall x | c'.stretch[0].id < x ensures x in c'.skipped <==> Lost(s, c', x) { ReadKeepsSkips(s, c, i, e, x); }
  }

  lemma ResyncIsFirst(log: seq<RingEvent>, d: Connection, r: nat)
    requires ConnOk(log, d) && r < |d.queue| && d.queue[r] == Resync
    ensures r == 0
  {
    hide Placed;
    var lead := d.queue[..d.lead];
    assert r < d.lead ==> lead[r] == d.queue[r];
  }

  lemma ResyncKeepsBooks(s: System, c: Client, i: nat)
    requires ClientOk(s, c) && c.conn == Some(i) && c.read < |s.conns[i].queue| && s.conns[i].queue[c.read] == Resync
    requires c.read == 0
    ensures BooksOk(s, ReadMessage(c, Resync))
  {
    hide StretchOk, SkipsOwn;
  }

  lemma ReadResyncKeepsClient(s: System, c: Client, i: nat)
    requires Inv(s) && ClientOk(s, c)
    requires c.conn == Some(i) && c.read < s.conns[i].sent && c.read < |s.conns[i].queue|
    requires s.conns[i].queue[c.read] == Resync
    ensures ClientOk(s, ReadMessage(c, Resync))
  {
    assert ConnOk(s.log, s.conns[i]);
    ResyncIsFirst(s.log, s.conns[i], c.read);
    assert StretchOk(s.log, [], {});
    hide ConnOk, Inv, SkipsOwn, Lost, StretchOk, Consecutive;
    var c' := ReadMessage(c, Resync);
    NothingSkipped(s, c');
    ResyncKeepsBooks(s, c, i);
    hide BooksOk;
  }

  lemma NothingSkipped(s: System, c: Client)
    requires c.stretch == []
    ensures SkipsOwn(s, c)
  {
  }

  lemma ReadKeepsClient(s: System, k: nat)
    requires Inv(s) && SerialInv(s) && ClientOk(s, ClientOf(s, k))
    ensures var s' := Apply(s, Read(k)); ClientOk(s', ClientOf(s', k))
  {
    hide Inv, SerialInv;
    var s' := Apply(s, Read(k));
    var c, c' := ClientOf(s, k), ClientOf(s', k);
    if s' != s {
      var i := c.conn.value;
      var m := s.conns[i].queue[c.read];
      if m.Event? { ReadEventKeepsClient(s, c, i, m.e); } else { ReadResyncKeepsClient(s, c, i); }
      SameConnections(s, s', c');
    }
  }

  lemma SameConnections(s: System, s': System, c: Client)
    requires ClientOk(s, c) && s.log == s'.log && s.conns == s'.conns
    ensures ClientOk(s', c)
  {
    forall x ensures Lost(s, c, x) <==> Lost(s', c, x) {}
    hide Lost, StretchOk;
  }

  lemma ApplyKeepsClient(s: System, a: Action, k: nat)
    requires Inv(s) && SerialInv(s) && |s.log| <= Strconv.MAX_INT64
    requires ClientOk(s, ClientOf(s, k))
    ensures ClientOk(Apply(s, a), ClientOf(Apply(s, a), k))
  {
    assert forall i :: 0 <= i < |s.conns| ==> s.conns[i].sent <= |s.conns[i].queue|;
    var s' := Apply(s, a);
    ApplyGrows(s, a);
    ApplyDropsNewest(s, a);
    hide Inv, SerialInv, CatchUpFrom, Grows, DropsNewest, StretchOk, Cursor;
    if a == Connect(k) {
      ConnectKeepsClient(s, k);
    } else if a == Read(k) {
      ReadKeepsClient(s, k);
    } else if a == Disconnect(k) {
      GoneIsOk(s, ClientOf(s, k));
      ClientKept(s, s', ClientOf(s, k).(conn := None));
    } else {
      ClientKept(s, s', ClientOf(s, k));
      hide ClientOk;
      assert ClientOf(s', k) == ClientOf(s, k);
    }
  }

  lemma GoneIsOk(s: System, c: Client)
    requires ClientOk(s, c)
    ensures ClientOk(s, c.(conn := None))
  {
    forall x ensures Lost(s, c, x) <==> Lost(s, c.(conn := None), x) {}
    hide Lost, StretchOk;
  }

  lemma {:induction false} SerialisedRun(capacity: nat, actions: seq<Action>, k: nat)
    requires capacity >= 1 && Serialised(capacity, actions)
    requires |Run(capacity, actions).log| <= Strconv.MAX_INT64
    ensures var s := Run(capacity, actions); SerialInv(s) && ClientOk(s, ClientOf(s, k))
  {
    if actions != [] {
      var prior := actions[..|actions| - 1];
      var a := actions[|actions| - 1];
      RunInv(capacity, prior);
      var s := Run(capacity, prior);
      ApplyGrows(s, a);
      SerialisedRun(capacity, prior, k);
      ApplyKeepsSerial(s, a);
      ApplyKeepsClient(s, a, k);
    }
  }

  /** All of the history from its first event to its last. */
  ghost predicate Contiguous(log: seq<RingEvent>, stretch: seq<RingEvent>)
    requires stretch != []
  {
    var first, last := stretch[0].id, stretch[|stretch| - 1].id;
    1 <= first <= last <= |log| && stretch == log[first - 1..last]
  }

  lemma ContiguousIffNothingLost(s: System, c: Client)
    requires Consecutive(s.log) && ClientOk(s, c) && c.stretch != []
    ensures InOrder(s.log, c.stretch)
    ensures Contiguous(s.log, c.stretch) <==> forall x :: c.stretch[0].id < x ==> !Lost(s, c, x)
  {
    hide Lost, BooksOk, Cursor;
    ContiguousIffNothingSkipped(s.log, c.stretch, c.skipped);
    assert forall x :: x in c.skipped ==> c.stretch[0].id < x by {
      assert c.stretch[0].id in Ids(c.stretch);
    }
  }

  /** However often a client disconnects and reconnects echoing its last id, what
      it has read since its last resync is a strictly increasing, duplicate-free
      part of the published history.  It is one contiguous stretch exactly when
      on none of its own connections it has read past an id that the channel
      dropped. */
  lemma ClientReadsContiguousHistory(capacity: nat, actions: seq<Action>, k: nat)
    requires capacity >= 1
    ensures var s := Run(capacity, actions);
            var c := ClientOf(s, k);
            Serialised(capacity, actions) && |s.log| <= Strconv.MAX_INT64 && c.stretch != [] ==>
            && InOrder(s.log, c.stretch)
            && (Contiguous(s.log, c.stretch) <==> forall x :: c.stretch[0].id < x ==> !Lost(s, c, x))
  {
    var s := Run(capacity, actions);
    var c := ClientOf(s, k);
    if Serialised(capacity, actions) && |s.log| <= Strconv.MAX_INT64 && c.stretch != [] {
      SerialisedRun(capacity, actions, k);
      RunInv(capacity, actions);
      assert Consecutive(s.log);
      hide Run, Serialised, ClientOk, Inv, SerialInv;
      ContiguousIffNothingLost(s, c);
    }
  }

  /** None of the channels the client opened dropped an id between the first and the
      last event it has read. */
  ghost predicate OwnChannelsKept(s: System, c: Client)
    requires c.stretch != []
  {
    forall i, x :: i in c.seen && i < |s.conns| && c.stretch[0].id < x < c.stretch[|c.stretch| - 1].id ==>
      x !in s.conns[i].dropped
  }

  lemma KeptMeansContiguous(s: System, c: Client)
    requires Consecutive(s.log) && ClientOk(s, c) && c.stretch != [] && OwnChannelsKept(s, c)
    ensures Contiguous(s.log, c.stretch)
  {
    ContiguousIffNothingLost(s, c);
    hide StretchOk, Cursor, SkipsOwn, Contiguous, InOrder;
    forall x | c.stretch[0].id < x ensures !Lost(s, c, x) {
      if x >= c.stretch[|c.stretch| - 1].id { NotLost(s, c, x); }
    }
  }

  /** A client whose own channels dropped nothing between the first and the last
      event it has read misses nothing there, whatever other connections do. */
  lemma OwnChannelsNeverFull(capacity: nat, actions: seq<Action>, k: nat)
    requires capacity >= 1
    ensures var s := Run(capacity, actions);
            var c := ClientOf(s, k);
            Serialised(capacity, actions) && |s.log| <= Strconv.MAX_INT64 && c.stretch != [] ==>
              OwnChannelsKept(s, c) ==> Contiguous(s.log, c.stretch)
  {
    var s := Run(capacity, actions);
    var c := ClientOf(s, k);
    if Serialised(capacity, actions) && |s.log| <= Strconv.MAX_INT64 && c.stretch != [] && OwnChannelsKept(s, c) {
      SerialisedRun(capacity, actions, k);
      RunInv(capacity, actions);
      assert Consecutive(s.log);
      hide Run, Serialised, ClientOk, Inv, SerialInv, OwnChannelsKept;
      KeptMeansContiguous(s, c);
    }
  }

  lemma SkippedIsLost(s: System, c: Client, x: nat)
    requires ClientOk(s, c) && x in c.skipped
    ensures Lost(s, c, x)
  {
    hide Lost, BooksOk, Cursor;
    assert c.stretch != [];
    assert c.stretch[0].id in Ids(c.stretch);
  }

  /** Every id a client has stepped over was offered to one of its own channels when
      that channel was full. */
  lemma SkippedWhenOwnChannelFull(capacity: nat, actions: seq<Action>, k: nat, x: nat) returns (i: nat, n: nat)
    requires capacity >= 1
    ensures var c := ClientOf(Run(capacity, actions), k);
            Serialised(capacity, actions) && |Run(capacity, actions).log| <= Strconv.MAX_INT64 && x in c.skipped ==>
              && i in c.seen
              && n < |actions| && actions[n] == Deliver(x, i)
              && i < |Run(capacity, actions[..n]).conns|
              && Run(capacity, actions[..n]).conns[i].Waiting() >= capacity
  {
    var s := Run(capacity, actions);
    var c := ClientOf(s, k);
    i, n := 0, 0;
    if Serialised(capacity, actions) && |s.log| <= Strconv.MAX_INT64 && x in c.skipped {
      SerialisedRun(capacity, actions, k);
      hide Run, Serialised, ClientOk, SerialInv;
      SkippedIsLost(s, c, x);
      i :| i in c.seen && i < |s.conns| && x in s.conns[i].dropped && Passed(s.conns[i], c.seen[i], x);
      n := MissedOnlyWhenFull(capacity, actions, i, x);
    }
  }

  lemma ContiguousIffNothingSkipped(log: seq<RingEvent>, stretch: seq<RingEvent>, skipped: set<nat>)
    requires Consecutive(log) && StretchOk(log, stretch, skipped) && stretch != []
    ensures skipped == {} <==> stretch == log[stretch[0].id - 1..stretch[|stretch| - 1].id]
  {
    var first, last := stretch[0].id, stretch[|stretch| - 1].id;
    var whole := log[first - 1..last];
    if skipped == {} {
      WholeStretch(log, stretch, |stretch| - 1);
      forall i | 0 <= i < |stretch| ensures stretch[i] == whole[i] {
        WholeStretch(log, stretch, i);
      }
    } else {
      var x :| x in skipped;
      assert whole[x - first].id == x;
      assert x in Ids(whole);
    }
  }

  /** With nothing skipped, consecutive reads have consecutive ids. */
  lemma {:induction false} WholeStretch(log: seq<RingEvent>, stretch: seq<RingEvent>, i: nat)
    requires StretchOk(log, stretch, {}) && i < |stretch|
    ensures stretch[i].id == stretch[0].id + i
  {
    if i > 0 {
      WholeStretch(log, stretch, i - 1);
      var x := stretch[i - 1].id + 1;
      assert stretch[i - 1].id < stretch[i].id <= stretch[|stretch| - 1].id;
      assert x in Ids(stretch);
      var j :| 0 <= j < |stretch| && stretch[j].id == x;
      assert j > i - 1;
      assert j == i;
    }
  }

  // ----- Ended connections and clients ---------------------------------------------------------

  /** A closed connection is offered nothing that is published later, and a client that has
      disconnected reads nothing until it connects again. */
  lemma EndedHearNothing(s: System, i: nat, k: nat, draft: Draft)
    ensures i < |s.conns| ==> Apply(Apply(s, Close(i)), Publish(draft)).conns[i].offers == s.conns[i].offers
    ensures Apply(Apply(s, Disconnect(k)), Read(k)) == Apply(s, Disconnect(k))
    ensures ClientOf(Apply(s, Disconnect(k)), k) == ClientOf(s, k).(conn := None)
  {
  }
}
