/** The event broadcaster behind GET /v1/events: a bounded ring of the most
    recent events, each stamped with a per-process sequence id, and the
    replay-or-resync decision for a reconnecting client. */
module EventStream {
  import opened Prelude
  import Strconv

  /** The JSON body of a "state" or a "script" event. */
  datatype Payload =
    | StateChange(domain: string, route: string, revision: int, actor: string)
    | ScriptLifecycle(runId: string, scriptName: string, status: string, reason: string)

  /** An event before `Publish` has stamped its id. */
  datatype Draft = Draft(revision: int, payload: Payload)

  datatype RingEvent = RingEvent(id: nat, revision: int, payload: Payload)

  function Stamp(draft: Draft, id: nat): RingEvent {
    RingEvent(id, draft.revision, draft.payload)
  }

  /** The unbounded history: the n-th event ever published has id n. */
  ghost predicate Consecutive(log: seq<RingEvent>) {
    forall i :: 0 <= i < |log| ==> log[i].id == i + 1
  }

  /** The most recent `capacity` entries. */
  function Retained(events: seq<RingEvent>, capacity: nat): seq<RingEvent> {
    if |events| > capacity then events[|events| - capacity..] else events
  }

  /** What a new subscription must send before any live event. */
  datatype CatchUp = CatchUp(replay: seq<RingEvent>, resync: bool)

  /** Entries newer than an id, oldest first. */
  function NewerThan(events: seq<RingEvent>, lastId: int): seq<RingEvent> {
    if events == [] then []
    else
      var front := NewerThan(events[..|events| - 1], lastId);
      var e := events[|events| - 1];
      if e.id > lastId then front + [e] else front
  }

  /** The decision table of `subscribe` over the retained buffer. */
  function CatchUpFrom(buffer: seq<RingEvent>, lastEventId: string): CatchUp {
    match Strconv.ParseInt(lastEventId)
    case None => CatchUp([], false)
    case Some(lastId) =>
      if buffer == [] then CatchUp([], lastId > 0)
      else
        var oldest, latest := buffer[0].id, buffer[|buffer| - 1].id;
        if lastId < oldest - 1 then CatchUp([], true)
        else if lastId == latest then CatchUp([], false)
        else if lastId > latest then CatchUp([], true)
        else CatchUp(NewerThan(buffer, lastId), false)
  }

  /** Trimming after every append loses nothing against trimming once. */
  lemma RetainedAppend(log: seq<RingEvent>, e: RingEvent, capacity: nat)
    ensures Retained(Retained(log, capacity) + [e], capacity) == Retained(log + [e], capacity)
  {
  }

  /** On a run of consecutive ids the filter is a suffix. */
  lemma {:induction false} NewerThanIsSuffix(log: seq<RingEvent>, from: nat, lastId: nat)
    requires Consecutive(log)
    requires from <= lastId <= |log|
    ensures NewerThan(log[from..], lastId) == log[lastId..]
  {
    if from == |log| {
    } else {
      var front := log[..|log| - 1];
      assert log[from..][..|log| - from - 1] == front[from..];
      if lastId == |log| {
        NewerThanNone(log[from..], lastId);
      } else {
        NewerThanIsSuffix(front, from, lastId);
        assert log[lastId..] == front[lastId..] + [log[|log| - 1]];
      }
    }
  }

  lemma {:induction false} NewerThanNone(events: seq<RingEvent>, lastId: int)
    requires forall i :: 0 <= i < |events| ==> events[i].id <= lastId
    ensures NewerThan(events, lastId) == []
  {
    if events != [] { NewerThanNone(events[..|events| - 1], lastId); }
  }

  /** Exactly the events after `lastId`, all of them still retained. */
  ghost predicate Exact(log: seq<RingEvent>, capacity: nat, lastId: nat, c: CatchUp) {
    && (c.resync <==> lastId > |log| || lastId < |log| - capacity)
    && c.replay == if c.resync then [] else log[lastId..]
  }

  /** The ring answers a reconnecting client as the unbounded log would: the
      suffix after the id, or a resync exactly when the id was never issued or
      part of that suffix has been evicted. */
  lemma CatchUpIsExact(log: seq<RingEvent>, capacity: nat, lastEventId: string)
    requires Consecutive(log) && capacity >= 1
    ensures match Strconv.ParseInt(lastEventId)
            case None => CatchUpFrom(Retained(log, capacity), lastEventId) == CatchUp([], false)
            case Some(lastId) =>
              if lastId >= 0
              then Exact(log, capacity, lastId, CatchUpFrom(Retained(log, capacity), lastEventId))
              else CatchUpFrom(Retained(log, capacity), lastEventId) == CatchUp([], log != [])
  {
    var parsed := Strconv.ParseInt(lastEventId);
    var buffer := Retained(log, capacity);
    if parsed.Some? && buffer != [] {
      var from := |log| - |buffer|;
      assert buffer == log[from..];
      assert buffer[0].id == from + 1 && buffer[|buffer| - 1].id == |log|;
      if from <= parsed.value < |log| {
        NewerThanIsSuffix(log, from, parsed.value);
      }
    }
  }

  /** Whatever the header, what is replayed is the newest part of the log. */
  lemma CatchUpIsRecent(log: seq<RingEvent>, capacity: nat, lastEventId: string)
    requires Consecutive(log) && capacity >= 1
    ensures var c := CatchUpFrom(Retained(log, capacity), lastEventId);
            |c.replay| <= |log| && c.replay == log[|log| - |c.replay|..]
  {
    CatchUpIsExact(log, capacity, lastEventId);
    var c := CatchUpFrom(Retained(log, capacity), lastEventId);
    if c.replay != [] {
      var lastId := Strconv.ParseInt(lastEventId).value;
      assert c.replay == log[lastId..];
    }
  }

  /** The catch-up is exact for every history and id if and only if the ring
      holds at least one event. */
  lemma CatchUpNeedsCapacity(capacity: nat)
    ensures capacity >= 1 <==>
            forall log, lastId: nat ::
              Consecutive(log) && lastId <= Strconv.MAX_INT64 ==>
                Exact(log, capacity, lastId,
                      CatchUpFrom(Retained(log, capacity), Strconv.FormatInt(lastId)))
  {
    if capacity >= 1 {
      forall log, lastId: nat | Consecutive(log) && lastId <= Strconv.MAX_INT64
        ensures Exact(log, capacity, lastId,
                      CatchUpFrom(Retained(log, capacity), Strconv.FormatInt(lastId)))
      {
        Strconv.ParseOfFormat(lastId);
        CatchUpIsExact(log, capacity, Strconv.FormatInt(lastId));
      }
    } else {
      Strconv.ParseOfFormat(0);
      var log := [RingEvent(1, 0, ScriptLifecycle("", "", "", ""))];
      assert Consecutive(log);
      assert CatchUpFrom(Retained(log, 0), Strconv.FormatInt(0)) == CatchUp([], false);
      assert !Exact(log, 0, 0, CatchUpFrom(Retained(log, 0), Strconv.FormatInt(0)));
    }
  }

  /** The body of `subscribe` after the channel has been registered. */
  method Decide(buffer: seq<RingEvent>, lastEventId: string)
    returns (replay: seq<RingEvent>, resync: bool)
    ensures CatchUp(replay, resync) == CatchUpFrom(buffer, lastEventId)
  {
    replay, resync := [], false;
    if lastEventId == "" { return; }
    var parsed := Strconv.ParseInt(lastEventId);
    if parsed.None? { return; }
    var lastId := parsed.value;
    if |buffer| == 0 {
      resync := lastId > 0;
      return;
    }
    var oldest, latest := buffer[0].id, buffer[|buffer| - 1].id;
    if lastId + 1 < oldest {
      resync := true;
    } else if lastId == latest {
    } else if lastId > latest {
      resync := true;
    } else {
      for i := 0 to |buffer|
        invariant replay == NewerThan(buffer[..i], lastId)
      {
        assert buffer[..i + 1][..i] == buffer[..i];
        if buffer[i].id > lastId { replay := replay + [buffer[i]]; }
      }
      assert buffer[..|buffer|] == buffer;
    }
  }

  /** Copies a set of channels into a list, in no particular order. */
  method Snapshot(channels: set<nat>) returns (subs: seq<nat>)
    ensures forall ch :: ch in subs <==> ch in channels
    ensures |subs| == |channels|
  {
    subs := [];
    var rest := channels;
    while rest != {}
      invariant rest <= channels
      invariant forall ch :: ch in subs <==> ch in channels - rest
      invariant |subs| + |rest| == |channels|
      decreases rest
    {
      var ch :| ch in rest;
      subs, rest := subs + [ch], rest - {ch};
    }
  }

  /** `eventBroadcaster`.  Channels are named by numbers, never reused. */
  class EventBroadcaster {
    const capacity: nat
    var buffer: seq<RingEvent>
    var subscribers: set<nat>
    var nextSeq: nat
    var nextChannel: nat
    /** Every event ever published. */
    ghost var log: seq<RingEvent>

    /** The ring refines the unbounded log. */
    ghost predicate Valid()
      reads this
    {
      && nextSeq == |log|
      && Consecutive(log)
      && buffer == Retained(log, capacity)
      && forall ch :: ch in subscribers ==> ch < nextChannel
    }

    constructor (capacity: nat)
      ensures Valid() && log == [] && subscribers == {} && this.capacity == capacity
    {
      this.capacity := capacity;
      buffer, subscribers, nextSeq, nextChannel := [], {}, 0, 0;
      log := [];
    }

    /** The locked part of `publish`: stamp, append, evict, and copy the list
        of channels that the unlocked sends will go to. */
    method Publish(draft: Draft) returns (ev: RingEvent, subs: seq<nat>)
      requires Valid()
      modifies this`buffer, this`nextSeq, this`log
      ensures Valid()
      ensures ev == Stamp(draft, old(nextSeq) + 1)
      ensures log == old(log) + [ev]
      ensures |buffer| == if |log| <= capacity then |log| else capacity
      ensures forall ch :: ch in subs <==> ch in subscribers
      ensures |subs| == |subscribers|
    {
      nextSeq := nextSeq + 1;
      ev := Stamp(draft, nextSeq);
      buffer := buffer + [ev];
      if |buffer| > capacity {
        buffer := buffer[|buffer| - capacity..];
      }
      RetainedAppend(log, ev, capacity);
      log := log + [ev];

      subs := Snapshot(subscribers);
    }

    /** Registers a channel and decides what the client must see first. */
    method Subscribe(lastEventId: string) returns (replay: seq<RingEvent>, resync: bool, ch: nat)
      requires Valid()
      modifies this`subscribers, this`nextChannel
      ensures Valid()
      ensures ch !in old(subscribers) && subscribers == old(subscribers) + {ch}
      ensures CatchUp(replay, resync) == CatchUpFrom(buffer, lastEventId)
      ensures capacity >= 1 ==>
                match Strconv.ParseInt(lastEventId)
                case None => replay == [] && !resync
                case Some(lastId) =>
                  lastId >= 0 ==> Exact(log, capacity, lastId, CatchUp(replay, resync))
    {
      ch := nextChannel;
      nextChannel := nextChannel + 1;
      subscribers := subscribers + {ch};
      replay, resync := Decide(buffer, lastEventId);
      if capacity >= 1 { CatchUpIsExact(log, capacity, lastEventId); }
    }

    method Unsubscribe(ch: nat)
      requires Valid()
      modifies this`subscribers
      ensures Valid() && subscribers == old(subscribers) - {ch}
    {
      subscribers := subscribers - {ch};
    }
  }
}
