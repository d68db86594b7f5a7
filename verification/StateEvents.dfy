/** The commit pipeline and the event stream together: what the stream calls "state"
    events are the committed changes, and no client sees revisions go back. */
module StateEvents {
  import opened Prelude
  import opened EventStream
  import opened EventDelivery
  import opened EventClients
  import P = CommitPipeline
  import T = CommitTheorems
  import C = CommitHistory
  import Strconv

  /** The state changes among some events, in order. */
  function StatePayloads(log: seq<RingEvent>): seq<Payload> {
    if log == [] then []
    else
      var e := log[|log| - 1];
      StatePayloads(log[..|log| - 1]) + if e.payload.StateChange? then [e.payload] else []
  }

  /** The state changes a run publishes; between and around them come script events,
      deliveries, subscriptions and reads in any order. */
  function StatesPublished(actions: seq<Action>): seq<Payload> {
    if actions == [] then []
    else
      var a := actions[|actions| - 1];
      StatesPublished(actions[..|actions| - 1])
      + if a.Publish? && a.draft.payload.StateChange? then [a.draft.payload] else []
  }

  lemma {:induction false} LoggedIsPublished(capacity: nat, actions: seq<Action>)
    ensures StatePayloads(Run(capacity, actions).log) == StatesPublished(actions)
  {
    if actions != [] {
      var front, a := actions[..|actions| - 1], actions[|actions| - 1];
      LoggedIsPublished(capacity, front);
      hide Apply;
      var s := Run(capacity, front);
      LogGrows(s, a);
      hide Run;
      LogOneMore(s.log, if a.Publish? then [Stamp(a.draft, |s.log| + 1)] else []);
    }
  }

  lemma LogOneMore(log: seq<RingEvent>, more: seq<RingEvent>)
    requires |more| <= 1
    ensures StatePayloads(log + more)
            == StatePayloads(log) + if more != [] && more[0].payload.StateChange? then [more[0].payload] else []
  {
    if more == [] {
      assert log + more == log;
    } else {
      assert (log + more)[..|log|] == log;
    }
  }

  /** The stream is fed by the pipeline: its state publications so far are those the
      observers were fired for, in order and up to the point the latest attempt has reached. */
  ghost predicate Feeds(fired: seq<P.MutationEvent>, actions: seq<Action>) {
    StatesPublished(actions) <= C.Published(fired)
  }

  /** For any interleaving of attempts, script publications and stream steps, the state
      events of the history are the committed changes in commit order. */
  lemma HistoryIsCommitted<X(!new)>(exec: (P.Command, X) -> P.Effect<X>, ttl: int, p: P.Pipeline<X>,
                                    attempts: seq<T.Attempt<X>>, capacity: nat, actions: seq<Action>)
    requires p.fired == [] && Feeds(T.Run(exec, ttl, p, attempts).fired, actions)
    ensures StatePayloads(Run(capacity, actions).log) <= C.AllCommitted(exec, ttl, p, attempts)
    ensures StatesPublished(actions) == C.Published(T.Run(exec, ttl, p, attempts).fired) ==>
              StatePayloads(Run(capacity, actions).log) == C.AllCommitted(exec, ttl, p, attempts)
  {
    LoggedIsPublished(capacity, actions);
    C.PublishedIsCommitted(exec, ttl, p, attempts);
    hide C.AllCommitted, T.Run, Run;
    assert C.Published(p.fired) == [];
  }

  // ----- Order -----------------------------------------------------------------------------------------

  lemma {:induction false} FewerBefore(log: seq<RingEvent>, i: nat)
    requires i <= |log|
    ensures StatePayloads(log[..i]) <= StatePayloads(log)
    decreases |log|
  {
    if i < |log| {
      FewerBefore(log[..|log| - 1], i);
      assert log[..|log| - 1][..i] == log[..i];
    } else {
      assert log[..i] == log;
    }
  }

  /** A state event stands among the state events after those before it. */
  lemma {:induction false} StandsAt(log: seq<RingEvent>, i: nat)
    requires i < |log| && log[i].payload.StateChange?
    ensures var n := |StatePayloads(log[..i])|;
            n < |StatePayloads(log[..i + 1])| <= |StatePayloads(log)| && StatePayloads(log)[n] == log[i].payload
  {
    assert log[..i + 1][..i] == log[..i];
    FewerBefore(log, i + 1);
  }

  lemma {:induction false} StatesAscend(log: seq<RingEvent>, i: nat, j: nat)
    requires C.NonDecreasing(StatePayloads(log))
    requires i < j < |log| && log[i].payload.StateChange? && log[j].payload.StateChange?
    ensures log[i].payload.revision <= log[j].payload.revision
  {
    StandsAt(log, i);
    StandsAt(log, j);
    FewerBefore(log[..j], i + 1);
    assert log[..j][..i + 1] == log[..i + 1];
  }

  /** While publications do not overlap, the state events a client has read since its last
      resync, over any number of reconnections, never go back in revision, and none is newer
      than the show on disk. */
  lemma ClientNeverGoesBack<X(!new)>(exec: (P.Command, X) -> P.Effect<X>, ttl: int, p: P.Pipeline<X>,
                                     attempts: seq<T.Attempt<X>>, capacity: nat, actions: seq<Action>,
                                     k: nat, i: nat, j: nat)
    requires p.fired == [] && Feeds(T.Run(exec, ttl, p, attempts).fired, actions)
    requires capacity >= 1 && Serialised(capacity, actions) && |Run(capacity, actions).log| <= Strconv.MAX_INT64
    requires i < j < |ClientOf(Run(capacity, actions), k).stretch|
    ensures var read := ClientOf(Run(capacity, actions), k).stretch;
            read[i].payload.StateChange? && read[j].payload.StateChange? ==>
            read[i].payload.revision <= read[j].payload.revision <= T.Run(exec, ttl, p, attempts).disk.revision
  {
    HistoryIsCommitted(exec, ttl, p, attempts, capacity, actions);
    C.PublishedRevisionsAscend(exec, ttl, p, attempts);
    ClientReadsContiguousHistory(capacity, actions, k);
    var high := T.Run(exec, ttl, p, attempts).disk.revision;
    hide T.Run, C.AllCommitted, Serialised, Feeds, Run, Contiguous, Lost, StatePayloads;
    var s, all := Run(capacity, actions), C.AllCommitted(exec, ttl, p, attempts);
    ReadAscends(s.log, ClientOf(s, k).stretch, all, p.disk.revision, high, i, j);
  }

  lemma {:induction false} ReadAscends(log: seq<RingEvent>, read: seq<RingEvent>, all: seq<Payload>, low: int,
                                       high: int, i: nat, j: nat)
    requires InOrder(log, read) && i < j < |read|
    requires StatePayloads(log) <= all && C.NonDecreasing(all) && C.Within(all, low, high)
    ensures read[i].payload.StateChange? && read[j].payload.StateChange? ==>
            read[i].payload.revision <= read[j].payload.revision <= high
  {
    if read[i].payload.StateChange? && read[j].payload.StateChange? {
      var states := StatePayloads(log);
      assert C.NonDecreasing(states) by { hide StatePayloads; }
      StatesAscend(log, read[i].id - 1, read[j].id - 1);
      StandsAt(log, read[j].id - 1);
      hide StatePayloads;
      assert all[|StatePayloads(log[..read[j].id - 1])|] == read[j].payload;
    }
  }

  // ----- One interleaved run -----------------------------------------------------------------------

  /** A step of pipeline and stream together: an attempt, the next publication the latest
      attempt owes, or any step of the stream but a state publication. */
  datatype Move<X> = Try(attempt: T.Attempt<X>) | Emit | Other(action: Action)

  /** The attempts made and the stream's actions so far, and the changes committed but not
      yet published. */
  datatype Joint<X> = Joint(attempts: seq<T.Attempt<X>>, actions: seq<Action>, owed: seq<Payload>)

  predicate PublishesState(a: Action) { a.Publish? && a.draft.payload.StateChange? }

  function DraftOf(payload: Payload): Draft {
    Draft(if payload.StateChange? then payload.revision else 0, payload)
  }

  /** The observers are fired under the pipeline's mutex: no attempt starts before the one
      before it has published all its changes. */
  function Moved<X>(exec: (P.Command, X) -> P.Effect<X>, ttl: int, p: P.Pipeline<X>, j: Joint<X>, m: Move<X>)
    : Joint<X>
  {
    match m
    case Try(a) =>
      if j.owed != [] then j
      else j.(attempts := j.attempts + [a], owed := C.Committed(exec, ttl, T.Run(exec, ttl, p, j.attempts), a))
    case Emit =>
      if j.owed == [] then j else j.(actions := j.actions + [Publish(DraftOf(j.owed[0]))], owed := j.owed[1..])
    case Other(a) => if PublishesState(a) then j else j.(actions := j.actions + [a])
  }

  function Joined<X>(exec: (P.Command, X) -> P.Effect<X>, ttl: int, p: P.Pipeline<X>, moves: seq<Move<X>>): Joint<X> {
    if moves == [] then Joint([], [], [])
    else Moved(exec, ttl, p, Joined(exec, ttl, p, moves[..|moves| - 1]), moves[|moves| - 1])
  }

  /** What is committed is what is published and what is still owed. */
  ghost predicate Accounted<X>(exec: (P.Command, X) -> P.Effect<X>, ttl: int, p: P.Pipeline<X>, j: Joint<X>) {
    StatesPublished(j.actions) + j.owed == C.AllCommitted(exec, ttl, p, j.attempts)
    && forall i :: 0 <= i < |j.owed| ==> j.owed[i].StateChange?
  }

  lemma PublishedOneMore(actions: seq<Action>, a: Action)
    ensures StatesPublished(actions + [a])
            == StatesPublished(actions) + if PublishesState(a) then [a.draft.payload] else []
  {
    assert (actions + [a])[..|actions|] == actions;
  }

  lemma CommittedOneMore<X>(exec: (P.Command, X) -> P.Effect<X>, ttl: int, p: P.Pipeline<X>,
                            attempts: seq<T.Attempt<X>>, a: T.Attempt<X>)
    ensures C.AllCommitted(exec, ttl, p, attempts + [a])
            == C.AllCommitted(exec, ttl, p, attempts) + C.Committed(exec, ttl, T.Run(exec, ttl, p, attempts), a)
    ensures forall i :: 0 <= i < |C.Committed(exec, ttl, T.Run(exec, ttl, p, attempts), a)| ==>
              C.Committed(exec, ttl, T.Run(exec, ttl, p, attempts), a)[i].StateChange?
  {
    C.CommittedInRange(exec, ttl, T.Run(exec, ttl, p, attempts), a);
    hide C.Committed, T.Run;
    assert (attempts + [a])[..|attempts|] == attempts;
  }

  lemma MoveAccounts<X>(exec: (P.Command, X) -> P.Effect<X>, ttl: int, p: P.Pipeline<X>, j: Joint<X>, m: Move<X>)
    requires Accounted(exec, ttl, p, j)
    ensures Accounted(exec, ttl, p, Moved(exec, ttl, p, j, m))
  {
    hide C.AllCommitted, C.Committed, T.Run, StatesPublished;
    match m
    case Try(a) => CommittedOneMore(exec, ttl, p, j.attempts, a);
    case Emit => if j.owed != [] { PublishedOneMore(j.actions, Publish(DraftOf(j.owed[0]))); }
    case Other(a) => PublishedOneMore(j.actions, a);
  }

  /** Over any joint run of pipeline and stream the state events of the history, followed by
      those the latest attempt still owes, are the committed changes in commit order; the
      pipeline feeds the stream. */
  lemma {:induction false} JointHistory<X(!new)>(exec: (P.Command, X) -> P.Effect<X>, ttl: int, p: P.Pipeline<X>,
                                                 moves: seq<Move<X>>, capacity: nat)
    requires p.fired == []
    ensures var j := Joined(exec, ttl, p, moves);
            && StatePayloads(Run(capacity, j.actions).log) + j.owed == C.AllCommitted(exec, ttl, p, j.attempts)
            && Feeds(T.Run(exec, ttl, p, j.attempts).fired, j.actions)
  {
    var j := Joined(exec, ttl, p, moves);
    JointAccounts(exec, ttl, p, moves);
    LoggedIsPublished(capacity, j.actions);
    C.PublishedIsCommitted(exec, ttl, p, j.attempts);
    hide Run, C.AllCommitted, T.Run, Joined, StatePayloads, StatesPublished;
    assert C.Published(p.fired) == [];
  }

  lemma {:induction false} JointAccounts<X>(exec: (P.Command, X) -> P.Effect<X>, ttl: int, p: P.Pipeline<X>,
                                            moves: seq<Move<X>>)
    ensures Accounted(exec, ttl, p, Joined(exec, ttl, p, moves))
  {
    if moves != [] {
      JointAccounts(exec, ttl, p, moves[..|moves| - 1]);
      hide Accounted, Moved;
      MoveAccounts(exec, ttl, p, Joined(exec, ttl, p, moves[..|moves| - 1]), moves[|moves| - 1]);
    }
  }

  /** Over any joint run in which publications do not overlap, no client's state events go
      back in revision or run ahead of the show on disk. */
  lemma JointNeverGoesBack<X(!new)>(exec: (P.Command, X) -> P.Effect<X>, ttl: int, p: P.Pipeline<X>,
                                    moves: seq<Move<X>>, capacity: nat, k: nat, a: nat, b: nat)
    requires p.fired == [] && capacity >= 1
    requires var actions := Joined(exec, ttl, p, moves).actions;
             && Serialised(capacity, actions) && |Run(capacity, actions).log| <= Strconv.MAX_INT64
             && a < b < |ClientOf(Run(capacity, actions), k).stretch|
    ensures var j := Joined(exec, ttl, p, moves);
            var read := ClientOf(Run(capacity, j.actions), k).stretch;
            read[a].payload.StateChange? && read[b].payload.StateChange? ==>
            read[a].payload.revision <= read[b].payload.revision <= T.Run(exec, ttl, p, j.attempts).disk.revision
  {
    JointHistory(exec, ttl, p, moves, capacity);
    var j := Joined(exec, ttl, p, moves);
    hide Joined, Run, T.Run, Serialised, Feeds;
    ClientNeverGoesBack(exec, ttl, p, j.attempts, capacity, j.actions, k, a, b);
  }
}
