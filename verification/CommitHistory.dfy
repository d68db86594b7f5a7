/** Idempotent replays and the published event history, over whole runs. */
module CommitHistory {
  import opened Prelude
  import opened CommitPipeline
  import opened CommitTheorems
  import opened EventStream

  // ----- Idempotency keys -------------------------------------------------------

  /** The clock never goes back, neither within an attempt nor between two. */
  ghost predicate ClockOk<C(!new)>(attempts: seq<Attempt<C>>) {
    && (forall i :: 0 <= i < |attempts| && attempts[i].Mutation? ==>
          attempts[i].io.lookupAt <= attempts[i].io.storeAt)
    && forall i, j :: 0 <= i < j < |attempts| && attempts[i].Mutation? && attempts[j].Mutation? ==>
         attempts[i].io.storeAt <= attempts[j].io.lookupAt
  }

  /** An attempt that gets as far as the idempotency store with this key. */
  predicate Presents<C>(a: Attempt<C>, k: Key) {
    a.Mutation? && a.req.idempotencyKey != "" && a.req.Triple() == k
    && Authorised(a.req.route, a.req.granted) && !a.req.dryRun
  }

  function ReplyOf<C>(exec: (Command, C) -> Effect<C>, ttl: int, p: Pipeline<C>, a: Attempt<C>)
    : Result<Mutated, Failure>
    requires a.Mutation?
  {
    Single(exec, ttl, p, a.req, a.io).reply
  }

  /** An applied mutation stores its result for the time to live. */
  lemma AppliedStores<C>(exec: (Command, C) -> Effect<C>, ttl: int, p: Pipeline<C>, a: Attempt<C>, k: Key)
    requires Presents(a, k) && Applies(exec, ttl, p, a)
    ensures var q := Step(exec, ttl, p, a);
            var r := ReplyOf(exec, ttl, p, a);
            r.Ok? && k in q.entries && q.entries[k] == Entry(r.value, a.io.storeAt + ttl)
  {
    hide ParseIfMatch, RequiredScope, Disturb, Translate, CheckRevision;
  }

  /** A live entry survives every attempt and answers those that present its key
      without touching the show. */
  lemma LiveEntryAnswers<C>(exec: (Command, C) -> Effect<C>, ttl: int, p: Pipeline<C>, a: Attempt<C>, k: Key)
    requires k in p.entries
    requires a.Mutation? ==> a.io.lookupAt <= p.entries[k].expiresAt
    ensures var q := Step(exec, ttl, p, a); k in q.entries && q.entries[k] == p.entries[k]
    ensures Presents(a, k) ==>
              && ReplyOf(exec, ttl, p, a) == Ok(p.entries[k].result)
              && Step(exec, ttl, p, a).disk == p.disk
              && !Applies(exec, ttl, p, a)
  {
    hide ParseIfMatch, RequiredScope, Disturb, Translate, CheckRevision, Batch;
    if a.BatchOf? { BatchDisk(exec, p, a.batch, a.batchIO); }
  }

  lemma {:induction false} EntryLasts<C(!new)>(exec: (Command, C) -> Effect<C>, ttl: int, p: Pipeline<C>,
                                         attempts: seq<Attempt<C>>, i: nat, n: nat, k: Key)
    requires i < n <= |attempts|
    requires Presents(attempts[i], k) && Applies(exec, ttl, Run(exec, ttl, p, attempts[..i]), attempts[i])
    requires forall m :: i < m < n && attempts[m].Mutation? ==>
               attempts[m].io.lookupAt <= attempts[i].io.storeAt + ttl
    ensures var q := Run(exec, ttl, p, attempts[..n]);
            var r := ReplyOf(exec, ttl, Run(exec, ttl, p, attempts[..i]), attempts[i]);
            r.Ok? && k in q.entries && q.entries[k] == Entry(r.value, attempts[i].io.storeAt + ttl)
  {
    hide Step, Applies, Presents, ReplyOf;
    assert attempts[..n][..n - 1] == attempts[..n - 1];
    if n == i + 1 {
      AppliedStores(exec, ttl, Run(exec, ttl, p, attempts[..i]), attempts[i], k);
    } else {
      EntryLasts(exec, ttl, p, attempts, i, n - 1, k);
      LiveEntryAnswers(exec, ttl, Run(exec, ttl, p, attempts[..n - 1]), attempts[n - 1], k);
    }
  }

  /** Until the time to live has passed, every attempt that presents the same
      actor, route and key gets the reply of the first, and changes nothing. */
  lemma RepliesRepeat<C(!new)>(exec: (Command, C) -> Effect<C>, ttl: int, p: Pipeline<C>,
                         attempts: seq<Attempt<C>>, i: nat, j: nat, k: Key)
    requires i < j < |attempts| && ClockOk(attempts)
    requires Presents(attempts[i], k) && Applies(exec, ttl, Run(exec, ttl, p, attempts[..i]), attempts[i])
    requires Presents(attempts[j], k) && attempts[j].io.lookupAt <= attempts[i].io.storeAt + ttl
    ensures var before := Run(exec, ttl, p, attempts[..j]);
            && ReplyOf(exec, ttl, before, attempts[j])
               == ReplyOf(exec, ttl, Run(exec, ttl, p, attempts[..i]), attempts[i])
            && Step(exec, ttl, before, attempts[j]).disk == before.disk
            && !Applies(exec, ttl, before, attempts[j])
  {
    assert attempts[j].Mutation?;
    hide Step, Applies, ReplyOf, Presents;
    EntryLasts(exec, ttl, p, attempts, i, j, k);
    LiveEntryAnswers(exec, ttl, Run(exec, ttl, p, attempts[..j]), attempts[j], k);
  }

  /** Two executions of the same actor, route and key are more than the time to
      live apart. */
  lemma ExecutionsFarApart<C(!new)>(exec: (Command, C) -> Effect<C>, ttl: int, p: Pipeline<C>,
                              attempts: seq<Attempt<C>>, i: nat, j: nat, k: Key)
    requires i < j < |attempts| && ClockOk(attempts)
    requires Presents(attempts[i], k) && Applies(exec, ttl, Run(exec, ttl, p, attempts[..i]), attempts[i])
    requires Presents(attempts[j], k) && Applies(exec, ttl, Run(exec, ttl, p, attempts[..j]), attempts[j])
    ensures attempts[j].io.lookupAt > attempts[i].io.storeAt + ttl
  {
    hide Step, Applies, ReplyOf;
    if attempts[j].io.lookupAt <= attempts[i].io.storeAt + ttl {
      RepliesRepeat(exec, ttl, p, attempts, i, j, k);
    }
  }

  // ----- Published events ---------------------------------------------------------

  function PayloadOf(route: string, revision: int, actor: string): Payload {
    StateChange(DomainOf(route), route, revision, actor)
  }

  /** `publishMutationEvent` over a list of fired events. */
  function Published(fired: seq<MutationEvent>): seq<Payload> {
    if fired == [] then []
    else
      var ev := fired[|fired| - 1];
      Published(fired[..|fired| - 1])
      + if ev.outcome == Success && ev.resulting.Some?
        then [PayloadOf(ev.route, ev.resulting.value, ev.actor)] else []
  }

  lemma {:induction false} PublishedAppend(a: seq<MutationEvent>, b: seq<MutationEvent>)
    ensures Published(a + b) == Published(a) + Published(b)
  {
    hide PayloadOf;
    if b == [] {
      assert a + b == a;
    } else {
      PublishedAppend(a, b[..|b| - 1]);
      assert (a + b)[..|a + b| - 1] == a + b[..|b| - 1];
    }
  }

  /** One payload per command of a batch. */
  function BatchPayloads(commands: seq<Command>, revision: int, actor: string): seq<Payload> {
    if commands == [] then []
    else BatchPayloads(commands[..|commands| - 1], revision, actor)
         + [PayloadOf(commands[|commands| - 1].route, revision, actor)]
  }

  /** What an attempt commits: its own change if it is a mutation whose revision
      could be read back, one change per sub-request if it is a batch. */
  function Committed<C>(exec: (Command, C) -> Effect<C>, ttl: int, p: Pipeline<C>, a: Attempt<C>): seq<Payload> {
    if !Applies(exec, ttl, p, a) then []
    else
      match a
      case Mutation(req, io) =>
        var revision := Single(exec, ttl, p, req, io).reply.value.revision;
        if revision.Some? then [PayloadOf(req.route, revision.value, req.actor)] else []
      case BatchOf(req, io) =>
        var plan := Preflight(req.requests, req.granted);
        if plan.Planned?
        then BatchPayloads(plan.commands, Batch(exec, p, req, io).reply.revision, req.actor) else []
      case Outside(_) => []
  }

  function AllCommitted<C>(exec: (Command, C) -> Effect<C>, ttl: int, p: Pipeline<C>, attempts: seq<Attempt<C>>)
    : seq<Payload>
  {
    if attempts == [] then []
    else
      var prior := attempts[..|attempts| - 1];
      AllCommitted(exec, ttl, p, prior)
      + Committed(exec, ttl, Run(exec, ttl, p, prior), attempts[|attempts| - 1])
  }

  /** Failures never publish, successes once per sub-request. */
  lemma {:induction false} FanOutPublishes(req: BatchRequest, commands: seq<Command>, expected: Option<int>,
                                           resulting: Option<int>, outcome: Outcome, status: int)
    ensures var events := FanOut(req, commands, expected, resulting, outcome, status);
            Published(events) == if outcome == Success && resulting.Some?
                                 then BatchPayloads(commands, resulting.value, req.actor) else []
  {
    hide DomainOf;
    if commands != [] {
      FanOutPublishes(req, commands[..|commands| - 1], expected, resulting, outcome, status);
      var events := FanOut(req, commands, expected, resulting, outcome, status);
      assert events[..|events| - 1]
             == FanOut(req, commands[..|commands| - 1], expected, resulting, outcome, status);
    }
  }

  lemma OneEvent(fired: seq<MutationEvent>, ev: MutationEvent)
    ensures Published(fired + [ev])
            == Published(fired) + if ev.outcome == Success && ev.resulting.Some?
                                  then [PayloadOf(ev.route, ev.resulting.value, ev.actor)] else []
  {
    assert (fired + [ev])[..|fired|] == fired;
  }

  lemma SinglePublishes<C>(exec: (Command, C) -> Effect<C>, ttl: int, p: Pipeline<C>, req: Request, io: SingleIO<C>)
    ensures var a := Mutation(req, io);
            Published(Step(exec, ttl, p, a).fired) == Published(p.fired) + Committed(exec, ttl, p, a)
  {
    hide Published, ParseIfMatch, RequiredScope, Disturb, Translate, CheckRevision, DomainOf, Status, Preflight, Batch;
    var q := Step(exec, ttl, p, Mutation(req, io));
    assert |q.fired| == |p.fired| + 1;
    var ev := q.fired[|p.fired|];
    assert q.fired == p.fired + [ev];
    OneEvent(p.fired, ev);
  }

  lemma RefusalIsSilent<C>(p: Pipeline<C>, req: BatchRequest, commands: seq<Command>, expected: Option<int>, f: Failure)
    ensures Published(RefuseBatch(p, req, commands, expected, f).next.fired) == Published(p.fired)
  {
    FanOutPublishes(req, commands, expected, None, Failed, Status(f));
    PublishedAppend(p.fired, FanOut(req, commands, expected, None, Failed, Status(f)));
  }

  lemma OneRefusalIsSilent<C>(p: Pipeline<C>, req: BatchRequest, cmd: Command, expected: Option<int>,
                              i: nat, n: nat, f: Failure)
    ensures Published(RefuseOne(p, req, cmd, expected, i, n, f).next.fired) == Published(p.fired)
  {
    OneEvent(p.fired, SubEvent(req, cmd, expected, None, Failed, Status(f)));
  }

  lemma ApplyBatchPublishes<C(!new)>(exec: (Command, C) -> Effect<C>, p: Pipeline<C>, req: BatchRequest,
                                     commands: seq<Command>, io: BatchIO<C>)
    ensures var q := ApplyBatch(exec, p, req, commands, io);
            Published(q.next.fired) == Published(p.fired)
              + if q.reply.Applied? then BatchPayloads(commands, q.reply.revision, req.actor) else []
  {
    hide Published, ParseIfMatch, Disturb, Translate, FirstFailure, Outputs, ContentAfter, FanOut, BatchPayloads;
    var expected := Expected(ParseIfMatch(req.ifMatch));
    forall p1: Pipeline<C>, f ensures
      Published(RefuseBatch(p1, req, commands, expected, f).next.fired) == Published(p1.fired)
    {
      RefusalIsSilent(p1, req, commands, expected, f);
    }
    forall p1: Pipeline<C>, cmd, i: nat, f ensures
      Published(RefuseOne(p1, req, cmd, expected, i, i, f).next.fired) == Published(p1.fired)
    {
      OneRefusalIsSilent(p1, req, cmd, expected, i, i, f);
    }
    var resulting := Some(p.disk.revision + 1);
    FanOutPublishes(req, commands, expected, resulting, Success, 200);
    PublishedAppend(p.fired, FanOut(req, commands, expected, resulting, Success, 200));
  }

  lemma BatchPublishes<C(!new)>(exec: (Command, C) -> Effect<C>, ttl: int, p: Pipeline<C>, req: BatchRequest,
                                io: BatchIO<C>)
    ensures var a := BatchOf(req, io);
            Published(Step(exec, ttl, p, a).fired) == Published(p.fired) + Committed(exec, ttl, p, a)
  {
    hide Published, ParseIfMatch, ApplyBatch, RefuseBatch, RefuseOne, Vet, BatchPayloads;
    match Preflight(req.requests, req.granted)
    case Vetoed(i, f) =>
      OneRefusalIsSilent(p, req, ClaimedTarget(req.requests[i]), None, i, 0, f);
      RefusalReplies(p, req, ClaimedTarget(req.requests[i]), [], None, i, 0, f);
    case Planned(commands) =>
      ApplyBatchPublishes(exec, p, req, commands, io);
      forall e, f ensures
        var r := RefuseBatch(p, req, commands, e, f);
        Published(r.next.fired) == Published(p.fired) && r.reply.Rejected?
      {
        RefusalIsSilent(p, req, commands, e, f);
        RefusalReplies(p, req, Command("", []), commands, e, 0, 0, f);
      }
  }

  lemma RefusalReplies<C>(p: Pipeline<C>, req: BatchRequest, cmd: Command, commands: seq<Command>,
                          expected: Option<int>, i: nat, n: nat, f: Failure)
    ensures RefuseBatch(p, req, commands, expected, f).reply.Rejected?
    ensures RefuseOne(p, req, cmd, expected, i, n, f).reply.Rejected?
  {
  }

  /** The published "state" events are exactly the committed changes, in the order
      they were committed; failures, dry runs and replays contribute none. */
  lemma {:induction false} PublishedIsCommitted<C(!new)>(exec: (Command, C) -> Effect<C>, ttl: int, p: Pipeline<C>,
                                                   attempts: seq<Attempt<C>>)
    ensures Published(Run(exec, ttl, p, attempts).fired)
            == Published(p.fired) + AllCommitted(exec, ttl, p, attempts)
  {
    hide Step, Committed, Published;
    if attempts != [] {
      var prior := attempts[..|attempts| - 1];
      PublishedIsCommitted(exec, ttl, p, prior);
      StepPublishes(exec, ttl, Run(exec, ttl, p, prior), attempts[|attempts| - 1]);
    }
  }

  lemma StepPublishes<C(!new)>(exec: (Command, C) -> Effect<C>, ttl: int, p: Pipeline<C>, a: Attempt<C>)
    ensures Published(Step(exec, ttl, p, a).fired) == Published(p.fired) + Committed(exec, ttl, p, a)
  {
    match a
    case Mutation(req, io) => SinglePublishes(exec, ttl, p, req, io);
    case BatchOf(req, io) => BatchPublishes(exec, ttl, p, req, io);
    case Outside(_) =>
  }

  // ----- Revisions of published events ---------------------------------------------

  ghost predicate Within(payloads: seq<Payload>, low: int, high: int) {
    forall i :: 0 <= i < |payloads| ==>
      payloads[i].StateChange? && low <= payloads[i].revision <= high
  }

  ghost predicate NonDecreasing(payloads: seq<Payload>) {
    forall i, j :: 0 <= i < j < |payloads| && payloads[i].StateChange? && payloads[j].StateChange? ==>
      payloads[i].revision <= payloads[j].revision
  }

  lemma {:induction false} BatchPayloadsSame(commands: seq<Command>, revision: int, actor: string)
    ensures Within(BatchPayloads(commands, revision, actor), revision, revision)
  {
    if commands != [] { BatchPayloadsSame(commands[..|commands| - 1], revision, actor); }
  }

  lemma CommitReports<C>(exec: (Command, C) -> Effect<C>, ttl: int, p: Pipeline<C>, req: Request, io: SingleIO<C>)
    requires Commit(exec, ttl, p, req, io).reply.Ok?
    ensures var q := Commit(exec, ttl, p, req, io);
            q.reply.value.revision.Some? ==> q.reply.value.revision.value == q.next.disk.revision
  {
    hide ParseIfMatch, Disturb;
  }

  lemma CommittedInRange<C>(exec: (Command, C) -> Effect<C>, ttl: int, p: Pipeline<C>, a: Attempt<C>)
    ensures Within(Committed(exec, ttl, p, a), p.disk.revision, Step(exec, ttl, p, a).disk.revision)
    ensures NonDecreasing(Committed(exec, ttl, p, a))
  {
    StepRaises(exec, ttl, p, a);
    match a
    case Mutation(req, io) =>
      hide ParseIfMatch, Commit, RequiredScope, Translate, DomainOf;
      if Applies(exec, ttl, p, a) {
        var l := Find(p.entries, req.Triple(), io.lookupAt);
        var q := if req.idempotencyKey == "" then p else p.(entries := l.entries);
        assert Single(exec, ttl, p, req, io) == Commit(exec, ttl, q, req, io);
        CommitReports(exec, ttl, q, req, io);
      }
    case BatchOf(req, io) =>
      BatchAllOrNothing(exec, p, req, io);
      hide Batch, Preflight, BatchPayloads, DomainOf;
      if Applies(exec, ttl, p, a) && Preflight(req.requests, req.granted).Planned? {
        BatchPayloadsSame(Preflight(req.requests, req.granted).commands,
                          Batch(exec, p, req, io).reply.revision, req.actor);
      }
    case Outside(_) =>
  }

  /** Their revisions never decrease, and none exceeds the revision on disk. */
  lemma {:induction false} PublishedRevisionsAscend<C>(exec: (Command, C) -> Effect<C>, ttl: int, p: Pipeline<C>,
                                                       attempts: seq<Attempt<C>>)
    ensures var all := AllCommitted(exec, ttl, p, attempts);
            NonDecreasing(all) && Within(all, p.disk.revision, Run(exec, ttl, p, attempts).disk.revision)
  {
    hide Step, Committed;
    if attempts != [] {
      var prior := attempts[..|attempts| - 1];
      var a := attempts[|attempts| - 1];
      PublishedRevisionsAscend(exec, ttl, p, prior);
      var q := Run(exec, ttl, p, prior);
      StepRaises(exec, ttl, q, a);
      CommittedInRange(exec, ttl, q, a);
      RunRaises(exec, ttl, p, prior, 0);
      assert prior[..0] == [];
    }
  }
}
