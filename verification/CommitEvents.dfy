/** What the observers are told, field by field. */
module CommitEvents {
  import opened Prelude
  import opened CommitPipeline
  import opened CommitTheorems
  import opened CommitReplies
  import opened CommitHistory
  import EventStream
  import Text

  /** The first word of a route is its domain. */
  lemma DomainIsFirstWord(domain: string, rest: string)
    requires ' ' !in domain
    ensures DomainOf(domain) == domain && DomainOf(domain + " " + rest) == domain
  {
    Text.SplitPrefix(domain, rest, ' ');
    Text.SplitWhole(domain, ' ');
    assert domain + [' '] + rest == domain + " " + rest;
  }

  // ----- Single mutations -------------------------------------------------------------------------

  /** How a mutation's event is labelled. */
  function Label<C>(p: Pipeline<C>, req: Request, io: SingleIO<C>, ok: bool): Outcome {
    if !Authorised(req.route, req.granted) then Failed
    else if req.dryRun then DryRun
    else if Replayed(p, req, io) then Replay
    else if ok then Success
    else Failed
  }

  /** The event tells of the request as it was made and of the reply that is given. */
  ghost predicate TellsOf<C>(ev: MutationEvent, p: Pipeline<C>, req: Request, io: SingleIO<C>,
                             reply: Result<Mutated, Failure>)
  {
    && ev.route == req.route && ev.args == req.args && ev.actor == req.actor && ev.correlationId == req.correlationId
    && ev.outcome == Label(p, req, io, reply.Ok?)
    && ev.status == (if reply.Ok? then 200 else Status(reply.error))
    && ev.resulting == (if reply.Ok? then reply.value.revision else None)
    && ev.expected == if Authorised(req.route, req.granted) && !req.dryRun && !Replayed(p, req, io)
                      then Expected(ParseIfMatch(req.ifMatch)) else None
  }

  lemma CommitFires<C>(exec: (Command, C) -> Effect<C>, ttl: int, p: Pipeline<C>, req: Request, io: SingleIO<C>)
    requires Authorised(req.route, req.granted) && !req.dryRun
    ensures var r := Commit(exec, ttl, p, req, io);
            && |r.next.fired| == |p.fired| + 1 && r.next.fired[..|p.fired|] == p.fired
            && var ev := r.next.fired[|p.fired|];
               && ev.route == req.route && ev.args == req.args && ev.actor == req.actor
               && ev.correlationId == req.correlationId
               && ev.outcome == (if r.reply.Ok? then Success else Failed)
               && ev.status == (if r.reply.Ok? then 200 else Status(r.reply.error))
               && ev.resulting == (if r.reply.Ok? then r.reply.value.revision else None)
               && ev.expected == Expected(ParseIfMatch(req.ifMatch))
  {
    hide ParseIfMatch, Disturb, Status, Translate;
  }

  /** Every mutation, whatever becomes of it, fires exactly one event, and the event tells of
      it. */
  lemma MutationFiresOnce<C>(exec: (Command, C) -> Effect<C>, ttl: int, p: Pipeline<C>, req: Request, io: SingleIO<C>)
    ensures var r := Single(exec, ttl, p, req, io);
            && |r.next.fired| == |p.fired| + 1 && r.next.fired[..|p.fired|] == p.fired
            && TellsOf(r.next.fired[|p.fired|], p, req, io, r.reply)
  {
    var l := Find(p.entries, req.Triple(), io.lookupAt);
    if Authorised(req.route, req.granted) && !req.dryRun {
      CommitFires(exec, ttl, p, req, io);
      CommitFires(exec, ttl, p.(entries := l.entries), req, io);
    }
    hide Commit, RequiredScope, ParseIfMatch, Status, Translate;
  }

  // ----- Batches ----------------------------------------------------------------------------------

  lemma {:induction false} FanOutTells(req: BatchRequest, commands: seq<Command>, expected: Option<int>,
                                       resulting: Option<int>, outcome: Outcome, status: int, i: nat)
    requires i < |commands|
    ensures FanOut(req, commands, expected, resulting, outcome, status)[i]
            == MutationEvent(commands[i].route, commands[i].args, req.actor, req.correlationId, expected, resulting,
                             outcome, status)
  {
    if i < |commands| - 1 {
      FanOutTells(req, commands[..|commands| - 1], expected, resulting, outcome, status, i);
    }
  }

  /** An applied batch fires one success per sub-request, in order, each with the sub-request's
      own command, the caller and the one new revision. */
  lemma AppliedBatchFires<C>(exec: (Command, C) -> Effect<C>, p: Pipeline<C>, req: BatchRequest, io: BatchIO<C>, i: nat)
    requires Batch(exec, p, req, io).reply.Applied? && i < |req.requests|
    ensures var r, plan := Batch(exec, p, req, io), Preflight(req.requests, req.granted);
            && plan.Planned? && |r.next.fired| == |p.fired| + |req.requests| && r.next.fired[..|p.fired|] == p.fired
            && r.next.fired[|p.fired| + i]
               == MutationEvent(plan.commands[i].route, plan.commands[i].args, req.actor, req.correlationId,
                                Expected(ParseIfMatch(req.ifMatch)), Some(p.disk.revision + 1), Success, 200)
            && r.reply.revision == p.disk.revision + 1
  {
    var plan := Preflight(req.requests, req.granted);
    hide Preflight, ParseIfMatch, FirstFailure, Disturb, ContentAfter, Outputs, FanOut, Vet, TranslateSub;
    if plan.Planned? {
      FanOutTells(req, plan.commands, Expected(ParseIfMatch(req.ifMatch)), Some(p.disk.revision + 1), Success, 200, i);
    }
  }

  /** n failures of this request were fired, with the status of this failure. */
  ghost predicate Failures(before: seq<MutationEvent>, after: seq<MutationEvent>, req: BatchRequest, f: Failure,
                           n: nat)
  {
    && |after| == |before| + n && after[..|before|] == before
    && forall i :: |before| <= i < |after| ==>
         && after[i].outcome == Failed && after[i].status == Status(f) && after[i].resulting == None
         && after[i].actor == req.actor && after[i].correlationId == req.correlationId
  }

  lemma RefuseBatchFires<C>(p: Pipeline<C>, req: BatchRequest, commands: seq<Command>, e: Option<int>, f: Failure)
    ensures var r := RefuseBatch(p, req, commands, e, f);
            r.reply == Rejected(f) && Failures(p.fired, r.next.fired, req, f, |commands|)
  {
    hide FanOut, Status;
    forall j: nat | j < |commands|
      ensures FanOut(req, commands, e, None, Failed, Status(f))[j].outcome == Failed
      ensures FanOut(req, commands, e, None, Failed, Status(f))[j].status == Status(f)
      ensures FanOut(req, commands, e, None, Failed, Status(f))[j].resulting == None
      ensures FanOut(req, commands, e, None, Failed, Status(f))[j].actor == req.actor
      ensures FanOut(req, commands, e, None, Failed, Status(f))[j].correlationId == req.correlationId
    {
      FanOutTells(req, commands, e, None, Failed, Status(f), j);
    }
  }

  lemma RefuseOneFires<C>(p: Pipeline<C>, req: BatchRequest, cmd: Command, e: Option<int>, i: nat, n: nat, f: Failure)
    ensures var r := RefuseOne(p, req, cmd, e, i, n, f);
            && r.reply == Rejected(SubRequestFailed(i, n, f))
            && Failures(p.fired, r.next.fired, req, SubRequestFailed(i, n, f), 1)
  {
  }

  /** How many failures a refusal fires. */
  function FailureCount(f: Failure, n: nat): nat {
    if f == BatchEmpty then 0 else if f.SubRequestFailed? then 1 else n
  }

  lemma ApplyBatchFires<C>(exec: (Command, C) -> Effect<C>, p: Pipeline<C>, req: BatchRequest, commands: seq<Command>,
                           io: BatchIO<C>)
    ensures var r := ApplyBatch(exec, p, req, commands, io);
            r.reply.Rejected? ==>
              Failures(p.fired, r.next.fired, req, r.reply.failure, FailureCount(r.reply.failure, |commands|))
  {
    var e := Expected(ParseIfMatch(req.ifMatch));
    var atCopy := Disturb(p.disk, io.beforeCopy);
    var atRecheck := Disturb(atCopy, io.beforeRecheck);
    var p1, p2 := p.(disk := atCopy), p.(disk := atRecheck);
    var race := RevisionMismatch(p.disk.revision, atRecheck.revision);
    RefuseBatchFires(p1, req, commands, e, CopyFailed);
    RefuseBatchFires(p1, req, commands, e, StateUnreadable);
    RefuseBatchFires(p2, req, commands, e, RevisionUnreadable);
    RefuseBatchFires(p2, req, commands, e, race);
    RefuseBatchFires(p2, req, commands, e, SaveFailed);
    var failure := FirstFailure(exec, commands, atCopy.content);
    if failure.Some? {
      var i := failure.value;
      var cause := Translate(exec(commands[i], ContentAfter(exec, commands[..i], atCopy.content)));
      if cause.Err? { RefuseOneFires(p1, req, commands[i], e, i, i, cause.error); }
    }
    hide ParseIfMatch, Disturb, FirstFailure, ContentAfter, Outputs, FanOut, RefuseBatch, RefuseOne, Failures;
  }

  /** A refused batch fires failures only, each with the caller and the status of the reply:
      none if it is empty, one for a sub-request that is refused or fails, and otherwise one
      per sub-request. */
  lemma RefusedBatchFires<C>(exec: (Command, C) -> Effect<C>, p: Pipeline<C>, req: BatchRequest, io: BatchIO<C>)
    ensures var r := Batch(exec, p, req, io);
            r.reply.Rejected? ==>
              Failures(p.fired, r.next.fired, req, r.reply.failure, FailureCount(r.reply.failure, |req.requests|))
  {
    hide Preflight, ParseIfMatch, ApplyBatch, Failures, RefuseBatch, RefuseOne, ClaimedTarget;
    if req.requests != [] {
      match Preflight(req.requests, req.granted) {
        case Vetoed(i, f) => RefuseOneFires(p, req, ClaimedTarget(req.requests[i]), None, i, 0, f);
        case Planned(commands) =>
          RefuseBatchFires(p, req, commands, None, RevisionUnreadable);
          RefuseBatchFires(p, req, commands, None, IfMatchInvalid);
          ApplyBatchFires(exec, p, req, commands, io);
          var m := ParseIfMatch(req.ifMatch);
          if m.Expecting? {
            RefuseBatchFires(p, req, commands, Some(m.revision), RevisionMismatch(m.revision, p.disk.revision));
          }
      }
    } else {
      NoFailures(p, req);
    }
  }

  lemma NoFailures<C>(p: Pipeline<C>, req: BatchRequest)
    ensures Failures(p.fired, p.fired, req, BatchEmpty, 0)
  {
  }

  /** A batch with a sub-request that cannot be admitted fails at the first such one, under
      the command it asks for or, if there is none, under what it names. */
  lemma VetoedBatchTells<C>(exec: (Command, C) -> Effect<C>, p: Pipeline<C>, req: BatchRequest, io: BatchIO<C>)
    requires req.requests != [] && Preflight(req.requests, req.granted).Vetoed?
    ensures var r, i := Batch(exec, p, req, io), Preflight(req.requests, req.granted).index;
            var sub := req.requests[i];
            && Vet(sub, req.granted).Err? && (forall j :: 0 <= j < i ==> Vet(req.requests[j], req.granted).Ok?)
            && r.reply == Rejected(SubRequestFailed(i, 0, Vet(sub, req.granted).error)) && r.next.disk == p.disk
            && |r.next.fired| == |p.fired| + 1
            && var ev := r.next.fired[|p.fired|];
               if TranslateSub(sub).Ok? then Command(ev.route, ev.args) == TranslateSub(sub).value
               else ev.route == sub.verb + " " + sub.resource && ev.args == []
  {
    VetoedFirst(req.requests, req.granted);
    hide Preflight, Vet, TranslateSub, Status;
  }

  /** A batch whose commands do not all succeed on its copy fails at the first that does not,
      after as many successes as there are commands before it. */
  lemma FailedBatchTells<C>(exec: (Command, C) -> Effect<C>, p: Pipeline<C>, req: BatchRequest, commands: seq<Command>,
                            io: BatchIO<C>, i: nat)
    requires io.copyOk && FirstFailure(exec, commands, Disturb(p.disk, io.beforeCopy).content) == Some(i)
    ensures var r := ApplyBatch(exec, p, req, commands, io);
            && r.reply.Rejected? && r.reply.failure.SubRequestFailed?
            && r.reply.failure.index == i && r.reply.failure.succeeded == i && |r.next.fired| == |p.fired| + 1
            && var ev := r.next.fired[|p.fired|];
               ev.route == commands[i].route && ev.args == commands[i].args
               && ev.expected == Expected(ParseIfMatch(req.ifMatch))
  {
    hide ParseIfMatch, Disturb, FirstFailure, ContentAfter, Outputs, FanOut, Status, RefuseBatch;
  }

  // ----- Published payloads ------------------------------------------------------------------------

  /** What the stream is told of an applied mutation whose revision was read back: its own
      domain, route, revision and actor. */
  lemma PublishedPayload<C>(exec: (Command, C) -> Effect<C>, ttl: int, p: Pipeline<C>, req: Request, io: SingleIO<C>)
    requires Applies(exec, ttl, p, Mutation(req, io)) && Single(exec, ttl, p, req, io).reply.value.revision.Some?
    ensures var fired := Single(exec, ttl, p, req, io).next.fired;
            && |Published(fired)| == |Published(p.fired)| + 1
            && var payload := Published(fired)[|Published(p.fired)|];
               && payload.StateChange? && payload.domain == DomainOf(req.route) && payload.route == req.route
               && payload.revision == Single(exec, ttl, p, req, io).reply.value.revision.value
               && payload.actor == req.actor
  {
    SinglePublishes(exec, ttl, p, req, io);
    hide Single, Published, DomainOf;
  }
}
