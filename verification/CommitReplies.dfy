/** When a request is answered 412 or 403, exactly. */
module CommitReplies {
  import opened Prelude
  import opened CommitPipeline
  import opened CommitTheorems
  import Text

  predicate Answers<T>(reply: Result<T, Failure>, status: int) { reply.Err? && Status(reply.error) == status }

  predicate BatchAnswers(reply: BatchReply, status: int) { reply.Rejected? && Status(reply.failure) == status }

  /** The request names a revision other than this one. */
  predicate Stale(ifMatch: string, revision: int) {
    ParseIfMatch(ifMatch).Expecting? && ParseIfMatch(ifMatch).revision != revision
  }

  // ----- Single mutations --------------------------------------------------------------------------

  lemma TranslateStatus<C>(e: Effect<C>)
    ensures !Answers(Translate(e), 412) && !Answers(Translate(e), 403)
  {
  }

  lemma CommitStatus<C>(exec: (Command, C) -> Effect<C>, ttl: int, p: Pipeline<C>, req: Request, io: SingleIO<C>)
    ensures var reply := Commit(exec, ttl, p, req, io).reply;
            && (Answers(reply, 412) <==> io.revisionReadable && Stale(req.ifMatch, p.disk.revision))
            && !Answers(reply, 403)
  {
    var before := Disturb(p.disk, io.beforeExecute);
    TranslateStatus(exec(req.Routed(), before.content));
    hide ParseIfMatch, Disturb, Translate;
  }

  /** A mutation is answered 412 exactly when it is authorised, no dry run and no replay, and
      carries a readable If-Match revision other than the readable one on disk; it is
      answered 403 exactly when its scope is declared and not granted. */
  lemma SingleStatus<C>(exec: (Command, C) -> Effect<C>, ttl: int, p: Pipeline<C>, req: Request, io: SingleIO<C>)
    ensures Answers(Single(exec, ttl, p, req, io).reply, 412) <==>
              && Authorised(req.route, req.granted) && !req.dryRun && !Replayed(p, req, io)
              && io.revisionReadable && Stale(req.ifMatch, p.disk.revision)
    ensures Answers(Single(exec, ttl, p, req, io).reply, 403) <==>
              RequiredScope(req.route).Some? && RequiredScope(req.route).value !in req.granted
  {
    var l := Find(p.entries, req.Triple(), io.lookupAt);
    CommitStatus(exec, ttl, p, req, io);
    CommitStatus(exec, ttl, p.(entries := l.entries), req, io);
    TranslateStatus(exec(req.Routed(), p.disk.content));
    hide Commit, RequiredScope, Stale, Translate;
  }

  // ----- Batches -------------------------------------------------------------------------------------

  /** A veto is the first sub-request's that cannot be vetted. */
  lemma {:induction false} VetoedFirst(subs: seq<SubRequest>, granted: set<Scope>)
    ensures match Preflight(subs, granted)
            case Planned(_) => forall i :: 0 <= i < |subs| ==> Vet(subs[i], granted).Ok?
            case Vetoed(n, f) => Vet(subs[n], granted) == Err(f) && forall i :: 0 <= i < n ==> Vet(subs[i], granted).Ok?
  {
    hide Vet;
    if subs != [] { VetoedFirst(subs[..|subs| - 1], granted); }
  }

  lemma TranslatedRoute(sub: SubRequest)
    ensures match TranslateSub(sub) case Ok(cmd) => cmd.route == "pool create" case Err(f) => Status(f) == 400
  {
  }

  lemma VetStatus(sub: SubRequest, granted: set<Scope>)
    ensures Answers(Vet(sub, granted), 403) <==> TranslateSub(sub).Ok? && Authoring !in granted
    ensures !Answers(Vet(sub, granted), 412)
    ensures Authoring !in granted ==> Vet(sub, granted).Err?
  {
    PoolDomain();
    TranslatedRoute(sub);
    hide RequiredScope, TranslateSub;
  }

  lemma PoolDomain()
    ensures RequiredScope("pool create") == Some(Authoring)
  {
    hide Text.Split, DOMAIN_SCOPE;
    Text.SplitPrefix("pool", "create", ' ');
    assert "pool" + [' '] + "create" == "pool create";
    assert DomainOf("pool create") == "pool";
    PoolScope();
  }

  lemma PoolScope()
    ensures "pool" in DOMAIN_SCOPE && DOMAIN_SCOPE["pool"] == Authoring
  {
  }

  /** Another process saved between the reading of the base revision and the re-check. */
  predicate Raced<C>(io: BatchIO<C>) { io.beforeCopy != [] || io.beforeRecheck != [] }

  lemma RacedIff<C>(disk: Show<C>, io: BatchIO<C>)
    ensures Disturb(Disturb(disk, io.beforeCopy), io.beforeRecheck).revision != disk.revision <==> Raced(io)
  {
    DisturbRaises(disk, io.beforeCopy);
    DisturbRaises(Disturb(disk, io.beforeCopy), io.beforeRecheck);
  }

  /** The batch runs through on its copy, and the re-check finds that it was raced. */
  predicate LosesRace<C>(exec: (Command, C) -> Effect<C>, disk: Show<C>, commands: seq<Command>, io: BatchIO<C>) {
    && io.copyOk && FirstFailure(exec, commands, Disturb(disk, io.beforeCopy).content) == None
    && io.loadOk && io.raceReadable && Raced(io)
  }

  lemma ApplyStatus<C>(exec: (Command, C) -> Effect<C>, p: Pipeline<C>, req: BatchRequest, commands: seq<Command>,
                       io: BatchIO<C>)
    ensures var reply := ApplyBatch(exec, p, req, commands, io).reply;
            && (BatchAnswers(reply, 412) <==> LosesRace(exec, p.disk, commands, io))
            && !BatchAnswers(reply, 403)
  {
    RacedIff(p.disk, io);
    var atCopy := Disturb(p.disk, io.beforeCopy);
    match FirstFailure(exec, commands, atCopy.content) {
      case Some(i) =>
        var e := exec(commands[i], ContentAfter(exec, commands[..i], atCopy.content));
        TranslateStatus(e);
        hide ParseIfMatch, Disturb, Translate, FirstFailure, Outputs, ContentAfter, FanOut, Raced;
      case None =>
        hide ParseIfMatch, Disturb, Translate, FirstFailure, Outputs, ContentAfter, FanOut, Raced;
    }
  }

  /** A batch is answered 412 exactly when its sub-requests are all planned, the base revision
      is readable, and either its If-Match names another revision, or it does not and another
      process saves before the re-check of a batch whose commands all succeed.  It is
      answered 403 exactly when its first sub-request can be translated and the caller lacks
      the authoring scope. */
  lemma BatchStatus<C>(exec: (Command, C) -> Effect<C>, p: Pipeline<C>, req: BatchRequest, io: BatchIO<C>)
    ensures var plan := Preflight(req.requests, req.granted);
            BatchAnswers(Batch(exec, p, req, io).reply, 412) <==>
              && req.requests != [] && plan.Planned? && io.baseReadable && !ParseIfMatch(req.ifMatch).Malformed?
              && (Stale(req.ifMatch, p.disk.revision) || LosesRace(exec, p.disk, plan.commands, io))
    ensures BatchAnswers(Batch(exec, p, req, io).reply, 403) <==>
              req.requests != [] && TranslateSub(req.requests[0]).Ok? && Authoring !in req.granted
  {
    var plan := Preflight(req.requests, req.granted);
    EmptyReply(exec, p, req, io);
    hide Vet, TranslateSub, Batch, Preflight, ParseIfMatch, LosesRace, Stale;
    if req.requests != [] {
      VetoedFirst(req.requests, req.granted);
      VetStatus(req.requests[0], req.granted);
      match plan {
        case Planned(commands) => PlannedStatus(exec, p, req, commands, io);
        case Vetoed(i, f) =>
          VetStatus(req.requests[i], req.granted);
          VetoedReply(exec, p, req, io);
      }
    }
  }

  lemma EmptyReply<C>(exec: (Command, C) -> Effect<C>, p: Pipeline<C>, req: BatchRequest, io: BatchIO<C>)
    ensures req.requests == [] ==> Batch(exec, p, req, io).reply == Rejected(BatchEmpty)
  {
    hide Preflight, ApplyBatch, ParseIfMatch;
  }

  lemma VetoedReply<C>(exec: (Command, C) -> Effect<C>, p: Pipeline<C>, req: BatchRequest, io: BatchIO<C>)
    requires req.requests != [] && Preflight(req.requests, req.granted).Vetoed?
    ensures var f := Preflight(req.requests, req.granted).failure;
            forall status :: BatchAnswers(Batch(exec, p, req, io).reply, status) <==> Status(f) == status
  {
    hide Preflight, ClaimedTarget;
  }

  lemma PlannedStatus<C>(exec: (Command, C) -> Effect<C>, p: Pipeline<C>, req: BatchRequest, commands: seq<Command>,
                         io: BatchIO<C>)
    requires req.requests != [] && Preflight(req.requests, req.granted) == Planned(commands)
    ensures BatchAnswers(Batch(exec, p, req, io).reply, 412) <==>
              && io.baseReadable && !ParseIfMatch(req.ifMatch).Malformed?
              && (Stale(req.ifMatch, p.disk.revision) || LosesRace(exec, p.disk, commands, io))
    ensures !BatchAnswers(Batch(exec, p, req, io).reply, 403)
  {
    ApplyStatus(exec, p, req, commands, io);
    hide ApplyBatch, Preflight, ParseIfMatch, LosesRace, FanOut;
  }
}
