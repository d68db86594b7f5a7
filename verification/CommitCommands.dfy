/** What reaches a routed command, and what comes back from it. */
module CommitCommands {
  import opened Prelude
  import opened CommitPipeline
  import opened CommitTheorems
  import opened CommitReplies
  import Strconv
  import Text

  // ----- Scopes ---------------------------------------------------------------------------------

  /** Which scope a route needs is decided by its first word alone. */
  lemma ScopeOfDomain(domain: string, rest: string)
    requires ' ' !in domain
    ensures RequiredScope(domain + " " + rest) == RequiredScope(domain)
    ensures RequiredScope(domain) == Some(Playback) <==> domain in {"playback", "artnet"}
    ensures RequiredScope(domain) == Some(Admin) <==> domain in {"config", "api-key"}
    ensures RequiredScope(domain) == Some(Authoring)
            <==> domain in {"pool", "fixture", "deployment", "scene", "blend", "chase", "motion", "theme", "preset",
                            "programmer", "operatorsurface", "show"}
  {
    Text.SplitPrefix(domain, rest, ' ');
    Text.SplitWhole(domain, ' ');
    assert domain + [' '] + rest == domain + " " + rest;
    hide Text.Split;
    ScopeTable(domain);
    hide DOMAIN_SCOPE;
  }

  lemma ScopeTable(domain: string)
    ensures domain in DOMAIN_SCOPE && DOMAIN_SCOPE[domain] == Playback <==> domain in {"playback", "artnet"}
    ensures domain in DOMAIN_SCOPE && DOMAIN_SCOPE[domain] == Admin <==> domain in {"config", "api-key"}
    ensures domain in DOMAIN_SCOPE && DOMAIN_SCOPE[domain] == Authoring
            <==> domain in {"pool", "fixture", "deployment", "scene", "blend", "chase", "motion", "theme", "preset",
                            "programmer", "operatorsurface", "show"}
  {
  }

  // ----- Single mutations -------------------------------------------------------------------------

  /** No If-Match, or one that names the readable revision on disk. */
  predicate Current(ifMatch: string, revision: int, readable: bool) {
    var m := ParseIfMatch(ifMatch);
    m.Absent? || (readable && m == Expecting(revision))
  }

  /** A blank header asks for nothing; any other names a revision exactly if what is left
      without the white space and the quotes around it is a 64-bit integer. */
  lemma IfMatchMeans(ifMatch: string)
    ensures ParseIfMatch(ifMatch).Absent? <==> Text.IsBlank(ifMatch)
    ensures var bare := Strconv.ParseInt(Text.TrimChar(Text.TrimSpace(ifMatch), '"'));
            && (ParseIfMatch(ifMatch).Malformed? <==> !Text.IsBlank(ifMatch) && bare == None)
            && (ParseIfMatch(ifMatch).Expecting? ==> bare == Some(ParseIfMatch(ifMatch).revision))
  {
    Text.TrimmedBlank(ifMatch);
    hide Text.TrimSpace, Text.TrimChar, Text.IsBlank, Strconv.ParseInt;
  }

  const NO_DIAGNOSTIC := "GOLC_API_UNKNOWN_FAILURE: the routed command failed with no diagnostic"

  /** How a command's exit code comes back: 0 is a success, 2 a bad request, anything else a
      server error; a failure carries the command's own diagnostic, if it gave one. */
  predicate Reported<C>(e: Effect<C>, reply: Result<Mutated, Failure>) {
    && (reply.Ok? <==> e.exitCode == 0)
    && (Answers(reply, 400) <==> e.exitCode == 2)
    && (Answers(reply, 500) <==> e.exitCode != 0 && e.exitCode != 2)
    && (reply.Err? ==>
          && (reply.error.CommandRejected? || reply.error.CommandFailed?)
          && reply.error.diagnostic == if Text.IsBlank(e.stderr) then NO_DIAGNOSTIC else Text.TrimSpace(e.stderr))
  }

  /** The command ran on the content found, with the request's own route and arguments: its
      content and saves are on disk, and a success reports its output and the revision read
      back. */
  ghost predicate Ran<C>(exec: (Command, C) -> Effect<C>, p: Pipeline<C>, req: Request, io: SingleIO<C>,
                         r: Attempted<C>)
  {
    var before := Disturb(p.disk, io.beforeExecute);
    var e := exec(Command(req.route, req.args), before.content);
    var after := Show(e.content, before.revision + e.saves);
    && Reported(e, r.reply)
    && r.next.disk == (if e.exitCode == 0 then Disturb(after, io.beforeReread) else after)
    && (r.reply.Ok? ==> r.reply.value
                        == Mutated(Text.TrimSpace(e.stdout), if io.rereadOk then Some(r.next.disk.revision) else None))
  }

  lemma TranslateReports<C>(e: Effect<C>)
    ensures match Translate(e)
            case Ok(body) => e.exitCode == 0 && body == Text.TrimSpace(e.stdout) && Reported(e, Ok(Mutated(body, None)))
            case Err(f) => Reported(e, Err(f))
  {
    Text.TrimmedBlank(e.stderr);
    hide Text.TrimSpace;
  }

  lemma CommitRuns<C>(exec: (Command, C) -> Effect<C>, ttl: int, p: Pipeline<C>, req: Request, io: SingleIO<C>)
    ensures var r := Commit(exec, ttl, p, req, io);
            if Current(req.ifMatch, p.disk.revision, io.revisionReadable) then Ran(exec, p, req, io, r)
            else && r.next.disk == p.disk && r.reply.Err?
                 && (Answers(r.reply, 400) <==> ParseIfMatch(req.ifMatch).Malformed?)
                 && (Answers(r.reply, 500) <==> ParseIfMatch(req.ifMatch).Expecting? && !io.revisionReadable)
  {
    var before := Disturb(p.disk, io.beforeExecute);
    TranslateReports(exec(Command(req.route, req.args), before.content));
    hide ParseIfMatch, Disturb, Translate, Text.TrimSpace;
  }

  /** An authorised mutation that is neither a dry run nor a replay reaches its command if
      and only if its If-Match is absent or names the readable revision on disk.  Otherwise
      the show is untouched, and the reply is 400 exactly if the header does not parse and
      500 exactly if the revision cannot be read (and 412 in the remaining case). */
  lemma ReachesCommandIff<C>(exec: (Command, C) -> Effect<C>, ttl: int, p: Pipeline<C>, req: Request, io: SingleIO<C>)
    requires Authorised(req.route, req.granted) && !req.dryRun && !Replayed(p, req, io)
    ensures var r := Single(exec, ttl, p, req, io);
            if Current(req.ifMatch, p.disk.revision, io.revisionReadable) then Ran(exec, p, req, io, r)
            else && r.next.disk == p.disk && r.reply.Err?
                 && (Answers(r.reply, 400) <==> ParseIfMatch(req.ifMatch).Malformed?)
                 && (Answers(r.reply, 500) <==> ParseIfMatch(req.ifMatch).Expecting? && !io.revisionReadable)
  {
    var l := Find(p.entries, req.Triple(), io.lookupAt);
    CommitRuns(exec, ttl, p, req, io);
    CommitRuns(exec, ttl, p.(entries := l.entries), req, io);
    hide Commit, RequiredScope, ParseIfMatch, Disturb, Current, Reported;
  }

  /** A dry run answers as the command would on the content of the moment and leaves show and
      stored replies alone. */
  lemma DryRunPreviews<C>(exec: (Command, C) -> Effect<C>, ttl: int, p: Pipeline<C>, req: Request, io: SingleIO<C>)
    requires Authorised(req.route, req.granted) && req.dryRun
    ensures var r := Single(exec, ttl, p, req, io);
            var e := exec(Command(req.route, req.args), p.disk.content);
            && r.next.disk == p.disk && r.next.entries == p.entries
            && if !io.copyOk then Answers(r.reply, 500)
               else Reported(e, r.reply) && (r.reply.Ok? ==> r.reply.value == Mutated(Text.TrimSpace(e.stdout), None))
  {
    TranslateReports(exec(Command(req.route, req.args), p.disk.content));
    hide RequiredScope, Translate, Text.TrimSpace;
  }

  // ----- Stored replies --------------------------------------------------------------------------

  /** A mutation that asks for this actor, route and idempotency key. */
  predicate AsksFor<C>(a: Attempt<C>, k: Key) {
    a.Mutation? && a.req.idempotencyKey != "" && a.req.actor == k.actor && a.req.route == k.route
    && a.req.idempotencyKey == k.key
  }

  /** A stored reply is found until it has expired, and then it is gone. */
  lemma LookupMeans(entries: map<Key, Entry>, k: Key, now: int)
    ensures var l := Find(entries, k, now);
            var live := k in entries && now <= entries[k].expiresAt;
            && l.hit == (if live then Some(entries[k].result) else None)
            && l.entries == (if live then entries else entries - {k})
  {
  }

  /** Nothing but a mutation of the same actor, route and key reads or changes a stored reply. */
  lemma StoredRepliesApart<C>(exec: (Command, C) -> Effect<C>, ttl: int, p: Pipeline<C>, a: Attempt<C>, k: Key)
    requires !AsksFor(a, k)
    ensures k in Step(exec, ttl, p, a).entries <==> k in p.entries
    ensures k in p.entries ==> Step(exec, ttl, p, a).entries[k] == p.entries[k]
    ensures a.Mutation? ==>
              Single(exec, ttl, p.(entries := p.entries - {k}), a.req, a.io).reply
              == Single(exec, ttl, p, a.req, a.io).reply
  {
    hide ParseIfMatch, RequiredScope, Disturb, Translate, CheckRevision, Batch;
    if a.BatchOf? { BatchDisk(exec, p, a.batch, a.batchIO); }
  }

  // ----- Batch sub-requests ------------------------------------------------------------------------

  predicate CommaFree(list: seq<string>) { forall i :: 0 <= i < |list| ==> ',' !in list[i] }

  /** What makes a sub-request translatable. */
  predicate Translatable(sub: SubRequest) {
    && sub.verb + " " + sub.resource == "POST /v1/pools"
    && sub.body.Some? && sub.body.value.name != "" && CommaFree(sub.body.value.requires_)
  }

  /** A sub-request becomes a command if and only if it posts to the pools with a name and
      comma-free requirements; the command names the pool, and its requirements are read back
      by splitting at commas. */
  lemma TranslationRoundTrip(sub: SubRequest)
    ensures TranslateSub(sub).Ok? <==> Translatable(sub)
    ensures Translatable(sub) ==>
              var cmd, list := TranslateSub(sub).value, sub.body.value.requires_;
              && cmd.route == "pool create" && |cmd.args| >= 1 && cmd.args[0] == sub.body.value.name
              && (|cmd.args| == 1 <==> list == [])
              && (list != [] ==> |cmd.args| == 3 && cmd.args[1] == "--requires" && Text.Split(cmd.args[2], ',') == list)
    ensures TranslateSub(sub).Err? ==> Status(TranslateSub(sub).error) == 400
  {
    if Translatable(sub) && sub.body.value.requires_ != [] { Text.SplitOfJoin(sub.body.value.requires_, ','); }
    hide Text.Split, Text.Join;
  }

  // ----- What becomes of a batch -------------------------------------------------------------------

  /** The exit code of the command that fails, 0 if none does. */
  function FailingCode<C>(exec: (Command, C) -> Effect<C>, commands: seq<Command>, content: C): int {
    match FirstFailure(exec, commands, content)
    case None => 0
    case Some(i) => exec(commands[i], ContentAfter(exec, commands[..i], content)).exitCode
  }

  lemma FailingCodeMeans<C>(exec: (Command, C) -> Effect<C>, commands: seq<Command>, content: C)
    ensures FailingCode(exec, commands, content) == 0 <==> FirstFailure(exec, commands, content) == None
  {
    hide FirstFailure, ContentAfter;
  }

  /** No fault between the copy and the save. */
  predicate Unfaulted<C>(io: BatchIO<C>) { io.loadOk && io.raceReadable && !Raced(io) && io.saveOk }

  lemma ApplyOutcome<C>(exec: (Command, C) -> Effect<C>, p: Pipeline<C>, req: BatchRequest, commands: seq<Command>,
                        io: BatchIO<C>)
    ensures var reply, code := ApplyBatch(exec, p, req, commands, io).reply,
                               FailingCode(exec, commands, Disturb(p.disk, io.beforeCopy).content);
            && (reply.Applied? <==> io.copyOk && code == 0 && Unfaulted(io))
            && (BatchAnswers(reply, 400) <==> io.copyOk && code == 2)
            && (BatchAnswers(reply, 500)
                <==> || !io.copyOk || (code != 0 && code != 2)
                     || (code == 0 && (!io.loadOk || !io.raceReadable || (!Raced(io) && !io.saveOk))))
  {
    RacedIff(p.disk, io);
    FailingCodeMeans(exec, commands, Disturb(p.disk, io.beforeCopy).content);
    hide ParseIfMatch, Disturb, FirstFailure, Outputs, ContentAfter, FanOut, Raced, Diagnostic;
  }

  /** A planned batch is applied if and only if its base revision is readable, its If-Match
      absent or current, all its commands succeed on the copy, nobody else saves in between
      and nothing fails; it is answered 400 exactly if its header does not parse or the
      failing command exits 2, and 500 exactly if the server fails it or the failing command
      exits with anything else. */
  lemma BatchOutcome<C>(exec: (Command, C) -> Effect<C>, p: Pipeline<C>, req: BatchRequest, io: BatchIO<C>)
    requires req.requests != [] && Preflight(req.requests, req.granted).Planned?
    ensures var reply, commands := Batch(exec, p, req, io).reply, Preflight(req.requests, req.granted).commands;
            var code := FailingCode(exec, commands, Disturb(p.disk, io.beforeCopy).content);
            var current := io.baseReadable && Current(req.ifMatch, p.disk.revision, true);
            && (reply.Applied? <==> current && io.copyOk && code == 0 && Unfaulted(io))
            && (BatchAnswers(reply, 400)
                <==> (io.baseReadable && ParseIfMatch(req.ifMatch).Malformed?) || (current && io.copyOk && code == 2))
            && (BatchAnswers(reply, 500)
                <==> || !io.baseReadable
                     || (current && (|| !io.copyOk || (code != 0 && code != 2)
                                     || (code == 0 && (!io.loadOk || !io.raceReadable || (!Raced(io) && !io.saveOk))))))
  {
    hide *;
    ApplyOutcome(exec, p, req, Preflight(req.requests, req.granted).commands, io);
    BeforeCopy(exec, p, req, io);
    CurrentParses(req.ifMatch, p.disk.revision);
  }

  lemma CurrentParses(ifMatch: string, revision: int)
    ensures Current(ifMatch, revision, true) ==> !ParseIfMatch(ifMatch).Malformed?
  {
    hide ParseIfMatch;
  }

  /** A planned batch gets as far as the copy, or is refused for its header or its base. */
  lemma BeforeCopy<C>(exec: (Command, C) -> Effect<C>, p: Pipeline<C>, req: BatchRequest, io: BatchIO<C>)
    requires req.requests != [] && Preflight(req.requests, req.granted).Planned?
    ensures var reply, commands := Batch(exec, p, req, io).reply, Preflight(req.requests, req.granted).commands;
            if io.baseReadable && Current(req.ifMatch, p.disk.revision, true)
            then reply == ApplyBatch(exec, p, req, commands, io).reply
            else && !reply.Applied?
                 && (BatchAnswers(reply, 400) <==> io.baseReadable && ParseIfMatch(req.ifMatch).Malformed?)
                 && (BatchAnswers(reply, 500) <==> !io.baseReadable)
  {
    hide ApplyBatch, Preflight, ParseIfMatch, FanOut, Disturb;
  }

  /** A batch that is not planned is answered 403 if its first sub-request can be translated,
      and 400 otherwise. */
  lemma UnplannedBatch<C>(exec: (Command, C) -> Effect<C>, p: Pipeline<C>, req: BatchRequest, io: BatchIO<C>)
    requires req.requests == [] || Preflight(req.requests, req.granted).Vetoed?
    ensures var reply := Batch(exec, p, req, io).reply;
            && Batch(exec, p, req, io).next.disk == p.disk
            && (BatchAnswers(reply, 403) || BatchAnswers(reply, 400))
  {
    EmptyReply(exec, p, req, io);
    if req.requests != [] {
      VetoedFirst(req.requests, req.granted);
      var i := Preflight(req.requests, req.granted).index;
      VetStatus(req.requests[i], req.granted);
      PoolDomain();
      TranslatedRoute(req.requests[i]);
      VetoedReply(exec, p, req, io);
    }
    hide Preflight, TranslateSub, RequiredScope, ClaimedTarget;
  }
}
