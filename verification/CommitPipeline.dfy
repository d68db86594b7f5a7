/** The serialised commit pipeline of the control API: single mutations, dry
    runs, idempotent replays and atomic batches, all under one mutex, against a
    show file that other processes may also write.

    The routed commands are a parameter: a command reads the content of a show
    file and yields an exit code, its output, the content it leaves behind and
    how many times it saved.  Each save bumps the revision by one.  Writes by
    other processes are inputs, given for every gap in which they can happen. */
module CommitPipeline {
  import opened Prelude
  import Strconv
  import Text

  datatype Scope = Playback | Authoring | Admin

  const DOMAIN_SCOPE: map<string, Scope> := map[
    "pool" := Authoring, "fixture" := Authoring, "deployment" := Authoring, "scene" := Authoring,
    "blend" := Authoring, "chase" := Authoring, "motion" := Authoring, "theme" := Authoring,
    "preset" := Authoring, "programmer" := Authoring, "operatorsurface" := Authoring,
    "show" := Authoring, "playback" := Playback, "artnet" := Playback,
    "config" := Admin, "api-key" := Admin]

  /** The first space-separated word of a route. */
  function DomainOf(route: string): string {
    Text.Split(route, ' ')[0]
  }

  function RequiredScope(route: string): Option<Scope> {
    if DomainOf(route) in DOMAIN_SCOPE then Some(DOMAIN_SCOPE[DomainOf(route)]) else None
  }

  datatype Failure =
    | ScopeUndeclared | ScopeRequired(scope: Scope)
    | IfMatchInvalid | RevisionUnreadable | RevisionMismatch(expected: int, current: int)
    | CopyFailed | StateUnreadable | SaveFailed
    | CommandRejected(diagnostic: string) | CommandFailed(diagnostic: string)
    | BatchEmpty | SubRequestUnsupported | SubRequestBodyInvalid | ListValueInvalid
    | SubRequestFailed(index: nat, succeeded: nat, cause: Failure)

  /** The HTTP status of a failure. */
  function Status(f: Failure): int {
    match f
    case ScopeRequired(_) => 403
    case RevisionMismatch(_, _) => 412
    case SubRequestFailed(_, _, cause) => Status(cause)
    case IfMatchInvalid => 400
    case CommandRejected(_) => 400
    case BatchEmpty => 400
    case SubRequestUnsupported => 400
    case SubRequestBodyInvalid => 400
    case ListValueInvalid => 400
    case _ => 500
  }

  // ----- The show file and the routed commands -------------------------------

  datatype Show<C> = Show(content: C, revision: int)

  datatype Command = Command(route: string, args: seq<string>)

  datatype Effect<C> = Effect(exitCode: int, stdout: string, stderr: string, content: C, saves: nat)

  /** A save by another process: it moves the revision up by at least one. */
  datatype Write<C> = Write(content: C, extra: nat)

  function Disturb<C>(disk: Show<C>, writes: seq<Write<C>>): Show<C> {
    if writes == [] then disk
    else
      var w := writes[|writes| - 1];
      Show(w.content, Disturb(disk, writes[..|writes| - 1]).revision + 1 + w.extra)
  }

  function Execute<C>(exec: (Command, C) -> Effect<C>, cmd: Command, disk: Show<C>): Show<C> {
    var e := exec(cmd, disk.content);
    Show(e.content, disk.revision + e.saves)
  }

  function Diagnostic(stderr: string): string {
    var message := Text.TrimSpace(stderr);
    if message == "" then "GOLC_API_UNKNOWN_FAILURE: the routed command failed with no diagnostic"
    else message
  }

  /** `translateResult`. */
  function Translate<C>(e: Effect<C>): Result<string, Failure> {
    if e.exitCode == 0 then Ok(Text.TrimSpace(e.stdout))
    else if e.exitCode == 2 then Err(CommandRejected(Diagnostic(e.stderr)))
    else Err(CommandFailed(Diagnostic(e.stderr)))
  }

  // ----- If-Match --------------------------------------------------------------

  datatype IfMatch = Absent | Expecting(revision: int) | Malformed

  function ParseIfMatch(header: string): IfMatch {
    var trimmed := Text.TrimSpace(header);
    if trimmed == "" then Absent
    else
      match Strconv.ParseInt(Text.TrimChar(trimmed, '"'))
      case None => Malformed
      case Some(n) => Expecting(n)
  }

  function Expected(m: IfMatch): Option<int> {
    if m.Expecting? then Some(m.revision) else None
  }

  /** `checkRevision`. */
  function CheckRevision(header: string, revision: int, readable: bool): Option<Failure> {
    match ParseIfMatch(header)
    case Malformed => Some(IfMatchInvalid)
    case Absent => None
    case Expecting(n) =>
      if !readable then Some(RevisionUnreadable)
      else if n != revision then Some(RevisionMismatch(n, revision))
      else None
  }

  // ----- Idempotency, events and the pipeline state ---------------------------

  datatype Key = Key(actor: string, route: string, key: string)

  datatype Mutated = Mutated(result: string, revision: Option<int>)

  datatype Entry = Entry(result: Mutated, expiresAt: int)

  datatype Outcome = Success | Failed | DryRun | Replay

  datatype MutationEvent = MutationEvent(
    route: string, args: seq<string>, actor: string, correlationId: string,
    expected: Option<int>, resulting: Option<int>, outcome: Outcome, status: int)

  /** Everything the mutex protects, plus the show file and the events fired at
      the observers, oldest first. */
  datatype Pipeline<C> = Pipeline(disk: Show<C>, entries: map<Key, Entry>, fired: seq<MutationEvent>)

  datatype Lookup = Lookup(entries: map<Key, Entry>, hit: Option<Mutated>)

  /** `idempotencyStore.lookup`: an expired entry is deleted. */
  function Find(entries: map<Key, Entry>, k: Key, now: int): Lookup {
    if k !in entries then Lookup(entries, None)
    else if now > entries[k].expiresAt then Lookup(entries - {k}, None)
    else Lookup(entries, Some(entries[k].result))
  }

  // ----- Single mutations ------------------------------------------------------

  datatype Request = Request(
    route: string, args: seq<string>, ifMatch: string, dryRun: bool, idempotencyKey: string,
    actor: string, correlationId: string, granted: set<Scope>)
  {
    function Triple(): Key { Key(actor, route, idempotencyKey) }
    function Routed(): Command { Command(route, args) }
    function Event(expected: Option<int>, resulting: Option<int>, outcome: Outcome, status: int): MutationEvent {
      MutationEvent(route, args, actor, correlationId, expected, resulting, outcome, status)
    }
  }

  /** What the environment contributes to one single mutation. */
  datatype SingleIO<C> = SingleIO(
    lookupAt: int, storeAt: int, revisionReadable: bool, copyOk: bool,
    beforeExecute: seq<Write<C>>, beforeReread: seq<Write<C>>, rereadOk: bool)

  datatype Attempted<C> = Attempted(next: Pipeline<C>, reply: Result<Mutated, Failure>)

  function Fire<C>(p: Pipeline<C>, events: seq<MutationEvent>): Pipeline<C> {
    p.(fired := p.fired + events)
  }

  function Refuse<C>(p: Pipeline<C>, req: Request, expected: Option<int>, f: Failure): Attempted<C> {
    Attempted(Fire(p, [req.Event(expected, None, Failed, Status(f))]), Err(f))
  }

  /** `dryRunMutate`: the command runs on a copy that is thrown away. */
  function Preview<C>(exec: (Command, C) -> Effect<C>, p: Pipeline<C>, req: Request, io: SingleIO<C>): Attempted<C> {
    var outcome := if io.copyOk then Translate(exec(req.Routed(), p.disk.content)) else Err(CopyFailed);
    match outcome
    case Err(f) => Attempted(Fire(p, [req.Event(None, None, DryRun, Status(f))]), Err(f))
    case Ok(body) => Attempted(Fire(p, [req.Event(None, None, DryRun, 200)]), Ok(Mutated(body, None)))
  }

  function Commit<C>(exec: (Command, C) -> Effect<C>, ttl: int, p: Pipeline<C>, req: Request, io: SingleIO<C>)
    : Attempted<C>
  {
    var expected := Expected(ParseIfMatch(req.ifMatch));
    var refused := CheckRevision(req.ifMatch, p.disk.revision, io.revisionReadable);
    if refused.Some? then Refuse(p, req, expected, refused.value)
    else
      var before := Disturb(p.disk, io.beforeExecute);
      var after := Execute(exec, req.Routed(), before);
      match Translate(exec(req.Routed(), before.content))
      case Err(f) => Refuse(p.(disk := after), req, expected, f)
      case Ok(body) =>
        var now := Disturb(after, io.beforeReread);
        var resulting := if io.rereadOk then Some(now.revision) else None;
        var result := Mutated(body, resulting);
        var q := Fire(p.(disk := now), [req.Event(expected, resulting, Success, 200)]);
        Attempted(if req.idempotencyKey == "" then q
                  else q.(entries := q.entries[req.Triple() := Entry(result, io.storeAt + ttl)]),
                  Ok(result))
  }

  /** `mutate`, as a function of the pipeline state and its inputs. */
  function Single<C>(exec: (Command, C) -> Effect<C>, ttl: int, p: Pipeline<C>, req: Request, io: SingleIO<C>)
    : Attempted<C>
  {
    match RequiredScope(req.route)
    case None => Refuse(p, req, None, ScopeUndeclared)
    case Some(scope) =>
      if scope !in req.granted then Refuse(p, req, None, ScopeRequired(scope))
      else if req.dryRun then Preview(exec, p, req, io)
      else if req.idempotencyKey == "" then Commit(exec, ttl, p, req, io)
      else
        var l := Find(p.entries, req.Triple(), io.lookupAt);
        match l.hit
        case Some(cached) =>
          Attempted(Fire(p, [req.Event(None, cached.revision, Replay, 200)]), Ok(cached))
        case None => Commit(exec, ttl, p.(entries := l.entries), req, io)
  }

  // ----- Batches ----------------------------------------------------------------

  /** A sub-request; `body` is its decoded JSON, None if it does not decode. */
  datatype PoolBody = PoolBody(name: string, requires_: seq<string>)
  datatype SubRequest = SubRequest(verb: string, resource: string, body: Option<PoolBody>)

  datatype BatchRequest = BatchRequest(
    ifMatch: string, requests: seq<SubRequest>, actor: string, correlationId: string, granted: set<Scope>)

  datatype BatchIO<C> = BatchIO(
    baseReadable: bool, copyOk: bool, loadOk: bool, raceReadable: bool, saveOk: bool,
    beforeCopy: seq<Write<C>>, beforeRecheck: seq<Write<C>>)

  datatype BatchReply = Applied(results: seq<string>, revision: int) | Rejected(failure: Failure)

  datatype BatchAttempted<C> = BatchAttempted(next: Pipeline<C>, reply: BatchReply)

  /** `translateBatchSubRequest`. */
  function TranslateSub(sub: SubRequest): Result<Command, Failure> {
    if sub.verb + " " + sub.resource != "POST /v1/pools" then Err(SubRequestUnsupported)
    else if sub.body.None? || sub.body.value.name == "" then Err(SubRequestBodyInvalid)
    else if exists i :: 0 <= i < |sub.body.value.requires_| && ',' in sub.body.value.requires_[i]
      then Err(ListValueInvalid)
    else
      var list := sub.body.value.requires_;
      Ok(Command("pool create",
                 [sub.body.value.name] + if list == [] then [] else ["--requires", Text.Join(list, ',')]))
  }

  /** The scope check and the translation of one sub-request. */
  function Vet(sub: SubRequest, granted: set<Scope>): Result<Command, Failure> {
    match TranslateSub(sub)
    case Err(f) => Err(f)
    case Ok(cmd) =>
      match RequiredScope(cmd.route)
      case None => Err(ScopeUndeclared)
      case Some(scope) => if scope in granted then Ok(cmd) else Err(ScopeRequired(scope))
  }

  /** How a refused sub-request appears in the audit trail. */
  function ClaimedTarget(sub: SubRequest): Command {
    match TranslateSub(sub)
    case Err(_) => Command(sub.verb + " " + sub.resource, [])
    case Ok(cmd) => cmd
  }

  datatype Plan = Planned(commands: seq<Command>) | Vetoed(index: nat, failure: Failure)

  /** All sub-requests translated in order, or the first that is refused. */
  function Preflight(subs: seq<SubRequest>, granted: set<Scope>): (plan: Plan)
    ensures plan.Planned? ==> |plan.commands| == |subs|
    ensures plan.Vetoed? ==> plan.index < |subs|
  {
    if subs == [] then Planned([])
    else
      match Preflight(subs[..|subs| - 1], granted)
      case Vetoed(i, f) => Vetoed(i, f)
      case Planned(commands) =>
        match Vet(subs[|subs| - 1], granted)
        case Err(f) => Vetoed(|subs| - 1, f)
        case Ok(cmd) => Planned(commands + [cmd])
  }

  /** The content after running commands one after the other. */
  function ContentAfter<C>(exec: (Command, C) -> Effect<C>, commands: seq<Command>, content: C): C {
    if commands == [] then content
    else exec(commands[|commands| - 1], ContentAfter(exec, commands[..|commands| - 1], content)).content
  }

  /** The first command to fail when they run one after the other. */
  function FirstFailure<C>(exec: (Command, C) -> Effect<C>, commands: seq<Command>, content: C): (r: Option<nat>)
    ensures r.Some? ==>
              && r.value < |commands|
              && exec(commands[r.value], ContentAfter(exec, commands[..r.value], content)).exitCode != 0
  {
    if commands == [] then None
    else
      var prior := commands[..|commands| - 1];
      match FirstFailure(exec, prior, content)
      case Some(i) => assert prior[..i] == commands[..i]; Some(i)
      case None =>
        if exec(commands[|commands| - 1], ContentAfter(exec, prior, content)).exitCode == 0 then None
        else Some(|commands| - 1)
  }

  /** The trimmed outputs of commands run one after the other. */
  function Outputs<C>(exec: (Command, C) -> Effect<C>, commands: seq<Command>, content: C): (r: seq<string>)
    ensures |r| == |commands|
  {
    if commands == [] then []
    else
      var prior := commands[..|commands| - 1];
      Outputs(exec, prior, content)
      + [Text.TrimSpace(exec(commands[|commands| - 1], ContentAfter(exec, prior, content)).stdout)]
  }

  function SubEvent(req: BatchRequest, cmd: Command, expected: Option<int>, resulting: Option<int>,
                    outcome: Outcome, status: int): MutationEvent
  {
    MutationEvent(cmd.route, cmd.args, req.actor, req.correlationId, expected, resulting, outcome, status)
  }

  /** One event per sub-request. */
  function FanOut(req: BatchRequest, commands: seq<Command>, expected: Option<int>, resulting: Option<int>,
                  outcome: Outcome, status: int): (events: seq<MutationEvent>)
    ensures |events| == |commands|
  {
    if commands == [] then []
    else FanOut(req, commands[..|commands| - 1], expected, resulting, outcome, status)
         + [SubEvent(req, commands[|commands| - 1], expected, resulting, outcome, status)]
  }

  function RefuseBatch<C>(p: Pipeline<C>, req: BatchRequest, commands: seq<Command>, expected: Option<int>,
                          f: Failure): BatchAttempted<C>
  {
    BatchAttempted(Fire(p, FanOut(req, commands, expected, None, Failed, Status(f))), Rejected(f))
  }

  function RefuseOne<C>(p: Pipeline<C>, req: BatchRequest, cmd: Command, expected: Option<int>, index: nat,
                        succeeded: nat, f: Failure): BatchAttempted<C>
  {
    BatchAttempted(Fire(p, [SubEvent(req, cmd, expected, None, Failed, Status(f))]),
                   Rejected(SubRequestFailed(index, succeeded, f)))
  }

  /** The part of `runBatch` that runs on the throwaway copy and commits. */
  function ApplyBatch<C>(exec: (Command, C) -> Effect<C>, p: Pipeline<C>, req: BatchRequest, commands: seq<Command>,
                         io: BatchIO<C>): BatchAttempted<C>
  {
    var expected := Expected(ParseIfMatch(req.ifMatch));
    var base := p.disk.revision;
    var atCopy := Disturb(p.disk, io.beforeCopy);
    var atRecheck := Disturb(atCopy, io.beforeRecheck);
    var p1 := p.(disk := atCopy);
    if !io.copyOk then RefuseBatch(p1, req, commands, expected, CopyFailed)
    else
      match FirstFailure(exec, commands, atCopy.content)
      case Some(i) =>
        var failed := exec(commands[i], ContentAfter(exec, commands[..i], atCopy.content));
        RefuseOne(p1, req, commands[i], expected, i, i, Translate(failed).error)
      case None =>
        var p2 := p.(disk := atRecheck);
        if !io.loadOk then RefuseBatch(p1, req, commands, expected, StateUnreadable)
        else if !io.raceReadable then RefuseBatch(p2, req, commands, expected, RevisionUnreadable)
        else if atRecheck.revision != base
          then RefuseBatch(p2, req, commands, expected, RevisionMismatch(base, atRecheck.revision))
        else if !io.saveOk then RefuseBatch(p2, req, commands, expected, SaveFailed)
        else
          var saved := Show(ContentAfter(exec, commands, atCopy.content), base + 1);
          BatchAttempted(Fire(p.(disk := saved), FanOut(req, commands, expected, Some(base + 1), Success, 200)),
                         Applied(Outputs(exec, commands, atCopy.content), base + 1))
  }

  /** `runBatch`, as a function of the pipeline state and its inputs. */
  function Batch<C>(exec: (Command, C) -> Effect<C>, p: Pipeline<C>, req: BatchRequest, io: BatchIO<C>)
    : BatchAttempted<C>
  {
    if req.requests == [] then BatchAttempted(p, Rejected(BatchEmpty))
    else
      match Preflight(req.requests, req.granted)
      case Vetoed(i, f) => RefuseOne(p, req, ClaimedTarget(req.requests[i]), None, i, 0, f)
      case Planned(commands) =>
        if !io.baseReadable then RefuseBatch(p, req, commands, None, RevisionUnreadable)
        else
          match ParseIfMatch(req.ifMatch)
          case Malformed => RefuseBatch(p, req, commands, None, IfMatchInvalid)
          case Expecting(n) =>
            if n != p.disk.revision
            then RefuseBatch(p, req, commands, Some(n), RevisionMismatch(n, p.disk.revision))
            else ApplyBatch(exec, p, req, commands, io)
          case Absent => ApplyBatch(exec, p, req, commands, io)
  }
}
