/** What the commit pipeline promises over whole runs of attempts. */
module CommitTheorems {
  import opened Prelude
  import opened CommitPipeline
  import EventStream
  import Strconv
  import Text

  datatype Attempt<C> =
    | Mutation(req: Request, io: SingleIO<C>)
    | BatchOf(batch: BatchRequest, batchIO: BatchIO<C>)
    | Outside(write: Write<C>)

  function Step<C>(exec: (Command, C) -> Effect<C>, ttl: int, p: Pipeline<C>, a: Attempt<C>): Pipeline<C> {
    match a
    case Mutation(req, io) => Single(exec, ttl, p, req, io).next
    case BatchOf(req, io) => Batch(exec, p, req, io).next
    case Outside(w) => p.(disk := Disturb(p.disk, [w]))
  }

  /** The pipeline after a list of attempts, in the order the mutex admits them. */
  function Run<C>(exec: (Command, C) -> Effect<C>, ttl: int, p: Pipeline<C>, attempts: seq<Attempt<C>>): Pipeline<C> {
    if attempts == [] then p
    else Step(exec, ttl, Run(exec, ttl, p, attempts[..|attempts| - 1]), attempts[|attempts| - 1])
  }

  predicate Authorised(route: string, granted: set<Scope>) {
    RequiredScope(route).Some? && RequiredScope(route).value in granted
  }

  predicate Replayed<C>(p: Pipeline<C>, req: Request, io: SingleIO<C>) {
    req.idempotencyKey != "" && Find(p.entries, req.Triple(), io.lookupAt).hit.Some?
  }

  /** A success that changed the show: neither a replay nor a dry run. */
  predicate Applies<C>(exec: (Command, C) -> Effect<C>, ttl: int, p: Pipeline<C>, a: Attempt<C>) {
    match a
    case Mutation(req, io) =>
      Authorised(req.route, req.granted) && !req.dryRun && !Replayed(p, req, io)
      && Single(exec, ttl, p, req, io).reply.Ok?
    case BatchOf(req, io) => Batch(exec, p, req, io).reply.Applied?
    case Outside(_) => false
  }

  function IfMatchOf<C>(a: Attempt<C>): Option<int> {
    match a
    case Mutation(req, _) => Expected(ParseIfMatch(req.ifMatch))
    case BatchOf(req, _) => Expected(ParseIfMatch(req.ifMatch))
    case Outside(_) => None
  }

  /** A routed command that reports success has saved the show. */
  ghost predicate SuccessSaves<C(!new)>(exec: (Command, C) -> Effect<C>) {
    forall cmd, content :: exec(cmd, content).exitCode == 0 ==> exec(cmd, content).saves >= 1
  }

  // ----- If-Match -----------------------------------------------------------------------

  lemma Untrimmed(s: string)
    requires s != "" && !Text.IsSpace(s[0]) && !Text.IsSpace(s[|s| - 1])
    ensures Text.TrimSpace(s) == s
  {
  }

  lemma FormatShape(n: int)
    ensures var s := Strconv.FormatInt(n);
            s != "" && (s[0] == '-' || Strconv.IsDigit(s[0])) && Strconv.IsDigit(s[|s| - 1])
  {
    var digits := Strconv.Digits(if n < 0 then -n else n);
    assert Strconv.IsDigit(digits[0]) && Strconv.IsDigit(digits[|digits| - 1]);
  }

  /** A revision written bare or as an entity tag is read back. */
  lemma IfMatchRoundTrip(n: int)
    requires Strconv.MIN_INT64 <= n <= Strconv.MAX_INT64
    ensures ParseIfMatch(Strconv.FormatInt(n)) == Expecting(n)
    ensures ParseIfMatch("\"" + Strconv.FormatInt(n) + "\"") == Expecting(n)
  {
    var s := Strconv.FormatInt(n);
    Strconv.ParseOfFormat(n);
    FormatShape(n);
    hide Strconv.FormatInt, Strconv.ParseInt;
    Untrimmed(s);
    var tagged := "\"" + s + "\"";
    Untrimmed(tagged);
    assert tagged[1..] == s + "\"";
    assert (s + "\"")[..|s|] == s;
    assert Text.TrimChar(s, '"') == s;
    assert Text.TrimChar(s + "\"", '"') == s;
  }

  // ----- Revisions --------------------------------------------------------------

  lemma {:induction false} DisturbRaises<C>(disk: Show<C>, writes: seq<Write<C>>)
    ensures Disturb(disk, writes).revision >= disk.revision + |writes|
  {
    if writes != [] { DisturbRaises(disk, writes[..|writes| - 1]); }
  }

  lemma CommitRaises<C>(exec: (Command, C) -> Effect<C>, ttl: int, p: Pipeline<C>, req: Request, io: SingleIO<C>)
    ensures Commit(exec, ttl, p, req, io).next.disk.revision >= p.disk.revision
  {
    hide ParseIfMatch;
    var before := Disturb(p.disk, io.beforeExecute);
    DisturbRaises(p.disk, io.beforeExecute);
    DisturbRaises(Execute(exec, req.Routed(), before), io.beforeReread);
  }

  lemma BatchDisk<C>(exec: (Command, C) -> Effect<C>, p: Pipeline<C>, req: BatchRequest, io: BatchIO<C>)
    ensures var r := Batch(exec, p, req, io);
            var atCopy := Disturb(p.disk, io.beforeCopy);
            if r.reply.Applied? then
              && r.next.disk.revision == p.disk.revision + 1
              && Disturb(atCopy, io.beforeRecheck).revision == p.disk.revision
            else
              || r.next.disk == p.disk
              || r.next.disk == atCopy
              || r.next.disk == Disturb(atCopy, io.beforeRecheck)
    ensures Batch(exec, p, req, io).next.entries == p.entries
  {
    hide ParseIfMatch, Disturb, Preflight, FirstFailure;
  }

  lemma StepRaises<C>(exec: (Command, C) -> Effect<C>, ttl: int, p: Pipeline<C>, a: Attempt<C>)
    ensures Step(exec, ttl, p, a).disk.revision >= p.disk.revision
  {
    hide Commit, Batch, RequiredScope, Translate;
    match a
    case Mutation(req, io) =>
      CommitRaises(exec, ttl, p, req, io);
      CommitRaises(exec, ttl, p.(entries := Find(p.entries, req.Triple(), io.lookupAt).entries), req, io);
    case BatchOf(req, io) =>
      BatchDisk(exec, p, req, io);
      DisturbRaises(p.disk, io.beforeCopy);
      DisturbRaises(Disturb(p.disk, io.beforeCopy), io.beforeRecheck);
    case Outside(w) => DisturbRaises(p.disk, [w]);
  }

  lemma {:induction false} RunRaises<C>(exec: (Command, C) -> Effect<C>, ttl: int, p: Pipeline<C>,
                                        attempts: seq<Attempt<C>>, i: nat)
    requires i <= |attempts|
    ensures Run(exec, ttl, p, attempts).disk.revision >= Run(exec, ttl, p, attempts[..i]).disk.revision
  {
    hide Step;
    if i == |attempts| {
      assert attempts[..i] == attempts;
    } else {
      var prior := attempts[..|attempts| - 1];
      assert prior[..i] == attempts[..i];
      RunRaises(exec, ttl, p, prior, i);
      StepRaises(exec, ttl, Run(exec, ttl, p, prior), attempts[|attempts| - 1]);
    }
  }

  lemma CommitPins<C(!new)>(exec: (Command, C) -> Effect<C>, ttl: int, p: Pipeline<C>, req: Request, io: SingleIO<C>)
    requires SuccessSaves(exec) && Commit(exec, ttl, p, req, io).reply.Ok?
    ensures var m := ParseIfMatch(req.ifMatch); m.Absent? || m == Expecting(p.disk.revision)
    ensures Commit(exec, ttl, p, req, io).next.disk.revision > p.disk.revision
  {
    hide ParseIfMatch;
    var before := Disturb(p.disk, io.beforeExecute);
    DisturbRaises(p.disk, io.beforeExecute);
    DisturbRaises(Execute(exec, req.Routed(), before), io.beforeReread);
    assert exec(req.Routed(), before.content).exitCode == 0;
  }

  /** An applied attempt that carries an If-Match revision found exactly that
      revision on disk and left a higher one. */
  lemma AppliedPinsRevision<C(!new)>(exec: (Command, C) -> Effect<C>, ttl: int, p: Pipeline<C>, a: Attempt<C>)
    requires SuccessSaves(exec) && Applies(exec, ttl, p, a)
    ensures IfMatchOf(a).Some? ==> IfMatchOf(a).value == p.disk.revision
    ensures Step(exec, ttl, p, a).disk.revision > p.disk.revision
  {
    match a
    case Mutation(req, io) =>
      hide ParseIfMatch, Commit, RequiredScope;
      var l := Find(p.entries, req.Triple(), io.lookupAt);
      var q := if req.idempotencyKey == "" then p else p.(entries := l.entries);
      assert Single(exec, ttl, p, req, io) == Commit(exec, ttl, q, req, io);
      CommitPins(exec, ttl, q, req, io);
    case BatchOf(req, io) =>
      BatchDisk(exec, p, req, io);
      hide ParseIfMatch, ApplyBatch, Preflight;
  }

  /** Over any run of single mutations, batches, dry runs, replays and writes by
      other processes, a given If-Match revision is carried by at most one
      attempt that is applied. */
  lemma OneWinnerPerRevision<C(!new)>(exec: (Command, C) -> Effect<C>, ttl: int, p: Pipeline<C>,
                                attempts: seq<Attempt<C>>, i: nat, j: nat)
    requires SuccessSaves(exec) && i < j < |attempts|
    ensures var first := Applies(exec, ttl, Run(exec, ttl, p, attempts[..i]), attempts[i]);
            var second := Applies(exec, ttl, Run(exec, ttl, p, attempts[..j]), attempts[j]);
            first && second && IfMatchOf(attempts[i]).Some? ==> IfMatchOf(attempts[i]) != IfMatchOf(attempts[j])
  {
    hide Applies, Step, IfMatchOf;
    if Applies(exec, ttl, Run(exec, ttl, p, attempts[..i]), attempts[i])
       && Applies(exec, ttl, Run(exec, ttl, p, attempts[..j]), attempts[j])
    {
      AppliedPinsRevision(exec, ttl, Run(exec, ttl, p, attempts[..i]), attempts[i]);
      AppliedPinsRevision(exec, ttl, Run(exec, ttl, p, attempts[..j]), attempts[j]);
      assert attempts[..i + 1][..i] == attempts[..i];
      assert attempts[..j][..i + 1] == attempts[..i + 1];
      RunRaises(exec, ttl, p, attempts[..j], i + 1);
    }
  }

  // ----- Batches against single mutations ---------------------------------------

  /** A batch that is refused has not written the show: it is as other processes
      left it.  A batch that is applied saw no other writer. */
  lemma BatchAllOrNothing<C>(exec: (Command, C) -> Effect<C>, p: Pipeline<C>, req: BatchRequest, io: BatchIO<C>)
    ensures var r := Batch(exec, p, req, io);
            match r.reply
            case Rejected(_) =>
              || r.next.disk == p.disk
              || r.next.disk == Disturb(p.disk, io.beforeCopy)
              || r.next.disk == Disturb(Disturb(p.disk, io.beforeCopy), io.beforeRecheck)
            case Applied(results, revision) =>
              && io.beforeCopy == [] && io.beforeRecheck == []
              && revision == r.next.disk.revision == p.disk.revision + 1
              && |results| == |req.requests|
  {
    BatchDisk(exec, p, req, io);
    DisturbRaises(p.disk, io.beforeCopy);
    DisturbRaises(Disturb(p.disk, io.beforeCopy), io.beforeRecheck);
    hide ParseIfMatch, Disturb, FirstFailure, Preflight;
  }

  /** A sub-request issued on its own, unconditionally. */
  function Alone(req: BatchRequest, cmd: Command): Request {
    Request(cmd.route, cmd.args, "", false, "", req.actor, req.correlationId, req.granted)
  }

  function Undisturbed<C>(): SingleIO<C> {
    SingleIO(0, 0, true, true, [], [], true)
  }

  /** Single mutations, one per command, in order. */
  function Singles<C>(req: BatchRequest, commands: seq<Command>): (attempts: seq<Attempt<C>>)
    ensures |attempts| == |commands|
  {
    if commands == [] then []
    else Singles(req, commands[..|commands| - 1])
         + [Mutation(Alone(req, commands[|commands| - 1]), Undisturbed())]
  }

  function SinglesReplies<C>(exec: (Command, C) -> Effect<C>, ttl: int, p: Pipeline<C>, req: BatchRequest,
                             commands: seq<Command>): (replies: seq<Result<Mutated, Failure>>)
    ensures |replies| == |commands|
  {
    if commands == [] then []
    else
      var prior := commands[..|commands| - 1];
      SinglesReplies(exec, ttl, p, req, prior)
      + [Single(exec, ttl, Run(exec, ttl, p, Singles(req, prior)), Alone(req, commands[|commands| - 1]),
                Undisturbed()).reply]
  }

  function TotalSaves<C>(exec: (Command, C) -> Effect<C>, commands: seq<Command>, content: C): nat {
    if commands == [] then 0
    else
      var prior := commands[..|commands| - 1];
      TotalSaves(exec, prior, content) + exec(commands[|commands| - 1], ContentAfter(exec, prior, content)).saves
  }

  lemma {:induction false} PlannedAreAuthorised(subs: seq<SubRequest>, granted: set<Scope>)
    ensures var plan := Preflight(subs, granted);
            plan.Planned? ==>
              forall i :: 0 <= i < |plan.commands| ==> Authorised(plan.commands[i].route, granted)
  {
    hide TranslateSub, RequiredScope;
    if subs != [] { PlannedAreAuthorised(subs[..|subs| - 1], granted); }
  }

  lemma SingleAlone<C>(exec: (Command, C) -> Effect<C>, ttl: int, p: Pipeline<C>, req: BatchRequest, cmd: Command)
    requires Authorised(cmd.route, req.granted)
    ensures var r := Single(exec, ttl, p, Alone(req, cmd), Undisturbed());
            var e := exec(cmd, p.disk.content);
            && r.next.disk == Show(e.content, p.disk.revision + e.saves)
            && (r.reply.Ok? <==> e.exitCode == 0)
            && (r.reply.Ok? ==> r.reply.value.result == Text.TrimSpace(e.stdout))
  {
    assert Text.TrimSpace("") == "";
    assert ParseIfMatch("") == Absent;
    hide RequiredScope, ParseIfMatch;
    assert cmd == Alone(req, cmd).Routed();
  }

  ghost predicate AllAuthorised(commands: seq<Command>, granted: set<Scope>) {
    forall i :: 0 <= i < |commands| ==> Authorised(commands[i].route, granted)
  }

  /** Single mutations issued one by one leave the same content as the commands
      run one after the other on a copy. */
  lemma {:induction false} SinglesDisk<C>(exec: (Command, C) -> Effect<C>, ttl: int, p: Pipeline<C>,
                                          req: BatchRequest, commands: seq<Command>)
    requires AllAuthorised(commands, req.granted)
    ensures Run(exec, ttl, p, Singles(req, commands)).disk
            == Show(ContentAfter(exec, commands, p.disk.content),
                    p.disk.revision + TotalSaves(exec, commands, p.disk.content))
  {
    hide Single, Authorised;
    if commands != [] {
      var prior, last := commands[..|commands| - 1], commands[|commands| - 1];
      SinglesDisk(exec, ttl, p, req, prior);
      var all: seq<Attempt<C>> := Singles(req, commands);
      assert all[..|all| - 1] == Singles(req, prior);
      SingleAlone(exec, ttl, Run(exec, ttl, p, Singles(req, prior)), req, last);
    }
  }

  ghost predicate AllOk(replies: seq<Result<Mutated, Failure>>) {
    forall i :: 0 <= i < |replies| ==> replies[i].Ok?
  }

  ghost predicate Report(replies: seq<Result<Mutated, Failure>>, outputs: seq<string>) {
    |replies| == |outputs|
    && forall i :: 0 <= i < |replies| ==> replies[i].Ok? && replies[i].value.result == outputs[i]
  }

  /** They succeed, with the same outputs, exactly as far as the commands do. */
  lemma {:induction false} SinglesFollow<C>(exec: (Command, C) -> Effect<C>, ttl: int, p: Pipeline<C>,
                                            req: BatchRequest, commands: seq<Command>)
    requires AllAuthorised(commands, req.granted)
    ensures var replies := SinglesReplies(exec, ttl, p, req, commands);
            if FirstFailure(exec, commands, p.disk.content).None?
            then Report(replies, Outputs(exec, commands, p.disk.content))
            else !AllOk(replies)
  {
    hide Single, Authorised, Run, Singles;
    if commands != [] {
      var prior, last := commands[..|commands| - 1], commands[|commands| - 1];
      SinglesFollow(exec, ttl, p, req, prior);
      SinglesDisk(exec, ttl, p, req, prior);
      SingleAlone(exec, ttl, Run(exec, ttl, p, Singles(req, prior)), req, last);
      var before, replies := SinglesReplies(exec, ttl, p, req, prior), SinglesReplies(exec, ttl, p, req, commands);
      assert replies[..|prior|] == before;
      if FirstFailure(exec, prior, p.disk.content).Some? {
        var i :| 0 <= i < |prior| && !before[i].Ok?;
        assert !replies[i].Ok?;
      } else if FirstFailure(exec, commands, p.disk.content).Some? {
        assert !replies[|prior|].Ok?;
      }
    }
  }

  /** An applied batch means what its sub-requests mean when issued one by one as
      single mutations: each of those succeeds with the result the batch reports,
      and the show ends with the same content.  Only the revision differs: the
      batch moves it by one, the single mutations by the sum of their saves. */
  lemma BatchMeansItsParts<C>(exec: (Command, C) -> Effect<C>, ttl: int, p: Pipeline<C>, req: BatchRequest,
                              io: BatchIO<C>)
    ensures var r := Batch(exec, p, req, io);
            r.reply.Applied? ==>
            && Preflight(req.requests, req.granted).Planned?
            && (var commands := Preflight(req.requests, req.granted).commands;
                var singles := Run(exec, ttl, p, Singles(req, commands));
                var replies := SinglesReplies(exec, ttl, p, req, commands);
                && Report(replies, r.reply.results)
                && singles.disk.content == r.next.disk.content
                && r.next.disk.revision == p.disk.revision + 1
                && singles.disk.revision == p.disk.revision + TotalSaves(exec, commands, p.disk.content))
  {
    hide Batch;
    if Batch(exec, p, req, io).reply.Applied? {
      BatchAllOrNothing(exec, p, req, io);
      AppliedBatch(exec, p, req, io);
      PlannedAreAuthorised(req.requests, req.granted);
      var commands := Preflight(req.requests, req.granted).commands;
      SinglesDisk(exec, ttl, p, req, commands);
      SinglesFollow(exec, ttl, p, req, commands);
    }
  }

  lemma AppliedBatch<C>(exec: (Command, C) -> Effect<C>, p: Pipeline<C>, req: BatchRequest, io: BatchIO<C>)
    requires Batch(exec, p, req, io).reply.Applied? && io.beforeCopy == []
    ensures Preflight(req.requests, req.granted).Planned?
    ensures var commands := Preflight(req.requests, req.granted).commands;
            var r := Batch(exec, p, req, io);
            && FirstFailure(exec, commands, p.disk.content).None?
            && r.reply.results == Outputs(exec, commands, p.disk.content)
            && r.next.disk.content == ContentAfter(exec, commands, p.disk.content)
  {
    hide ParseIfMatch, Preflight, FirstFailure, Outputs, ContentAfter;
    assert Disturb(p.disk, []) == p.disk;
  }

  /** With no fault and no other writer, an admissible batch is applied exactly
      when each of its parts would succeed as a single mutation. */
  lemma BatchAppliesIff<C>(exec: (Command, C) -> Effect<C>, ttl: int, p: Pipeline<C>, req: BatchRequest)
    requires req.requests != [] && Preflight(req.requests, req.granted).Planned?
    requires var m := ParseIfMatch(req.ifMatch); m.Absent? || m == Expecting(p.disk.revision)
    ensures var commands := Preflight(req.requests, req.granted).commands;
            var replies := SinglesReplies(exec, ttl, p, req, commands);
            Batch(exec, p, req, BatchIO(true, true, true, true, true, [], [])).reply.Applied?
            <==> AllOk(replies)
  {
    PlannedAreAuthorised(req.requests, req.granted);
    var commands := Preflight(req.requests, req.granted).commands;
    SinglesFollow(exec, ttl, p, req, commands);
    hide ParseIfMatch, Preflight, FirstFailure, SinglesReplies;
    assert Disturb(p.disk, []) == p.disk;
  }
}
