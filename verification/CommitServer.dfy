/** The commit pipeline as the code runs it: one object whose fields the locked
    sections update in place, with early returns and loops. */
module CommitServer {
  import opened Prelude
  import opened CommitPipeline
  import Text

  class Server<C> {
    const exec: (Command, C) -> Effect<C>
    const ttl: int
    var disk: Show<C>
    var entries: map<Key, Entry>
    var fired: seq<MutationEvent>

    ghost function View(): Pipeline<C>
      reads this
    {
      Pipeline(disk, entries, fired)
    }

    constructor (exec: (Command, C) -> Effect<C>, ttl: int, disk: Show<C>)
      ensures View() == Pipeline(disk, map[], [])
      ensures this.exec == exec && this.ttl == ttl
    {
      this.exec, this.ttl, this.disk := exec, ttl, disk;
      entries, fired := map[], [];
    }

    method FireObservers(ev: MutationEvent)
      modifies this`fired
      ensures View() == Fire(old(View()), [ev])
    {
      fired := fired + [ev];
    }

    /** `idempotencyStore.lookup`. */
    method LookupKey(k: Key, now: int) returns (hit: Option<Mutated>)
      modifies this`entries
      ensures Lookup(entries, hit) == Find(old(entries), k, now)
    {
      if k !in entries { return None; }
      var entry := entries[k];
      if now > entry.expiresAt {
        entries := entries - {k};
        return None;
      }
      return Some(entry.result);
    }

    method DryRunMutate(req: Request, io: SingleIO<C>) returns (reply: Result<Mutated, Failure>)
      modifies this`fired
      ensures Attempted(View(), reply) == Preview(exec, old(View()), req, io)
    {
      if !io.copyOk {
        FireObservers(req.Event(None, None, DryRun, Status(CopyFailed)));
        return Err(CopyFailed);
      }
      var translated := Translate(exec(req.Routed(), disk.content));
      var status := if translated.Err? then Status(translated.error) else 200;
      FireObservers(req.Event(None, None, DryRun, status));
      if translated.Err? { return Err(translated.error); }
      return Ok(Mutated(translated.value, None));
    }

    /** `mutate`, from the scope check to the stored response. */
    method Mutate(req: Request, io: SingleIO<C>) returns (reply: Result<Mutated, Failure>)
      modifies this
      ensures Attempted(View(), reply) == Single(exec, ttl, old(View()), req, io)
    {
      var scope := RequiredScope(req.route);
      if scope.None? {
        FireObservers(req.Event(None, None, Failed, Status(ScopeUndeclared)));
        return Err(ScopeUndeclared);
      }
      if scope.value !in req.granted {
        FireObservers(req.Event(None, None, Failed, Status(ScopeRequired(scope.value))));
        return Err(ScopeRequired(scope.value));
      }
      if req.dryRun {
        reply := DryRunMutate(req, io);
        return;
      }
      if req.idempotencyKey != "" {
        var cached := LookupKey(req.Triple(), io.lookupAt);
        if cached.Some? {
          FireObservers(req.Event(None, cached.value.revision, Replay, 200));
          return Ok(cached.value);
        }
      }
      reply := Execute(req, io);
    }

    /** `mutate` from the revision check on. */
    method Execute(req: Request, io: SingleIO<C>) returns (reply: Result<Mutated, Failure>)
      modifies this
      ensures Attempted(View(), reply) == Commit(exec, ttl, old(View()), req, io)
    {
      hide ParseIfMatch, CheckRevision, Translate, Disturb, Status;
      var expected := Expected(ParseIfMatch(req.ifMatch));
      var refused := CheckRevision(req.ifMatch, disk.revision, io.revisionReadable);
      if refused.Some? {
        FireObservers(req.Event(expected, None, Failed, Status(refused.value)));
        return Err(refused.value);
      }
      disk := Disturb(disk, io.beforeExecute);
      var effect := exec(req.Routed(), disk.content);
      disk := Show(effect.content, disk.revision + effect.saves);
      var translated := Translate(effect);
      var outcome, status, resulting := Success, 200, None;
      if translated.Err? {
        outcome, status := Failed, Status(translated.error);
      } else {
        disk := Disturb(disk, io.beforeReread);
        if io.rereadOk { resulting := Some(disk.revision); }
      }
      FireObservers(req.Event(expected, resulting, outcome, status));
      if translated.Err? { return Err(translated.error); }
      var result := Mutated(translated.value, resulting);
      if req.idempotencyKey != "" {
        entries := entries[req.Triple() := Entry(result, io.storeAt + ttl)];
      }
      return Ok(result);
    }

    /** The event loops of `runBatch`. */
    method FireForAll(req: BatchRequest, commands: seq<Command>, expected: Option<int>,
                      resulting: Option<int>, outcome: Outcome, status: int)
      modifies this`fired
      ensures View() == Fire(old(View()), FanOut(req, commands, expected, resulting, outcome, status))
    {
      for i := 0 to |commands|
        invariant fired == old(fired)
                           + FanOut(req, commands[..i], expected, resulting, outcome, status)
      {
        assert commands[..i + 1][..i] == commands[..i];
        FireObservers(SubEvent(req, commands[i], expected, resulting, outcome, status));
      }
      assert commands[..|commands|] == commands;
    }

    /** The pre-flight loop: translate and scope-check every sub-request. */
    method Preflight(req: BatchRequest) returns (plan: Plan)
      modifies this`fired
      ensures plan == CommitPipeline.Preflight(req.requests, req.granted)
      ensures plan.Planned? ==> View() == old(View())
      ensures plan.Vetoed? ==>
                BatchAttempted(View(), Rejected(SubRequestFailed(plan.index, 0, plan.failure)))
                == RefuseOne(old(View()), req, ClaimedTarget(req.requests[plan.index]), None,
                             plan.index, 0, plan.failure)
    {
      var commands := [];
      for i := 0 to |req.requests|
        invariant fired == old(fired)
        invariant CommitPipeline.Preflight(req.requests[..i], req.granted) == Planned(commands)
      {
        var sub := req.requests[i];
        assert req.requests[..i + 1][..i] == req.requests[..i];
        var vetted := Vet(sub, req.granted);
        if vetted.Err? {
          PreflightStops(req.requests, req.granted, i, vetted.error);
          FireObservers(SubEvent(req, ClaimedTarget(sub), None, None, Failed, Status(vetted.error)));
          return Vetoed(i, vetted.error);
        }
        commands := commands + [vetted.value];
      }
      assert req.requests[..|req.requests|] == req.requests;
      return Planned(commands);
    }

    /** The execution loop against the throwaway copy. */
    method RunOnCopy(commands: seq<Command>, start: C)
      returns (failed: Option<nat>, failure: Failure, results: seq<string>, copy: C)
      ensures failed == FirstFailure(exec, commands, start)
      ensures failed.Some? ==>
                Translate(exec(commands[failed.value],
                               ContentAfter(exec, commands[..failed.value], start))) == Err(failure)
      ensures failed.None? ==>
                results == Outputs(exec, commands, start) && copy == ContentAfter(exec, commands, start)
    {
      failure, results, copy := BatchEmpty, [], start;
      for i := 0 to |commands|
        invariant FirstFailure(exec, commands[..i], start) == None
        invariant copy == ContentAfter(exec, commands[..i], start)
        invariant results == Outputs(exec, commands[..i], start)
      {
        assert commands[..i + 1][..i] == commands[..i];
        var effect := exec(commands[i], copy);
        copy := effect.content;
        var translated := Translate(effect);
        if translated.Err? {
          FailureStops(exec, commands, start, i);
          return Some(i), translated.error, results, copy;
        }
        results := results + [translated.value];
      }
      assert commands[..|commands|] == commands;
      failed := None;
    }

    /** `runBatch`. */
    method RunBatch(req: BatchRequest, io: BatchIO<C>) returns (reply: BatchReply)
      modifies this
      ensures BatchAttempted(View(), reply) == Batch(exec, old(View()), req, io)
    {
      if |req.requests| == 0 { return Rejected(BatchEmpty); }
      var plan := Preflight(req);
      if plan.Vetoed? { return Rejected(SubRequestFailed(plan.index, 0, plan.failure)); }
      var commands := plan.commands;
      if !io.baseReadable {
        FireForAll(req, commands, None, None, Failed, Status(RevisionUnreadable));
        return Rejected(RevisionUnreadable);
      }
      var parsed := ParseIfMatch(req.ifMatch);
      if parsed.Malformed? {
        FireForAll(req, commands, None, None, Failed, Status(IfMatchInvalid));
        return Rejected(IfMatchInvalid);
      }
      if parsed.Expecting? && parsed.revision != disk.revision {
        var f := RevisionMismatch(parsed.revision, disk.revision);
        FireForAll(req, commands, Some(parsed.revision), None, Failed, Status(f));
        return Rejected(f);
      }
      reply := CommitBatch(req, commands, io);
    }

    /** `runBatch` from the throwaway copy on. */
    method CommitBatch(req: BatchRequest, commands: seq<Command>, io: BatchIO<C>) returns (reply: BatchReply)
      modifies this
      ensures BatchAttempted(View(), reply) == ApplyBatch(exec, old(View()), req, commands, io)
    {
      var expected := Expected(ParseIfMatch(req.ifMatch));
      var baseRevision := disk.revision;
      disk := Disturb(disk, io.beforeCopy);
      if !io.copyOk {
        FireForAll(req, commands, expected, None, Failed, Status(CopyFailed));
        return Rejected(CopyFailed);
      }
      var failed, failure, results, finalState := RunOnCopy(commands, disk.content);
      if failed.Some? {
        var i := failed.value;
        FireObservers(SubEvent(req, commands[i], expected, None, Failed, Status(failure)));
        return Rejected(SubRequestFailed(i, i, failure));
      }
      if !io.loadOk {
        FireForAll(req, commands, expected, None, Failed, Status(StateUnreadable));
        return Rejected(StateUnreadable);
      }
      disk := Disturb(disk, io.beforeRecheck);
      if !io.raceReadable {
        FireForAll(req, commands, expected, None, Failed, Status(RevisionUnreadable));
        return Rejected(RevisionUnreadable);
      }
      if disk.revision != baseRevision {
        var f := RevisionMismatch(baseRevision, disk.revision);
        FireForAll(req, commands, expected, None, Failed, Status(f));
        return Rejected(f);
      }
      if !io.saveOk {
        FireForAll(req, commands, expected, None, Failed, Status(SaveFailed));
        return Rejected(SaveFailed);
      }
      disk := Show(finalState, baseRevision + 1);
      FireForAll(req, commands, expected, Some(baseRevision + 1), Success, 200);
      return Applied(results, baseRevision + 1);
    }
  }

  lemma {:induction false} PreflightStops(subs: seq<SubRequest>, granted: set<Scope>, i: nat, f: Failure)
    requires i < |subs| && CommitPipeline.Preflight(subs[..i], granted).Planned?
    requires Vet(subs[i], granted) == Err(f)
    ensures CommitPipeline.Preflight(subs, granted) == Vetoed(i, f)
  {
    if i == |subs| - 1 {
    } else {
      assert subs[..|subs| - 1][..i] == subs[..i];
      PreflightStops(subs[..|subs| - 1], granted, i, f);
    }
  }

  lemma {:induction false} FailureStops<C>(exec: (Command, C) -> Effect<C>, commands: seq<Command>, start: C, i: nat)
    requires i < |commands| && FirstFailure(exec, commands[..i], start) == None
    requires exec(commands[i], ContentAfter(exec, commands[..i], start)).exitCode != 0
    ensures FirstFailure(exec, commands, start) == Some(i)
  {
    if i == |commands| - 1 {
    } else {
      assert commands[..|commands| - 1][..i] == commands[..i];
      FailureStops(exec, commands[..|commands| - 1], start, i);
    }
  }
}
