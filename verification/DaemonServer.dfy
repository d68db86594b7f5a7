/** The daemon object: its target map, the running worker and the health object stay in
    step through every request. */
module DaemonServer {
  import opened Prelude
  import opened Targets
  import opened Flags
  import opened Daemon
  import opened Fixtures
  import opened ChannelMap
  import opened Safety
  import H = Health
  import W = Worker

  /** What the runtime decides during one request: the orders in which it walks the target
      map, and how each dial ends. */
  datatype Runtime = Runtime(listing: set<int> -> seq<int>, walk: set<int> -> seq<int>, dial: W.Dial)

  ghost predicate Walking(r: Runtime) {
    forall keys: set<int> :: H.Walks(r.listing(keys), keys) && H.Walks(r.walk(keys), keys)
  }

  /** What a fresh worker tells the health object: its targets, then its failed dials. */
  function RestartEvents(m: TargetMap, universes: seq<int>, runtime: Runtime): seq<H.Event> {
    [H.Configure(H.Listings(m, runtime.listing(m.Keys)))] + W.DialEvents(m, universes, runtime.dial)
  }

  lemma ConfigureFirst(b: H.Board, listed: seq<H.Listed>)
    requires b.configured <= b.entries.Keys
    ensures H.After(b, [H.Configure(listed)]) == H.Reconfigured(b, listed)
  {
    assert [H.Configure(listed)][..0] == [];
  }

  class Server {
    const parseIp: string -> Option<Address>
    const instances: seq<Instance>
    const groups: seq<Group>
    const resolve: Instance -> Resolution
    const health: H.Health
    var targets: TargetMap
    var worker: W.Worker?

    /** The running worker was built from the deployment and holds exactly the map's
        targets, universe by universe, and the health object tracks exactly their keys. */
    ghost predicate Valid()
      reads this, health, worker
    {
      && worker != null && worker.health == health && worker.Valid()
      && worker.targets == targets && W.StatesMatch(worker.targetStates, targets)
      && worker.rig.instances == instances && worker.resolve == resolve
      && (forall id :: GroupsOf(worker.membership, id) == MembershipOf(instances, groups, id))
      && health.configured == H.AllKeys(targets) && health.configuredUniverses == targets.Keys
    }

    /** The daemon's start: a health object and a first worker. */
    constructor (parseIp: string -> Option<Address>, instances: seq<Instance>, groups: seq<Group>,
                 resolve: Instance -> Resolution, initial: TargetMap, runtime: Runtime)
      requires Walking(runtime)
      ensures Valid() && targets == initial && fresh(health) && fresh(worker)
      ensures this.parseIp == parseIp && W.Dialled(worker.targetStates, runtime.dial)
    {
      this.parseIp, this.instances, this.groups, this.resolve := parseIp, instances, groups, resolve;
      health := new H.Health();
      targets, worker := initial, null;
      new;
      Reconfigure(runtime);
    }

    /** `reconfigureLocked`: drop the worker and build and start a new one, which configures
        health and dials its targets. */
    method Reconfigure(runtime: Runtime)
      requires health.Valid() && Walking(runtime)
      modifies this`worker, health
      ensures Valid() && fresh(worker) && worker.seqs == map[]
      ensures W.Dialled(worker.targetStates, runtime.dial)
      ensures health.Now() == H.After(old(health.Now()), RestartEvents(targets, worker.universes, runtime))
    {
      ConfigureFirst(health.Now(), H.Listings(targets, runtime.listing(targets.Keys)));
      worker := null;
      worker := new W.Worker(instances, groups, resolve, targets, health,
                             runtime.listing(targets.Keys), runtime.walk(targets.Keys));
      hide W.StatesMatch, H.AllKeys, H.Listings, MembershipOf, GroupsOf, W.DialEvents, H.Reconfigured, H.After;
      worker.Start(runtime.dial);
      H.AfterBoth(old(health.Now()), [H.Configure(H.Listings(targets, runtime.listing(targets.Keys)))],
                  W.DialEvents(targets, worker.universes, runtime.dial));
    }

    /** `handleConfigure`. */
    method HandleConfigure(args: seq<string>, runtime: Runtime) returns (r: Response)
      requires Valid() && Walking(runtime)
      modifies this, health
      ensures Valid() && (targets, r) == ConfigureStep(old(targets), args, parseIp)
      ensures if r != Done then worker == old(worker) && health.Now() == old(health.Now())
              else && fresh(worker) && worker.seqs == map[] && W.Dialled(worker.targetStates, runtime.dial)
                   && health.Now() == H.After(old(health.Now()), RestartEvents(targets, worker.universes, runtime))
    {
      hide Parsed, H.After, RestartEvents, W.Dialled, W.StatesMatch, H.AllKeys, MembershipOf, GroupsOf, Walking;
      var flags := ParseFlags(args);
      if flags.Err? { return Usage(flags.error); }
      var parsed := TargetFrom(flags.value, parseIp);
      hide TargetFrom;
      if parsed.Err? { return Usage(parsed.error); }
      var target := parsed.value;
      var invalid := Validate(target);
      hide Validate;
      if invalid.Some? { return Rejected(invalid.value); }
      var updated := AddOrReplace(ListOf(targets, target.universe), target);
      var dup := FindDuplicate(updated);
      hide Unique, Configured;
      if dup.Some? { return Duplicate; }
      targets := targets[target.universe := updated];
      Reconfigure(runtime);
      r := Done;
    }

    /** `handleSetEnabled`. */
    method HandleSetEnabled(args: seq<string>, enabled: bool, runtime: Runtime) returns (r: Response)
      requires Valid() && Walking(runtime)
      modifies this, health
      ensures Valid() && (targets, r) == EnableStep(old(targets), args, enabled, parseIp)
      ensures if r != Done then worker == old(worker) && health.Now() == old(health.Now())
              else && fresh(worker) && worker.seqs == map[] && W.Dialled(worker.targetStates, runtime.dial)
                   && health.Now() == H.After(old(health.Now()), RestartEvents(targets, worker.universes, runtime))
    {
      hide Parsed, H.After, RestartEvents, W.Dialled, W.StatesMatch, H.AllKeys, MembershipOf, GroupsOf, Walking;
      var flags := ParseFlags(args);
      if flags.Err? { return Usage(flags.error); }
      var selector := ParseSelector(flags.value, parseIp);
      hide ParseSelector;
      if selector.Err? { return Usage(selector.error); }
      var s := selector.value;
      var updated := Targets.SetEnabled(ListOf(targets, s.universe), Target(s.universe, Some(s.ip), s.port, false),
                                        enabled);
      hide Has, Toggled;
      if updated == None { return NotFound; }
      targets := targets[s.universe := updated.value];
      Reconfigure(runtime);
      r := Done;
    }
  }
}
