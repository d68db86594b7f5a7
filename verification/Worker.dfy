/** The worker: built once from a deployment, then ticked.  A tick composes the frame
    with the desk and the safety state and builds one packet per universe that encodes. */
module Worker {
  import opened Prelude
  import opened Fixtures
  import opened ChannelMap
  import opened Safety
  import opened Desk
  import opened Output
  import opened Footprints
  import opened Packet
  import opened Sequences
  import opened Targets
  import H = Health
  import Sends

  type Seqs = map<int, Byte>

  function PacketFor(n: Byte, u: int, levels: seq<Byte>): Sends.Built
    requires |levels| == CHANNELS_PER_UNIVERSE
  {
    Sends.Built(u, Wire(Dmx(n, 0, PortAddress(u), levels)))
  }

  function Sized(r: Result<seq<Byte>, EncodeError>): bool { r.Ok? ==> |r.value| == CHANNELS_PER_UNIVERSE }

  lemma LevelsSized(f: Frame, rig: Rig, u: int)
    ensures Sized(Levels(f, rig, u))
  {
    LevelsArePainted(f, rig, u);
  }

  /** One more packet, if universe u encodes. */
  function AddPacket(seqs: Seqs, built: seq<Sends.Built>, f: Frame, rig: Rig, u: int): (Seqs, seq<Sends.Built>) {
    LevelsSized(f, rig, u);
    match Levels(f, rig, u)
    case Err(_) => (seqs, built)
    case Ok(levels) =>
      var n := NextSeq(Sends.SeqOf(seqs, u));
      (seqs[u := n], built + [PacketFor(n, u, levels)])
  }

  /** The packets of one tick, universe by universe, and the counters afterwards. */
  function Packets(f: Frame, rig: Rig, universes: seq<int>, seqs: Seqs): (Seqs, seq<Sends.Built>) {
    if universes == [] then (seqs, [])
    else
      var (counters, built) := Packets(f, rig, universes[..|universes| - 1], seqs);
      AddPacket(counters, built, f, rig, universes[|universes| - 1])
  }

  /** An idle tick (no frame, no override) builds nothing. */
  function Ticked(frame: Option<Frame>, o: Overrides, s: State, rig: Rig, universes: seq<int>, seqs: Seqs)
    : (Seqs, seq<Sends.Built>)
  {
    if frame == None && o == map[] then (seqs, [])
    else Packets(Composed(if frame.Some? then frame.value else map[], o, s, rig), rig, universes, seqs)
  }

  // ----- The state of each target ---------------------------------------------------------------

  type Dial = (int, Target) -> Option<string>

  /** The states are those of the map's targets, universe by universe and in list order. */
  ghost predicate StatesMatch(states: Sends.States, m: TargetMap) {
    forall u :: StatesMatchList(Sends.StatesOf(states, u), u, ListOf(m, u))
  }

  ghost predicate StatesMatchList(own: seq<Sends.TargetState>, u: int, ts: seq<Target>) {
    |own| == |ts| && forall i :: 0 <= i < |ts| ==> own[i].universe == u && own[i].target == ts[i]
  }

  /** No target is connected yet. */
  ghost predicate IdleList(own: seq<Sends.TargetState>) { forall i :: 0 <= i < |own| ==> !own[i].connected }

  ghost predicate Idle(states: Sends.States) { forall u :: IdleList(Sends.StatesOf(states, u)) }

  /** Exactly those targets of a list are connected whose dial succeeded. */
  ghost predicate DialledList(own: seq<Sends.TargetState>, dial: Dial) {
    forall i :: 0 <= i < |own| ==> own[i].connected == (dial(own[i].universe, own[i].target) == None)
  }

  ghost predicate Dialled(states: Sends.States, dial: Dial) {
    forall u :: DialledList(Sends.StatesOf(states, u), dial)
  }

  /** The given universes are dialled, the others as before. */
  ghost predicate DialledSome(before: Sends.States, states: Sends.States, universes: seq<int>, dial: Dial) {
    forall u :: var own := Sends.StatesOf(states, u);
                if u in universes then DialledList(own, dial) else own == Sends.StatesOf(before, u)
  }

  lemma AllDialled(before: Sends.States, states: Sends.States, m: TargetMap, universes: seq<int>, dial: Dial)
    requires DialledSome(before, states, universes, dial) && StatesMatch(states, m) && H.Walks(universes, m.Keys)
    ensures Dialled(states, dial)
  {
    forall u ensures DialledList(Sends.StatesOf(states, u), dial) {
      if u !in universes { assert StatesMatchList(Sends.StatesOf(states, u), u, ListOf(m, u)); }
    }
  }

  lemma DialledOneMore(before: Sends.States, mid: Sends.States, states: Sends.States, universes: seq<int>, u: int,
                       dial: Dial)
    requires DialledSome(before, mid, universes, dial) && DialledList(Sends.StatesOf(states, u), dial)
    requires forall v :: v != u ==> Sends.StatesOf(states, v) == Sends.StatesOf(mid, v)
    ensures DialledSome(before, states, universes + [u], dial)
  {
    hide DialledList;
  }

  lemma ConnectOne(was: seq<Sends.TargetState>, own: seq<Sends.TargetState>, u: int, ts: seq<Target>, j: nat,
                   dial: Dial)
    requires j < |was| && StatesMatchList(was, u, ts) && DialledList(was[..j], dial) && IdleList(was[j..])
    requires own == if dial(u, ts[j]) == None then was[j := was[j].(connected := true)] else was
    ensures StatesMatchList(own, u, ts) && DialledList(own[..j + 1], dial) && IdleList(own[j + 1..])
  {
    assert was[j..][0] == was[j];
    assert forall i :: 0 <= i < j ==> own[..j + 1][i] == was[..j][i];
    assert own[j + 1..] == was[j..][1..];
  }

  lemma WalksKey(universes: seq<int>, m: TargetMap, i: nat)
    requires H.Walks(universes, m.Keys) && i < |universes|
    ensures universes[i] in m
  {
    var u := universes[i];
    assert u in universes;
    assert u in m.Keys;
  }

  lemma NoneDialled(states: Sends.States, dial: Dial)
    ensures DialledSome(states, states, [], dial)
  {
  }

  lemma StillIdle(before: Sends.States, states: Sends.States, universes: seq<int>, i: nat, dial: Dial)
    requires i < |universes| && DialledSome(before, states, universes[..i], dial) && Idle(before)
    requires NoRepeats(universes)
    ensures IdleList(Sends.StatesOf(states, universes[i]))
  {
    FirstTime(universes, i);
  }

  lemma FirstTime(universes: seq<int>, i: nat)
    requires NoRepeats(universes) && i < |universes|
    ensures universes[i] !in universes[..i]
  {
  }

  lemma DialEventsOneMore(m: TargetMap, universes: seq<int>, u: int, dial: Dial)
    ensures DialEvents(m, universes + [u], dial) == DialEvents(m, universes, dial) + DialEventsOf(u, ListOf(m, u), dial)
  {
    assert (universes + [u])[..|universes|] == universes;
  }

  lemma AfterUniverse(b: H.Board, m: TargetMap, universes: seq<int>, u: int, dial: Dial)
    requires b.configured <= b.entries.Keys
    ensures H.After(b, DialEvents(m, universes + [u], dial))
            == H.After(H.After(b, DialEvents(m, universes, dial)), DialEventsOf(u, ListOf(m, u), dial))
  {
    DialEventsOneMore(m, universes, u, dial);
    H.AfterBoth(b, DialEvents(m, universes, dial), DialEventsOf(u, ListOf(m, u), dial));
  }

  lemma AfterNone(b: H.Board)
    requires b.configured <= b.entries.Keys
    ensures H.After(b, []) == b
  {
  }

  /** What failed dials of one universe report. */
  function DialEventsOf(u: int, ts: seq<Target>, dial: Dial): seq<H.Event> {
    if ts == [] then []
    else
      var t := ts[|ts| - 1];
      var error := dial(u, t);
      DialEventsOf(u, ts[..|ts| - 1], dial) + if error.Some? then [H.Outcome(H.Listed(u, t), error)] else []
  }

  function DialEvents(m: TargetMap, universes: seq<int>, dial: Dial): seq<H.Event> {
    if universes == [] then []
    else
      var u := universes[|universes| - 1];
      DialEvents(m, universes[..|universes| - 1], dial) + DialEventsOf(u, ListOf(m, u), dial)
  }

  /** The states of the given universes' targets, none connected. */
  ghost predicate Prepared(states: Sends.States, m: TargetMap, universes: seq<int>) {
    forall u :: PreparedList(Sends.StatesOf(states, u), u, if u in universes then ListOf(m, u) else [])
  }

  ghost predicate PreparedList(own: seq<Sends.TargetState>, u: int, ts: seq<Target>) {
    StatesMatchList(own, u, ts) && IdleList(own)
  }

  /** One state per target, appended universe by universe. */
  method BuildStates(targets: TargetMap, universes: seq<int>) returns (states: Sends.States)
    requires H.Walks(universes, targets.Keys)
    ensures StatesMatch(states, targets) && Idle(states)
  {
    states := map[];
    for i := 0 to |universes|
      invariant Prepared(states, targets, universes[..i])
    {
      FirstTime(universes, i);
      WalksKey(universes, targets, i);
      assert universes[..i + 1] == universes[..i] + [universes[i]];
      states := AppendStates(states, universes[i], targets, universes[..i]);
    }
    assert universes[..|universes|] == universes;
    AllPrepared(states, targets, universes);
  }

  /** The states of one more universe. */
  method AppendStates(before: Sends.States, u: int, targets: TargetMap, ghost done: seq<int>)
    returns (states: Sends.States)
    requires u in targets && u !in done && Prepared(before, targets, done)
    ensures Prepared(states, targets, done + [u])
  {
    states := before;
    assert PreparedList(Sends.StatesOf(before, u), u, []);
    hide Prepared;
    for j := 0 to |targets[u]|
      invariant forall v :: v != u ==> Sends.StatesOf(states, v) == Sends.StatesOf(before, v)
      invariant PreparedList(Sends.StatesOf(states, u), u, targets[u][..j])
    {
      states := states[u := Sends.StatesOf(states, u) + [Sends.TargetState(u, targets[u][j], false)]];
    }
    assert targets[u][..|targets[u]|] == targets[u];
    PreparedOneMore(before, states, targets, done, u);
  }

  lemma PreparedOneMore(before: Sends.States, states: Sends.States, m: TargetMap, done: seq<int>, u: int)
    requires Prepared(before, m, done) && PreparedList(Sends.StatesOf(states, u), u, ListOf(m, u))
    requires forall v :: v != u ==> Sends.StatesOf(states, v) == Sends.StatesOf(before, v)
    ensures Prepared(states, m, done + [u])
  {
    hide PreparedList;
    forall v ensures PreparedList(Sends.StatesOf(states, v), v, if v in done + [u] then ListOf(m, v) else []) {
      if v != u { assert PreparedList(Sends.StatesOf(before, v), v, if v in done then ListOf(m, v) else []); }
    }
  }

  lemma AllPrepared(states: Sends.States, m: TargetMap, universes: seq<int>)
    requires Prepared(states, m, universes) && H.Walks(universes, m.Keys)
    ensures StatesMatch(states, m) && Idle(states)
  {
    forall u ensures PreparedList(Sends.StatesOf(states, u), u, ListOf(m, u)) {
      assert PreparedList(Sends.StatesOf(states, u), u, if u in universes then ListOf(m, u) else []);
    }
  }

  // ----- What readers see of a tick ---------------------------------------------------------------

  function At(values: map<int, seq<Byte>>, u: int): Option<seq<Byte>> { if u in values then Some(values[u]) else None }

  /** The levels shown after some universes: the new ones where they are configured and
      encode, the old ones elsewhere. */
  ghost predicate Shows(before: map<int, seq<Byte>>, after: map<int, seq<Byte>>, configured: set<int>, f: Frame,
                        rig: Rig, universes: seq<int>) {
    forall u :: At(after, u) == if u in universes && u in configured && Levels(f, rig, u).Ok?
                                then Some(Levels(f, rig, u).value) else At(before, u)
  }

  lemma ShowsNothing(values: map<int, seq<Byte>>, configured: set<int>, f: Frame, rig: Rig)
    ensures Shows(values, values, configured, f, rig, [])
  {
    hide Levels;
  }

  lemma ShowsOneMore(before: map<int, seq<Byte>>, mid: map<int, seq<Byte>>, after: map<int, seq<Byte>>,
                     configured: set<int>, f: Frame, rig: Rig, universes: seq<int>, u: int)
    requires Shows(before, mid, configured, f, rig, universes)
    requires after == if Levels(f, rig, u).Ok? && u in configured then mid[u := Levels(f, rig, u).value] else mid
    ensures Shows(before, after, configured, f, rig, universes + [u])
  {
    hide Levels;
    assert forall v :: v in universes + [u] <==> v in universes || v == u;
  }

  predicate AtMostInt(x: int, y: int) { x <= y }

  class Worker {
    const instancesByUniverse: map<int, seq<Instance>>
    const universes: seq<int>
    const resolve: Instance -> Resolution
    const membership: map<Uuid, seq<Uuid>>
    const health: H.Health
    ghost const rig: Rig
    ghost const targets: TargetMap
    var targetStates: Sends.States
    var seqs: Seqs

    /** What construction settles. */
    ghost predicate WellBuilt() {
      && rig.resolve == resolve && rig.membership == membership
      && Grouped(instancesByUniverse, rig.instances)
      && H.Walks(universes, targets.Keys) && Ordered(universes, AtMostInt)
    }

    ghost predicate Valid()
      reads this, health
    {
      WellBuilt() && StatesMatch(targetStates, targets) && health.Valid()
    }

    /** `NewWorker`: configures the health object, groups the instances by universe, works
        out group membership and builds one state per target.  `listing` and `walk` are the
        orders in which the runtime walks the target map. */
    constructor (instances: seq<Instance>, groups: seq<Group>, resolve: Instance -> Resolution, targets: TargetMap,
                 health: H.Health, listing: seq<int>, walk: seq<int>)
      requires health.Valid() && H.Walks(listing, targets.Keys) && H.Walks(walk, targets.Keys)
      modifies health
      ensures Valid() && rig.instances == instances && seqs == map[] && Idle(targetStates)
      ensures this.targets == targets && this.health == health && this.resolve == resolve
      ensures forall id :: GroupsOf(membership, id) == MembershipOf(instances, groups, id)
      ensures health.Now() == H.Reconfigured(old(health.Now()), H.Listings(targets, listing))
      ensures health.configured == H.AllKeys(targets) && health.configuredUniverses == targets.Keys
      ensures health.values == old(health.values) && health.lastFrameAt == old(health.lastFrameAt)
    {
      health.Configure(targets, listing);
      var byUniverse := GroupByUniverse(instances);
      var members := BuildMembership(instances, groups);
      var sorted := Sorted(walk, AtMostInt);
      SortedWalks(walk, targets.Keys);
      var states := BuildStates(targets, sorted);
      instancesByUniverse, universes, membership, targetStates := byUniverse, sorted, members, states;
      this.resolve, this.health, seqs := resolve, health, map[];
      rig, this.targets := Rig(instances, resolve, members), targets;
    }

    /** `Start`, up to its ticker: dials every target; a failed dial counts as a failed send
        and leaves its target unconnected. */
    method Start(dial: Dial)
      requires Valid() && Idle(targetStates)
      modifies this`targetStates, health
      ensures Valid() && Dialled(targetStates, dial)
      ensures health.Now() == H.After(old(health.Now()), DialEvents(targets, universes, dial))
      ensures health.SameSetup(old(health.configured), old(health.configuredUniverses), old(health.values),
                               old(health.lastFrameAt))
    {
      ghost var before, board := targetStates, health.Now();
      AfterNone(board);
      NoneDialled(before, dial);
      hide DialledSome, StatesMatch, WellBuilt, H.After;
      for i := 0 to |universes|
        invariant DialledFirst(before, board, i, dial)
        invariant health.SameSetup(old(health.configured), old(health.configuredUniverses), old(health.values),
                                   old(health.lastFrameAt))
      {
        DialNext(before, board, i, dial);
      }
      assert universes[..|universes|] == universes;
      AllDialled(before, targetStates, targets, universes, dial) by { assert WellBuilt(); }
    }

    /** The first n universes are dialled, and what failed is reported. */
    ghost predicate DialledFirst(before: Sends.States, board: H.Board, n: nat, dial: Dial)
      requires board.configured <= board.entries.Keys
      reads this, health
    {
      && n <= |universes| && Valid() && DialledSome(before, targetStates, universes[..n], dial)
      && health.Now() == H.After(board, DialEvents(targets, universes[..n], dial))
    }

    method DialNext(ghost before: Sends.States, ghost board: H.Board, n: nat, dial: Dial)
      requires n < |universes| && Idle(before) && board.configured <= board.entries.Keys
      requires DialledFirst(before, board, n, dial)
      modifies this`targetStates, health
      ensures DialledFirst(before, board, n + 1, dial)
      ensures health.SameSetup(old(health.configured), old(health.configuredUniverses), old(health.values),
                               old(health.lastFrameAt))
    {
      ghost var u, mid, done := universes[n], targetStates, universes[..n];
      assert NoRepeats(universes);
      hide H.After, StatesMatch, DialledList, DialledSome, WellBuilt, IdleList, H.Walks, NoRepeats, DialEventsOf,
           ListOf, Sends.StatesOf;
      StillIdle(before, targetStates, universes, n, dial);
      assert universes[..n + 1] == done + [u];
      AfterUniverse(board, targets, done, u, dial);
      DialUniverse(universes[n], dial);
      DialledOneMore(before, mid, targetStates, done, u, dial);
    }

    /** Dials the targets of one universe. */
    method DialUniverse(u: int, dial: Dial)
      requires Valid() && IdleList(Sends.StatesOf(targetStates, u))
      modifies this`targetStates, health
      ensures Valid() && DialledList(Sends.StatesOf(targetStates, u), dial)
      ensures forall v :: v != u ==> Sends.StatesOf(targetStates, v) == Sends.StatesOf(old(targetStates), v)
      ensures health.Now() == H.After(old(health.Now()), DialEventsOf(u, ListOf(targets, u), dial))
      ensures health.SameSetup(old(health.configured), old(health.configuredUniverses), old(health.values),
                               old(health.lastFrameAt))
    {
      hide WellBuilt, H.After, KeyOf;
      ghost var ts := ListOf(targets, u);
      assert StatesMatchList(Sends.StatesOf(targetStates, u), u, ts);
      var own := Sends.StatesOf(targetStates, u);
      ghost var first := own;
      AfterNone(health.Now());
      for j := 0 to |own|
        invariant StatesMatchList(own, u, ts) && DialledList(own[..j], dial) && IdleList(own[j..])
        invariant own == Sends.StatesOf(targetStates, u) && |own| == |first|
        invariant forall v :: v != u ==> Sends.StatesOf(targetStates, v) == Sends.StatesOf(old(targetStates), v)
        invariant health.Valid() && health.Now() == H.After(old(health.Now()), DialEventsOf(u, ts[..j], dial))
        invariant health.SameSetup(old(health.configured), old(health.configuredUniverses), old(health.values),
                                   old(health.lastFrameAt))
      {
        assert ts[..j + 1][..j] == ts[..j];
        ghost var was := own;
        var error := dial(u, own[j].target);
        if error.Some? {
          AfterOneMore(old(health.Now()), DialEventsOf(u, ts[..j], dial), H.Outcome(H.Listed(u, own[j].target), error));
          health.RecordSend(u, own[j].target, error);
        } else {
          assert DialEventsOf(u, ts[..j], dial) + [] == DialEventsOf(u, ts[..j], dial);
          own := own[j := own[j].(connected := true)];
          targetStates := targetStates[u := own];
        }
        ConnectOne(was, own, u, ts, j, dial);
      }
      assert ts[..|ts|] == ts && own[..|own|] == own;
    }

    /** `nextSeq` of one universe. */
    method NextSeqFor(u: int) returns (n: Byte)
      modifies this`seqs
      ensures n == NextSeq(Sends.SeqOf(old(seqs), u)) && seqs == old(seqs)[u := n]
    {
      n := NextSeq(if u in seqs then seqs[u] else 0);
      seqs := seqs[u := n];
    }

    /** The levels of universe u. */
    method UniverseLevels(f: Frame, u: int) returns (r: Result<seq<Byte>, EncodeError>)
      requires Valid()
      ensures r == Levels(f, rig, u) && Sized(r)
    {
      LevelsSized(f, rig, u);
      assert GroupOf(instancesByUniverse, u) == Only(rig.instances, u);
      var own := if u in instancesByUniverse then instancesByUniverse[u] else [];
      var buffers := Encode(f, own, resolve);
      hide Encoded, Only;
      match buffers {
        case Err(e) => r := Err(e);
        case Ok(bs) => r := Ok(if u in bs then bs[u] else Zeros());
      }
    }

    /** The packet of universe u, if it encodes; its levels are recorded first. */
    method BuildPacket(before: seq<Sends.Built>, f: Frame, u: int) returns (built: seq<Sends.Built>)
      requires Valid()
      modifies this`seqs, health
      ensures Valid() && (seqs, built) == AddPacket(old(seqs), before, f, rig, u)
      ensures health.values == if Levels(f, rig, u).Ok? && u in health.configuredUniverses
                               then old(health.values)[u := Levels(f, rig, u).value] else old(health.values)
      ensures health.Now() == old(health.Now()) && health.configuredUniverses == old(health.configuredUniverses)
      ensures health.lastFrameAt == old(health.lastFrameAt)
    {
      var r := UniverseLevels(f, u);
      hide Levels, Wire, NextSeq, Sends.SeqOf, WellBuilt, StatesMatch, PacketFor;
      built := before;
      if r.Ok? {
        health.RecordUniverseValues(u, r.value);
        var packet := NextPacket(u, r.value);
        built := before + [packet];
      }
    }

    /** The next packet of universe u. */
    method NextPacket(u: int, levels: seq<Byte>) returns (packet: Sends.Built)
      requires |levels| == CHANNELS_PER_UNIVERSE
      modifies this`seqs
      ensures var n := NextSeq(Sends.SeqOf(old(seqs), u));
              seqs == old(seqs)[u := n] && packet == PacketFor(n, u, levels)
    {
      hide Wire, NextSeq, Sends.SeqOf;
      var n := NextSeqFor(u);
      SplitNibbles(u);
      var encoded := EncodeArtDmx(n, 0, PortAddress(u), levels);
      packet := Sends.Built(u, encoded.value);
    }

    /** `tick`, up to the packets it offers to its targets. */
    method Tick(now: int, frame: Option<Frame>, o: Overrides, s: State) returns (built: seq<Sends.Built>)
      requires Valid()
      modifies this`seqs, health
      ensures Valid() && (seqs, built) == Ticked(frame, o, s, rig, universes, old(seqs))
      ensures var idle := frame == None && o == map[];
              && health.lastFrameAt == (if idle then old(health.lastFrameAt) else now)
              && Shows(old(health.values), health.values, health.configuredUniverses,
                       Composed(if frame.Some? then frame.value else map[], o, s, rig), rig,
                       if idle then [] else universes)
      ensures health.Now() == old(health.Now()) && health.configuredUniverses == old(health.configuredUniverses)
    {
      hide Levels, StatesMatch, Packets, Overlaid, Overridden, Grouped, Ordered, H.Walks;
      built := [];
      if frame == None && o == map[] {
        ShowsNothing(health.values, health.configuredUniverses, Composed(map[], o, s, rig), rig);
        return;
      }
      health.RecordFrame(now);
      var withDesk := ApplyDesk(if frame.Some? then frame.value else map[], o);
      var f := ApplyOverrides(withDesk, s, membership);
      built := BuildPackets(f);
    }

    /** The packets of every universe, in ascending order. */
    method BuildPackets(f: Frame) returns (built: seq<Sends.Built>)
      requires Valid()
      modifies this`seqs, health
      ensures Valid() && (seqs, built) == Packets(f, rig, universes, old(seqs))
      ensures Shows(old(health.values), health.values, health.configuredUniverses, f, rig, universes)
      ensures health.Now() == old(health.Now()) && health.configuredUniverses == old(health.configuredUniverses)
      ensures health.lastFrameAt == old(health.lastFrameAt)
    {
      hide AddPacket, Levels, StatesMatch, WellBuilt, Shows;
      built := [];
      ShowsNothing(health.values, health.configuredUniverses, f, rig);
      for i := 0 to |universes|
        invariant Valid() && (seqs, built) == Packets(f, rig, universes[..i], old(seqs))
        invariant Shows(old(health.values), health.values, health.configuredUniverses, f, rig, universes[..i])
        invariant health.Now() == old(health.Now()) && health.configuredUniverses == old(health.configuredUniverses)
        invariant health.lastFrameAt == old(health.lastFrameAt)
      {
        assert universes[..i + 1][..i] == universes[..i];
        assert universes[..i + 1] == universes[..i] + [universes[i]];
        ghost var mid := health.values;
        built := BuildPacket(built, f, universes[i]);
        ShowsOneMore(old(health.values), mid, health.values, health.configuredUniverses, f, rig, universes[..i],
                     universes[i]);
      }
      assert universes[..|universes|] == universes;
    }
  }

  lemma AfterOneMore(b: H.Board, events: seq<H.Event>, e: H.Event)
    requires b.configured <= b.entries.Keys && e.Outcome?
    ensures H.After(b, events + [e]) == H.Recorded(H.After(b, events), e.from, e.error)
  {
    assert (events + [e])[..|events|] == events;
  }

  /** The sorted universes still walk the map, each once. */
  lemma SortedWalks(walk: seq<int>, keys: set<int>)
    requires H.Walks(walk, keys)
    ensures var r := Sorted(walk, AtMostInt); H.Walks(r, keys) && Ordered(r, AtMostInt)
  {
    var r := Sorted(walk, AtMostInt);
    SortedIsOrdered(walk, AtMostInt);
    NoRepeatsCount(walk);
    NoRepeatsCount(r);
    forall u ensures u in r <==> u in walk { SameMembers(r, walk, u); }
  }

  /** A build step of the send system does to counters and packets what a tick does. */
  lemma BuildStepAgrees(s: Sends.System, states: Sends.States, f: Frame, rig: Rig, u: int)
    requires s.offers == []
    ensures var levels := Levels(f, rig, u);
            var r := Sends.BuildStep(s, states, u, if levels.Ok? then Some(levels.value) else None);
            (r.seqs, r.built) == AddPacket(s.seqs, s.built, f, rig, u)
  {
    LevelsSized(f, rig, u);
    hide Levels, Wire, NextSeq, Sends.SeqOf;
  }

  // ----- What the packets of a tick carry ------------------------------------------------------

  /** Every packet of a tick is the packet of one configured universe, with that
      universe's levels in its data bytes. */
  lemma {:induction false} PacketsCarryLevels(f: Frame, rig: Rig, universes: seq<int>, seqs: Seqs, i: nat)
    requires i < |Packets(f, rig, universes, seqs).1|
    ensures var b := Packets(f, rig, universes, seqs).1[i];
            && b.universe in universes && Levels(f, rig, b.universe).Ok?
            && |b.packet| == HEADER_LENGTH + CHANNELS_PER_UNIVERSE
            && |Levels(f, rig, b.universe).value| == CHANNELS_PER_UNIVERSE
            && b.packet[HEADER_LENGTH..] == Levels(f, rig, b.universe).value
            && Parse(b.packet).Some? && Parse(b.packet).value.portAddress == PortAddress(b.universe)
  {
    hide Levels;
    var u := universes[|universes| - 1];
    var (counters, built) := Packets(f, rig, universes[..|universes| - 1], seqs);
    if i < |built| {
      PacketsCarryLevels(f, rig, universes[..|universes| - 1], seqs, i);
    } else {
      LevelsSized(f, rig, u);
      var m := Dmx(NextSeq(Sends.SeqOf(counters, u)), 0, PortAddress(u), Levels(f, rig, u).value);
      SplitNibbles(u);
      ParseOfWire(m);
      WireShape(m);
    }
  }

  /** A universe gets a packet exactly when it is configured and its levels encode. */
  lemma {:induction false} PacketIffEncodes(f: Frame, rig: Rig, universes: seq<int>, seqs: Seqs, u: int)
    ensures (exists b :: b in Packets(f, rig, universes, seqs).1 && b.universe == u)
            <==> u in universes && Levels(f, rig, u).Ok?
  {
    hide Levels, Wire;
    if universes != [] {
      var front, last := universes[..|universes| - 1], universes[|universes| - 1];
      var (counters, built) := Packets(f, rig, front, seqs);
      PacketIffEncodes(f, rig, front, seqs, u);
      LevelsSized(f, rig, last);
      assert u in universes <==> u in front || u == last;
      var all := Packets(f, rig, universes, seqs).1;
      assert forall b :: b in built ==> b in all;
      if Levels(f, rig, last).Ok? {
        assert all[|all| - 1].universe == last;
        assert forall b :: b in all ==> b in built || b == all[|all| - 1];
      }
    }
  }

  /** While blackout or stop-all is on, whatever the frame, the desk and the masters: a
      data byte of any packet is 0 if an intensity has the last word on its channel, and
      otherwise what the same tick would send in any other safety state. */
  lemma DarkPackets(frame: Option<Frame>, o: Overrides, s: State, t: State, rig: Rig, universes: seq<int>, seqs: Seqs,
                    i: nat, c: nat)
    requires s.Dark() && c < CHANNELS_PER_UNIVERSE
    requires i < |Ticked(frame, o, s, rig, universes, seqs).1|
    ensures var b := Ticked(frame, o, s, rig, universes, seqs).1[i];
            var base := if frame.Some? then frame.value else map[];
            var lit := Sent(base, o, t, rig, b.universe);
            && |b.packet| == HEADER_LENGTH + CHANNELS_PER_UNIVERSE
            && lit.Ok? && |lit.value| == CHANNELS_PER_UNIVERSE
            && b.packet[HEADER_LENGTH + c]
               == if Kind(Composed(base, o, s, rig), rig, b.universe, c) == Some(INTENSITY) then 0 else lit.value[c]
  {
    hide Levels, Kind, Composed, Parse;
    var base := if frame.Some? then frame.value else map[];
    var f := Composed(base, o, s, rig);
    var b := Packets(f, rig, universes, seqs).1[i];
    hide Packets;
    PacketsCarryLevels(f, rig, universes, seqs, i);
    DarkLevels(base, o, s, t, rig, b.universe);
    assert b.packet[HEADER_LENGTH + c] == b.packet[HEADER_LENGTH..][c];
  }

  /** The same by the rig alone: a data byte of a blacked-out tick is 0 if the last instance
      in list order that lands on its channel has an intensity there, or if none lands. */
  lemma DarkPacketSlots(frame: Option<Frame>, o: Overrides, s: State, t: State, rig: Rig, universes: seq<int>,
                        seqs: Seqs, i: nat, c: nat)
    returns (j: int)
    requires s.Dark() && c < CHANNELS_PER_UNIVERSE
    requires i < |Ticked(frame, o, s, rig, universes, seqs).1|
    ensures var u := Ticked(frame, o, s, rig, universes, seqs).1[i].universe;
            var f := Overlaid(if frame.Some? then frame.value else map[], o);
            && -1 <= j < |rig.instances|
            && (forall m :: j < m < |rig.instances| ==> !Lands(f, rig.instances[m], rig.resolve, u, c))
            && (j >= 0 ==> Lands(f, rig.instances[j], rig.resolve, u, c))
    ensures var b := Ticked(frame, o, s, rig, universes, seqs).1[i];
            var lit := Sent(if frame.Some? then frame.value else map[], o, t, rig, b.universe);
            && |b.packet| == HEADER_LENGTH + CHANNELS_PER_UNIVERSE
            && lit.Ok? && |lit.value| == CHANNELS_PER_UNIVERSE
            && b.packet[HEADER_LENGTH + c]
               == if j < 0 || SlotAt(rig.instances[j], rig.resolve, c).kind == INTENSITY then 0 else lit.value[c]
  {
    hide Levels, Parse, Overlaid, Overridden, SlotAt, Covers;
    var base := if frame.Some? then frame.value else map[];
    var f := Composed(base, o, s, rig);
    var b := Packets(f, rig, universes, seqs).1[i];
    hide Packets;
    PacketsCarryLevels(f, rig, universes, seqs, i);
    j := DarkByLastLanding(base, o, s, t, rig, b.universe, c);
    assert b.packet[HEADER_LENGTH + c] == b.packet[HEADER_LENGTH..][c];
  }
}
