/** Whole ticks in the send system: however the send goroutines interleave, what is built
    is what the ticks build one after the other. */
module SendTicks {
  import opened Prelude
  import opened Fixtures
  import opened ChannelMap
  import opened Packet
  import opened Safety
  import opened Desk
  import opened Output
  import opened Sends
  import W = Worker

  /** The part of the system only the tick goroutine touches. */
  datatype Ticker = Ticker(seqs: W.Seqs, built: seq<Built>, offers: seq<TargetId>)

  function TickerOf(s: System): Ticker { Ticker(s.seqs, s.built, s.offers) }

  predicate OfTick(a: Action) { a.Build? || a.Offer? }

  function TickerStep(k: Ticker, states: States, a: Action): Ticker {
    match a
    case Build(u, levels) =>
      if k.offers != [] || !Levels512(levels) then k
      else
        var n := NextSeq(SeqOf(k.seqs, u));
        Ticker(k.seqs[u := n], k.built + [Built(u, Wire(Dmx(n, 0, PortAddress(u), levels.value)))],
               TargetsOf(states, u))
    case Offer =>
      if k.offers == [] || !Known(states, k.offers[0]) || k.built == [] then k else k.(offers := k.offers[1..])
    case _ => k
  }

  function TickerRun(k: Ticker, states: States, actions: seq<Action>): Ticker {
    if actions == [] then k
    else TickerStep(TickerRun(k, states, actions[..|actions| - 1]), states, actions[|actions| - 1])
  }

  /** The steps of the tick goroutine among all steps. */
  function TickPart(actions: seq<Action>): seq<Action> {
    if actions == [] then []
    else
      var a := actions[|actions| - 1];
      TickPart(actions[..|actions| - 1]) + if OfTick(a) then [a] else []
  }

  const BEGINNING := Ticker(map[], [], [])

  lemma StepTicks(s: System, states: States, a: Action)
    ensures TickerOf(Apply(s, states, a)) == TickerStep(TickerOf(s), states, a)
  {
    hide Wire, NextSeq, SeqOf, TargetsOf, NotConnected;
  }

  lemma {:induction false} TickerAlone(states: States, actions: seq<Action>)
    ensures TickerOf(Run(states, actions)) == TickerRun(BEGINNING, states, TickPart(actions))
  {
    if actions != [] {
      var front, a := actions[..|actions| - 1], actions[|actions| - 1];
      TickerAlone(states, front);
      StepTicks(Run(states, front), states, a);
      hide Apply, TickerStep;
      if OfTick(a) {
        assert TickPart(actions)[..|TickPart(actions)| - 1] == TickPart(front);
      } else {
        OthersTickNothing(TickerOf(Run(states, front)), states, a);
        assert TickPart(actions) == TickPart(front);
      }
    }
  }

  lemma OthersTickNothing(k: Ticker, states: States, a: Action)
    requires !OfTick(a)
    ensures TickerStep(k, states, a) == k
  {
  }

  lemma {:induction false} TickerBoth(k: Ticker, states: States, some: seq<Action>, more: seq<Action>)
    ensures TickerRun(k, states, some + more) == TickerRun(TickerRun(k, states, some), states, more)
  {
    if more == [] {
      assert some + more == some;
    } else {
      hide TickerStep;
      TickerBoth(k, states, some, more[..|more| - 1]);
      assert (some + more)[..|some + more| - 1] == some + more[..|more| - 1];
    }
  }

  // ----- One tick -----------------------------------------------------------------------------------

  function Offers(n: nat): seq<Action> { seq(n, _ => Offer) }

  /** What a tick does for one universe: build its packet, if it encodes, and offer it to
      each target. */
  function UniverseProgram(f: Frame, rig: Rig, u: int, states: States): seq<Action> {
    match Levels(f, rig, u)
    case Err(_) => []
    case Ok(levels) => [Build(u, Some(levels))] + Offers(|StatesOf(states, u)|)
  }

  function Program(f: Frame, rig: Rig, universes: seq<int>, states: States): seq<Action> {
    if universes == [] then []
    else Program(f, rig, universes[..|universes| - 1], states)
         + UniverseProgram(f, rig, universes[|universes| - 1], states)
  }

  lemma {:induction false} OffersDrain(k: Ticker, states: States, n: nat)
    requires k.built != [] && n <= |k.offers| && forall i :: 0 <= i < |k.offers| ==> Known(states, k.offers[i])
    ensures TickerRun(k, states, Offers(n)) == k.(offers := k.offers[n..])
  {
    if n > 0 {
      OffersDrain(k, states, n - 1);
      assert Offers(n)[..n - 1] == Offers(n - 1);
      assert k.offers[n - 1..][1..] == k.offers[n..];
    }
  }

  lemma UniverseTicks(k: Ticker, f: Frame, rig: Rig, u: int, states: States)
    requires k.offers == []
    ensures var r := W.AddPacket(k.seqs, k.built, f, rig, u);
            TickerRun(k, states, UniverseProgram(f, rig, u, states)) == Ticker(r.0, r.1, [])
  {
    W.LevelsSized(f, rig, u);
    var levels := Levels(f, rig, u);
    hide Levels, Wire, NextSeq, SeqOf;
    if levels.Ok? {
      var build := [Build(u, Some(levels.value))];
      assert build[..0] == [] && TickerRun(k, states, build[..0]) == k;
      var mid := TickerRun(k, states, build);
      assert mid == TickerStep(k, states, build[0]);
      OffersDrain(mid, states, |StatesOf(states, u)|);
      TickerBoth(k, states, build, Offers(|StatesOf(states, u)|));
    }
  }

  lemma {:induction false} AddPacketLater(seqs: W.Seqs, first: seq<Built>, built: seq<Built>, f: Frame, rig: Rig,
                                          u: int)
    ensures var r, q := W.AddPacket(seqs, built, f, rig, u), W.AddPacket(seqs, first + built, f, rig, u);
            q.0 == r.0 && q.1 == first + r.1
  {
    hide Levels, Wire, NextSeq, SeqOf;
  }

  lemma {:induction false} ProgramTicks(k: Ticker, f: Frame, rig: Rig, universes: seq<int>, states: States)
    requires k.offers == []
    ensures var r := W.Packets(f, rig, universes, k.seqs);
            TickerRun(k, states, Program(f, rig, universes, states)) == Ticker(r.0, k.built + r.1, [])
  {
    if universes == [] {
      assert k.built + [] == k.built;
    } else {
      var front, u := universes[..|universes| - 1], universes[|universes| - 1];
      ProgramTicks(k, f, rig, front, states);
      hide UniverseProgram, W.AddPacket;
      var mid := TickerRun(k, states, Program(f, rig, front, states));
      TickerBoth(k, states, Program(f, rig, front, states), UniverseProgram(f, rig, u, states));
      UniverseTicks(mid, f, rig, u, states);
      AddPacketLater(mid.seqs, k.built, W.Packets(f, rig, front, k.seqs).1, f, rig, u);
    }
  }

  // ----- Any number of ticks -----------------------------------------------------------------------

  /** What a tick finds: the engine's frame, the desk and the safety state. */
  datatype Input = Input(frame: Option<Frame>, overrides: Overrides, safety: State)

  function TickProgram(i: Input, rig: Rig, universes: seq<int>, states: States): seq<Action> {
    if i.frame == None && i.overrides == map[] then []
    else Program(Composed(if i.frame.Some? then i.frame.value else map[], i.overrides, i.safety, rig), rig, universes,
                 states)
  }

  function TickPrograms(inputs: seq<Input>, rig: Rig, universes: seq<int>, states: States): seq<Action> {
    if inputs == [] then []
    else TickPrograms(inputs[..|inputs| - 1], rig, universes, states)
         + TickProgram(inputs[|inputs| - 1], rig, universes, states)
  }

  /** The packets of all ticks, one tick after the other. */
  function AllTicked(inputs: seq<Input>, rig: Rig, universes: seq<int>): (W.Seqs, seq<Built>) {
    if inputs == [] then (map[], [])
    else
      var (seqs, built) := AllTicked(inputs[..|inputs| - 1], rig, universes);
      var i := inputs[|inputs| - 1];
      var r := W.Ticked(i.frame, i.overrides, i.safety, rig, universes, seqs);
      (r.0, built + r.1)
  }

  lemma {:induction false} ProgramsTick(inputs: seq<Input>, rig: Rig, universes: seq<int>, states: States)
    ensures var r := AllTicked(inputs, rig, universes);
            TickerRun(BEGINNING, states, TickPrograms(inputs, rig, universes, states)) == Ticker(r.0, r.1, [])
  {
    if inputs != [] {
      var front, i := inputs[..|inputs| - 1], inputs[|inputs| - 1];
      ProgramsTick(front, rig, universes, states);
      var (seqs, built) := AllTicked(front, rig, universes);
      var mid := Ticker(seqs, built, []);
      TickerBoth(BEGINNING, states, TickPrograms(front, rig, universes, states),
                 TickProgram(i, rig, universes, states));
      hide W.Packets, Program, Composed;
      if i.frame == None && i.overrides == map[] {
        assert built + [] == built;
      } else {
        ProgramTicks(mid, Composed(if i.frame.Some? then i.frame.value else map[], i.overrides, i.safety, rig), rig,
                     universes, states);
      }
    }
  }

  /** If the tick goroutine has run some ticks to their end, then wherever the send
      goroutines stand, the packets built and the counters are those of the ticks alone. */
  lemma TicksBuildTheirPackets(states: States, actions: seq<Action>, inputs: seq<Input>, rig: Rig, universes: seq<int>)
    requires TickPart(actions) == TickPrograms(inputs, rig, universes, states)
    ensures var s := Run(states, actions);
            (s.seqs, s.built) == AllTicked(inputs, rig, universes) && s.offers == []
  {
    TickerAlone(states, actions);
    ProgramsTick(inputs, rig, universes, states);
  }
}
