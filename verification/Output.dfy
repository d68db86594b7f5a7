/** From frame to DMX levels: the desk, then the safety state, then the channel map
    of one universe.  What safety does to the bytes that leave the process. */
module Output {
  import opened Prelude
  import opened Fixtures
  import opened ChannelMap
  import opened Safety
  import opened Desk

  /** What a worker is built from. */
  datatype Rig = Rig(instances: seq<Instance>, resolve: Instance -> Resolution, membership: map<Uuid, seq<Uuid>>)

  /** The levels of one universe, encoded from its own instances only. */
  function Levels(frame: Frame, rig: Rig, u: int): Result<seq<Byte>, EncodeError> {
    match Encoded(frame, Only(rig.instances, u), rig.resolve)
    case Err(e) => Err(e)
    case Ok(buffers) => Ok(if u in buffers then buffers[u] else Zeros())
  }

  /** The frame after the desk and the safety state. */
  function Composed(frame: Frame, o: Overrides, s: State, rig: Rig): Frame {
    Overridden(Overlaid(frame, o), s, rig.membership)
  }

  /** The levels a tick sends to universe u. */
  function Sent(frame: Frame, o: Overrides, s: State, rig: Rig, u: int): Result<seq<Byte>, EncodeError> {
    Levels(Composed(frame, o, s, rig), rig, u)
  }

  /** Everything painted on universe u by a tick. */
  function PaintedOn(frame: Frame, rig: Rig, u: int): Result<seq<Painted>, EncodeError> {
    Paint(frame, Only(rig.instances, u), rig.resolve)
  }

  /** The capability that has the last word on channel o of universe u. */
  function KindAt(ws: seq<Painted>, u: int, o: int): Option<Capability> {
    var i := LastAt(ws, u, o);
    if i < 0 then None else Some(ws[i].kind)
  }

  lemma SomeUniverse(instances: seq<Instance>)
    ensures instances != [] ==> Universes(instances) != {}
  {
    if instances != [] { assert instances[0].universe in Universes(instances); }
  }

  lemma LevelsArePainted(frame: Frame, rig: Rig, u: int)
    ensures Levels(frame, rig, u)
            == match PaintedOn(frame, rig, u) case Err(e) => Err(e) case Ok(ws) => Ok(Buffer(ws, u))
  {
    var own := Only(rig.instances, u);
    OnlyUniverse(rig.instances, u);
    if Paint(frame, own, rig.resolve).Ok? && u !in Universes(own) {
      SomeUniverse(own);
      assert Buffer([], u) == Zeros();
    }
  }

  // ----- Frames that differ only in values -------------------------------------------------

  /** A channel nobody paints is 0; otherwise rel holds for its last painter. */
  predicate ChannelRelated(kind: Option<Capability>, x: Byte, y: Byte, rel: (Capability, Byte, Byte) -> bool) {
    match kind
    case None => x == y == 0
    case Some(k) => rel(k, x, y)
  }

  ghost predicate ChannelsRelated(a: seq<Byte>, b: seq<Byte>, kinds: int -> Option<Capability>,
                                  rel: (Capability, Byte, Byte) -> bool)
  {
    && |a| == |b| == CHANNELS_PER_UNIVERSE
    && forall o :: 0 <= o < |a| ==> ChannelRelated(kinds(o), a[o], b[o], rel)
  }

  /** Two outcomes: the same error, or levels related channel by channel. */
  ghost predicate LevelsRelated(x: Result<seq<Byte>, EncodeError>, y: Result<seq<Byte>, EncodeError>,
                                kinds: int -> Option<Capability>, rel: (Capability, Byte, Byte) -> bool)
  {
    match (x, y)
    case (Err(e), Err(d)) => e == d
    case (Ok(a), Ok(b)) => ChannelsRelated(a, b, kinds, rel)
    case _ => false
  }

  function Kind(frame: Frame, rig: Rig, u: int, o: int): Option<Capability> {
    match PaintedOn(frame, rig, u)
    case Err(_) => None
    case Ok(ws) => KindAt(ws, u, o)
  }

  function Kinds(frame: Frame, rig: Rig, u: int): int -> Option<Capability> {
    o => Kind(frame, rig, u, o)
  }

  lemma AlignedBytes(ws: seq<Painted>, vs: seq<Painted>, rel: (Capability, Byte, Byte) -> bool, u: int, o: int)
    requires Aligned(ws, vs, rel)
    ensures ChannelRelated(KindAt(ws, u, o), ByteAt(ws, u, o), ByteAt(vs, u, o), rel)
  {
    AlignLast(ws, vs, rel, u, o);
  }

  lemma RelatedFrames(f: Frame, g: Frame, rig: Rig, u: int, rel: (Capability, Byte, Byte) -> bool)
    requires Related(f, g, rel)
    ensures LevelsRelated(Levels(f, rig, u), Levels(g, rig, u), Kinds(f, rig, u), rel)
  {
    LevelsArePainted(f, rig, u);
    LevelsArePainted(g, rig, u);
    AlignPaint(f, g, Only(rig.instances, u), rig.resolve, rel);
    hide Paint, Related, Levels, ByteAt, KindAt, Aligned;
    match PaintedOn(f, rig, u) {
      case Err(_) =>
      case Ok(ws) =>
        var vs := PaintedOn(g, rig, u).value;
        forall o | 0 <= o < CHANNELS_PER_UNIVERSE
          ensures ChannelRelated(KindAt(ws, u, o), Buffer(ws, u)[o], Buffer(vs, u)[o], rel)
        {
          AlignedBytes(ws, vs, rel, u, o);
        }
    }
  }

  // ----- Lowering ---------------------------------------------------------------------------

  /** s lets through at most what t lets through. */
  ghost predicate NoBrighter(s: State, t: State) {
    s.Dark() || (!t.Dark() && ValidMasters(s.masters) && ValidMasters(t.masters) && AtMost(s.masters, t.masters))
  }

  function Dimmer(k: Capability, x: Byte, y: Byte): bool { if k == INTENSITY then x <= y else x == y }

  lemma DimmedAttributes(attrs: AttributeSet, s: State, t: State, gs: seq<Uuid>, k: Capability)
    requires NoBrighter(s, t) && k in attrs
    ensures Mastered(attrs, s, gs).Keys == Mastered(attrs, t, gs).Keys == attrs.Keys
    ensures Dimmer(k, ScaleToByte(Mastered(attrs, s, gs)[k]), ScaleToByte(Mastered(attrs, t, gs)[k]))
  {
    hide Times;
    if k == INTENSITY && !s.Dark() {
      MultiplierMono(s.masters, t.masters, gs);
      hide Multiplier, AtMost, ValidMasters, ScaleToByte, ClampUnit;
      var a, b := Multiplier(s.masters, gs), Multiplier(t.masters, gs);
      ScaledMono(attrs[k], a, b);
      ScaleIsMonotone(ClampUnit(Times(attrs[k], a)), ClampUnit(Times(attrs[k], b)));
    }
  }

  lemma DimmedFrames(f: Frame, s: State, t: State, membership: map<Uuid, seq<Uuid>>)
    requires NoBrighter(s, t)
    ensures Related(Overridden(f, s, membership), Overridden(f, t, membership), Dimmer)
  {
    var a, b := Overridden(f, s, membership), Overridden(f, t, membership);
    hide NoBrighter, Mastered, ScaleToByte, Dimmer;
    forall id | id in f ensures a[id].Keys == b[id].Keys == f[id].Keys {
      MasteredKeys(f[id], s, GroupsOf(membership, id));
      MasteredKeys(f[id], t, GroupsOf(membership, id));
    }
    forall id, k | id in f && k in f[id]
      ensures Dimmer(k, ScaleToByte(a[id][k]), ScaleToByte(b[id][k]))
    {
      DimmedAttributes(f[id], s, t, GroupsOf(membership, id), k);
    }
  }

  lemma MasteredKeys(attrs: AttributeSet, s: State, gs: seq<Uuid>)
    ensures Mastered(attrs, s, gs).Keys == attrs.Keys
  {
  }

  /** Turning the safety state down never raises a byte, never moves a byte that is not
      an intensity, and changes neither whether a universe encodes nor its error. */
  lemma LoweringNeverRaises(frame: Frame, o: Overrides, s: State, t: State, rig: Rig, u: int)
    requires NoBrighter(s, t)
    ensures LevelsRelated(Sent(frame, o, s, rig, u), Sent(frame, o, t, rig, u),
                          Kinds(Composed(frame, o, s, rig), rig, u), Dimmer)
    ensures var x, y := Sent(frame, o, s, rig, u), Sent(frame, o, t, rig, u);
            x.Ok? ==> y.Ok? && forall c :: 0 <= c < CHANNELS_PER_UNIVERSE ==> x.value[c] <= y.value[c]
  {
    DimmedFrames(Overlaid(frame, o), s, t, rig.membership);
    hide Overridden, NoBrighter, Levels, Kinds, Related;
    RelatedFrames(Composed(frame, o, s, rig), Composed(frame, o, t, rig), rig, u, Dimmer);
  }

  lemma IdentityTop(m: Masters)
    requires ValidMasters(m)
    ensures AtMost(m, IDENTITY)
  {
    forall g ensures Level(m, g) <= Level(IDENTITY, g) { LevelInUnit(m, g); }
  }

  lemma {:induction false} IdentityMultiplier(gs: seq<Uuid>)
    ensures Multiplier(IDENTITY, gs) == 1.0
  {
    if gs != [] { IdentityMultiplier(gs[..|gs| - 1]); }
  }

  function Same(k: Capability, x: Byte, y: Byte): bool { x == y }

  /** With no blackout and all masters at full, the levels are the frame's own. */
  lemma IdentityIsTransparent(frame: Frame, rig: Rig, u: int)
    ensures Levels(Overridden(frame, State(false, false, IDENTITY), rig.membership), rig, u) == Levels(frame, rig, u)
  {
    var f := Overridden(frame, State(false, false, IDENTITY), rig.membership);
    forall id | id in frame
      ensures f[id].Keys == frame[id].Keys
      ensures forall k :: k in f[id] ==> ScaleToByte(f[id][k]) == ScaleToByte(frame[id][k])
    {
      IdentityMultiplier(GroupsOf(rig.membership, id));
    }
    assert Related(f, frame, Same);
    RelatedFrames(f, frame, rig, u, Same);
    hide Levels, Related, Overridden;
    if Levels(f, rig, u).Ok? {
      assert Levels(f, rig, u).value == Levels(frame, rig, u).value;
    }
  }

  /** No master raises a byte above the unmastered one. */
  lemma MasteredAtMostUnmastered(frame: Frame, o: Overrides, s: State, rig: Rig, u: int)
    requires ValidMasters(s.masters)
    ensures var x, y := Sent(frame, o, s, rig, u), Levels(Overlaid(frame, o), rig, u);
            && (x.Err? <==> y.Err?)
            && (x.Err? ==> x == y)
            && (x.Ok? ==> forall c :: 0 <= c < CHANNELS_PER_UNIVERSE ==> x.value[c] <= y.value[c])
  {
    var full := State(false, false, IDENTITY);
    IdentityTop(s.masters);
    LoweringNeverRaises(frame, o, s, full, rig, u);
    IdentityIsTransparent(Overlaid(frame, o), rig, u);
  }

  // ----- Blackout and stop-all ----------------------------------------------------------------

  function Blacked(k: Capability, x: Byte, y: Byte): bool { if k == INTENSITY then x == 0 else x == y }

  lemma DarkFrames(f: Frame, s: State, t: State, membership: map<Uuid, seq<Uuid>>)
    requires s.Dark()
    ensures Related(Overridden(f, s, membership), Overridden(f, t, membership), Blacked)
  {
  }

  /** Under blackout or stop-all: a channel whose last painter is an intensity is 0,
      every other channel is what any other safety state would send, and so are errors. */
  lemma DarkLevels(frame: Frame, o: Overrides, s: State, t: State, rig: Rig, u: int)
    requires s.Dark()
    ensures LevelsRelated(Sent(frame, o, s, rig, u), Sent(frame, o, t, rig, u),
                          Kinds(Composed(frame, o, s, rig), rig, u), Blacked)
  {
    DarkFrames(Overlaid(frame, o), s, t, rig.membership);
    hide Overridden, Levels, Kinds, Related;
    RelatedFrames(Composed(frame, o, s, rig), Composed(frame, o, t, rig), rig, u, Blacked);
  }

  function Anything(k: Capability, x: Byte, y: Byte): bool { true }

  /** No safety state, and no group membership, decides whether a universe encodes or
      with which error it fails. */
  lemma SafetyNeverChangesErrors(frame: Frame, o: Overrides, s: State, t: State, rig: Rig, u: int)
    ensures Sent(frame, o, s, rig, u).Err? <==> Sent(frame, o, t, rig, u).Err?
    ensures Sent(frame, o, s, rig, u).Err? ==> Sent(frame, o, s, rig, u) == Sent(frame, o, t, rig, u)
  {
    var f := Overlaid(frame, o);
    assert Related(Overridden(f, s, rig.membership), Overridden(f, t, rig.membership), Anything) by {
      hide ScaleToByte, Overlaid, Multiplier, ClampUnit;
    }
    hide Overridden, Levels, Related, Overlaid, Kinds;
    RelatedFrames(Composed(frame, o, s, rig), Composed(frame, o, t, rig), rig, u, Anything);
  }
}
