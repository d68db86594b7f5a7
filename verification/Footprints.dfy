/** Where bytes come from: which instance has the last word on a channel, exactly when
    a universe encodes, and what that means for blackout and for the desk. */
module Footprints {
  import opened Prelude
  import opened Fixtures
  import opened ChannelMap
  import opened Safety
  import opened Desk
  import opened Output

  /** The channels an instance is wired to. */
  function Channels(inst: Instance, resolve: Instance -> Resolution): seq<Slot> {
    match resolve(inst)
    case Resolved(channels) => channels
    case Unresolved(_) => []
  }

  /** Channel o of universe u belongs to the instance. */
  predicate Covers(inst: Instance, resolve: Instance -> Resolution, u: int, o: int) {
    inst.universe == u && inst.address - 1 <= o < inst.address - 1 + |Channels(inst, resolve)|
  }

  function SlotAt(inst: Instance, resolve: Instance -> Resolution, o: int): Slot
    requires Covers(inst, resolve, inst.universe, o)
  {
    Channels(inst, resolve)[o - (inst.address - 1)]
  }

  // ----- The last word on a channel -----------------------------------------------------------

  function Last(ws: seq<Painted>, u: int, o: int): Option<Painted> {
    var i := LastAt(ws, u, o);
    if i < 0 then None else Some(ws[i])
  }

  lemma LastStep(ws: seq<Painted>, w: Painted, u: int, o: int)
    ensures Last(ws + [w], u, o) == if w.universe == u && w.offset == o then Some(w) else Last(ws, u, o)
  {
    assert (ws + [w])[..|ws|] == ws;
  }

  /** The byte an instance paints on channel o. */
  function PaintedBy(attrs: AttributeSet, inst: Instance, resolve: Instance -> Resolution, o: int): Painted
    requires Covers(inst, resolve, inst.universe, o) && SlotAt(inst, resolve, o).kind in attrs
  {
    var kind := SlotAt(inst, resolve, o).kind;
    Painted(inst.universe, o, kind, ScaleToByte(attrs[kind]))
  }

  lemma {:induction false} ChannelsLast(attrs: AttributeSet, inst: Instance, resolve: Instance -> Resolution, n: nat,
                                        ws: seq<Painted>, u: int, o: int)
    requires n <= |Channels(inst, resolve)| && PaintChannels(attrs, inst, Channels(inst, resolve), n).Ok?
    ensures inst.universe == u && inst.address - 1 <= o < inst.address - 1 + n
            ==> SlotAt(inst, resolve, o).kind in attrs
    ensures Last(ws + PaintChannels(attrs, inst, Channels(inst, resolve), n).value, u, o)
            == if inst.universe == u && inst.address - 1 <= o < inst.address - 1 + n
               then Some(PaintedBy(attrs, inst, resolve, o)) else Last(ws, u, o)
  {
    hide Last, ScaleToByte;
    var channels := Channels(inst, resolve);
    if n == 0 {
      assert ws + [] == ws;
    } else {
      var prior := PaintChannels(attrs, inst, channels, n - 1).value;
      ChannelsLast(attrs, inst, resolve, n - 1, ws, u, o);
      var w := Painted(inst.universe, inst.address - 1 + (n - 1), channels[n - 1].kind,
                       ScaleToByte(attrs[channels[n - 1].kind]));
      assert ws + (prior + [w]) == ws + prior + [w];
      LastStep(ws + prior, w, u, o);
    }
  }

  /** The instance lands a value on channel o. */
  predicate Lands(frame: Frame, inst: Instance, resolve: Instance -> Resolution, u: int, o: int) {
    inst.id in frame && Covers(inst, resolve, u, o)
  }

  lemma PaintLast(frame: Frame, instances: seq<Instance>, resolve: Instance -> Resolution, u: int, o: int)
    requires instances != [] && Paint(frame, instances, resolve).Ok?
    ensures var inst := instances[|instances| - 1];
            && Paint(frame, instances[..|instances| - 1], resolve).Ok?
            && (Lands(frame, inst, resolve, u, o) ==> SlotAt(inst, resolve, o).kind in frame[inst.id])
            && Last(Paint(frame, instances, resolve).value, u, o)
               == if Lands(frame, inst, resolve, u, o) then Some(PaintedBy(frame[inst.id], inst, resolve, o))
                  else Last(Paint(frame, instances[..|instances| - 1], resolve).value, u, o)
  {
    hide Last;
    var inst, prior := instances[|instances| - 1], Paint(frame, instances[..|instances| - 1], resolve).value;
    if inst.id in frame {
      ChannelsLast(frame[inst.id], inst, resolve, |Channels(inst, resolve)|, prior, u, o);
    } else {
      assert prior + [] == prior;
    }
  }

  /** A channel shows the value of the last instance in list order that lands on it. */
  lemma {:induction false} LastLandingWins(frame: Frame, instances: seq<Instance>, resolve: Instance -> Resolution,
                                           u: int, o: int, i: nat)
    requires Paint(frame, instances, resolve).Ok?
    requires i < |instances| && Lands(frame, instances[i], resolve, u, o)
    requires forall j :: i < j < |instances| ==> !Lands(frame, instances[j], resolve, u, o)
    ensures SlotAt(instances[i], resolve, o).kind in frame[instances[i].id]
    ensures ByteAt(Paint(frame, instances, resolve).value, u, o)
            == ScaleToByte(frame[instances[i].id][SlotAt(instances[i], resolve, o).kind])
  {
    PaintLast(frame, instances, resolve, u, o);
    if i < |instances| - 1 {
      LastLandingWins(frame, instances[..|instances| - 1], resolve, u, o, i);
    }
  }

  /** A channel no instance lands on is 0. */
  lemma {:induction false} NothingLands(frame: Frame, instances: seq<Instance>, resolve: Instance -> Resolution,
                                        u: int, o: int)
    requires Paint(frame, instances, resolve).Ok?
    requires forall i :: 0 <= i < |instances| ==> !Lands(frame, instances[i], resolve, u, o)
    ensures Last(Paint(frame, instances, resolve).value, u, o) == None
    ensures ByteAt(Paint(frame, instances, resolve).value, u, o) == 0
  {
    if instances != [] {
      PaintLast(frame, instances, resolve, u, o);
      NothingLands(frame, instances[..|instances| - 1], resolve, u, o);
    }
  }

  // ----- Exactly when a universe encodes ---------------------------------------------------------

  predicate ChannelOk(attrs: AttributeSet, inst: Instance, channels: seq<Slot>, c: nat)
    requires c < |channels|
  {
    channels[c].kind in attrs && 0 <= inst.address - 1 + c < CHANNELS_PER_UNIVERSE
  }

  ghost predicate Encodable(frame: Frame, inst: Instance, resolve: Instance -> Resolution) {
    && Channels(inst, resolve) != []
    && (inst.id in frame ==>
          forall c: nat :: c < |Channels(inst, resolve)| ==>
            ChannelOk(frame[inst.id], inst, Channels(inst, resolve), c))
  }

  lemma {:induction false} ChannelsOkIff(attrs: AttributeSet, inst: Instance, channels: seq<Slot>, n: nat)
    requires n <= |channels|
    ensures PaintChannels(attrs, inst, channels, n).Ok?
            <==> forall c: nat :: c < n ==> ChannelOk(attrs, inst, channels, c)
  {
    if n > 0 {
      ChannelsOkIff(attrs, inst, channels, n - 1);
      var slot, offset := channels[n - 1], inst.address - 1 + (n - 1);
      assert PaintChannels(attrs, inst, channels, n).Ok?
        <==> PaintChannels(attrs, inst, channels, n - 1).Ok? && ChannelOk(attrs, inst, channels, n - 1);
    }
  }

  lemma InstanceOkIff(frame: Frame, inst: Instance, resolve: Instance -> Resolution)
    ensures PaintInstance(frame, inst, resolve).Ok? <==> Encodable(frame, inst, resolve)
  {
    if inst.id in frame { ChannelsOkIff(frame[inst.id], inst, Channels(inst, resolve), |Channels(inst, resolve)|); }
  }

  /** Encoding succeeds exactly when every instance has a layout and every instance in
      the frame has a value and a place for each of its channels. */
  lemma {:induction false} EncodesIff(frame: Frame, instances: seq<Instance>, resolve: Instance -> Resolution)
    ensures Encoded(frame, instances, resolve).Ok?
            <==> forall i :: 0 <= i < |instances| ==> Encodable(frame, instances[i], resolve)
  {
    if instances != [] {
      var n := |instances| - 1;
      EncodesIff(frame, instances[..n], resolve);
      InstanceOkIff(frame, instances[n], resolve);
      hide Encodable, PaintInstance;
      assert forall i :: 0 <= i < n ==> instances[..n][i] == instances[i];
    }
  }

  /** The error tells what is wrong with the instance: its layout does not resolve or is
      empty, or its first channel in wiring order that has no value or no place. */
  ghost predicate Tells(e: EncodeError, frame: Frame, inst: Instance, resolve: Instance -> Resolution) {
    match e
    case ResolveFailed(reason) => resolve(inst) == Unresolved(reason)
    case LayoutMissing(id, mode) => resolve(inst) == Resolved([]) && id == inst.id && mode == inst.mode
    case ValueMissing(id, c, kind, occurrence) =>
      && id == inst.id && id in frame && FirstBad(frame[id], inst, Channels(inst, resolve), c)
      && Channels(inst, resolve)[c] == Slot(kind, occurrence) && kind !in frame[id]
    case OffsetOutOfRange(id, c, offset) =>
      && id == inst.id && id in frame && FirstBad(frame[id], inst, Channels(inst, resolve), c)
      && Channels(inst, resolve)[c].kind in frame[id] && offset == inst.address - 1 + c
  }

  ghost predicate FirstBad(attrs: AttributeSet, inst: Instance, channels: seq<Slot>, c: nat) {
    && c < |channels| && !ChannelOk(attrs, inst, channels, c)
    && forall k: nat :: k < c ==> ChannelOk(attrs, inst, channels, k)
  }

  lemma {:induction false} ChannelErrorTells(frame: Frame, inst: Instance, resolve: Instance -> Resolution, n: nat)
    requires inst.id in frame && n <= |Channels(inst, resolve)|
    requires PaintChannels(frame[inst.id], inst, Channels(inst, resolve), n).Err?
    ensures Tells(PaintChannels(frame[inst.id], inst, Channels(inst, resolve), n).error, frame, inst, resolve)
  {
    var attrs, channels := frame[inst.id], Channels(inst, resolve);
    if PaintChannels(attrs, inst, channels, n - 1).Err? {
      ChannelErrorTells(frame, inst, resolve, n - 1);
    } else {
      ChannelsOkIff(attrs, inst, channels, n - 1);
      assert FirstBad(attrs, inst, channels, n - 1);
    }
  }

  /** A failed encode tells what is wrong with the first instance in list order that cannot
      be encoded. */
  lemma {:induction false} EncodeErrorTells(frame: Frame, instances: seq<Instance>, resolve: Instance -> Resolution)
    returns (i: nat)
    requires Encoded(frame, instances, resolve).Err?
    ensures i < |instances| && Tells(Encoded(frame, instances, resolve).error, frame, instances[i], resolve)
    ensures forall j :: 0 <= j < i ==> Encodable(frame, instances[j], resolve)
  {
    var n := |instances| - 1;
    if Paint(frame, instances[..n], resolve).Err? {
      i := EncodeErrorTells(frame, instances[..n], resolve);
    } else {
      i := n;
      EncodesIff(frame, instances[..n], resolve);
      var inst := instances[n];
      if inst.id in frame && Channels(inst, resolve) != [] {
        ChannelErrorTells(frame, inst, resolve, |Channels(inst, resolve)|);
      }
    }
  }

  lemma {:induction false} OnlyHas(instances: seq<Instance>, u: int, inst: Instance)
    ensures inst in Only(instances, u) <==> inst in instances && inst.universe == u
  {
    if instances != [] { OnlyHas(instances[..|instances| - 1], u, inst); }
  }

  /** A desk override on an instance the frame does not drive must cover every one of
      its capabilities, or its whole universe fails to encode. */
  lemma PartialOverrideFails(frame: Frame, o: Overrides, s: State, rig: Rig, inst: Instance, c: nat)
    requires inst in rig.instances && inst.id !in frame && inst.id in o
    requires c < |Channels(inst, rig.resolve)| && Channels(inst, rig.resolve)[c].kind !in o[inst.id]
    ensures Sent(frame, o, s, rig, inst.universe).Err?
  {
    var f, own := Composed(frame, o, s, rig), Only(rig.instances, inst.universe);
    OnlyHas(rig.instances, inst.universe, inst);
    EncodesIff(f, own, rig.resolve);
    var i :| 0 <= i < |own| && own[i] == inst;
    assert !ChannelOk(f[inst.id], inst, Channels(inst, rig.resolve), c);
    assert !Encodable(f, own[i], rig.resolve);
  }

  // ----- Footprints that do not overlap -----------------------------------------------------------

  predicate Apart(a: Instance, b: Instance, resolve: Instance -> Resolution) {
    || a.universe != b.universe
    || a.address + |Channels(a, resolve)| <= b.address
    || b.address + |Channels(b, resolve)| <= a.address
  }

  ghost predicate Disjoint(instances: seq<Instance>, resolve: Instance -> Resolution) {
    instances == []
    || (var front, last := instances[..|instances| - 1], instances[|instances| - 1];
        Disjoint(front, resolve) && forall a :: a in front ==> Apart(a, last, resolve))
  }

  lemma {:induction false} OnlyDisjoint(instances: seq<Instance>, resolve: Instance -> Resolution, u: int)
    requires Disjoint(instances, resolve)
    ensures Disjoint(Only(instances, u), resolve)
  {
    if instances != [] {
      var front, last := instances[..|instances| - 1], instances[|instances| - 1];
      OnlyDisjoint(front, resolve, u);
      if last.universe == u {
        var own := Only(front, u);
        assert (own + [last])[..|own|] == own;
        forall a | a in own ensures Apart(a, last, resolve) { OnlyHas(front, u, a); }
      }
    }
  }

  /** Without overlaps, only the instance a channel belongs to decides what it shows. */
  lemma {:induction false} OwnerDecides(frame: Frame, instances: seq<Instance>, resolve: Instance -> Resolution,
                                        inst: Instance, o: int)
    requires Paint(frame, instances, resolve).Ok? && Disjoint(instances, resolve)
    requires inst in instances && Covers(inst, resolve, inst.universe, o)
    ensures inst.id in frame ==> SlotAt(inst, resolve, o).kind in frame[inst.id]
    ensures Last(Paint(frame, instances, resolve).value, inst.universe, o)
            == if inst.id in frame then Some(PaintedBy(frame[inst.id], inst, resolve, o)) else None
  {
    var front, last, u := instances[..|instances| - 1], instances[|instances| - 1], inst.universe;
    PaintLast(frame, instances, resolve, u, o);
    hide Last, Paint, PaintedBy, SlotAt;
    if Covers(last, resolve, u, o) {
      forall a | a in front ensures !Covers(a, resolve, u, o) { assert Apart(a, last, resolve); }
      assert inst == last;
      if inst.id !in frame { NothingLands(frame, front, resolve, u, o); }
    } else {
      OwnerDecides(frame, front, resolve, inst, o);
    }
  }

  lemma OwnerKind(f: Frame, rig: Rig, inst: Instance, o: int)
    requires Levels(f, rig, inst.universe).Ok? && Disjoint(rig.instances, rig.resolve)
    requires inst in rig.instances && Covers(inst, rig.resolve, inst.universe, o)
    ensures Kind(f, rig, inst.universe, o) == if inst.id in f then Some(SlotAt(inst, rig.resolve, o).kind) else None
  {
    OnlyHas(rig.instances, inst.universe, inst);
    OnlyDisjoint(rig.instances, rig.resolve, inst.universe);
    hide Disjoint, Only;
    OwnerDecides(f, Only(rig.instances, inst.universe), rig.resolve, inst, o);
  }

  /** While blackout or stop-all is on, with footprints that do not overlap: every
      intensity channel of every instance is sent as 0, and every other channel of an
      instance as any other safety state would send it. */
  lemma DarkSlots(frame: Frame, o: Overrides, s: State, t: State, rig: Rig, inst: Instance, c: nat)
    requires s.Dark() && Disjoint(rig.instances, rig.resolve) && inst in rig.instances
    requires c < |Channels(inst, rig.resolve)| && 0 <= inst.address - 1 + c < CHANNELS_PER_UNIVERSE
    ensures var x, y := Sent(frame, o, s, rig, inst.universe), Sent(frame, o, t, rig, inst.universe);
            x.Ok? ==>
              && y.Ok? && |x.value| == |y.value| == CHANNELS_PER_UNIVERSE
              && x.value[inst.address - 1 + c]
                 == if Channels(inst, rig.resolve)[c].kind == INTENSITY then 0 else y.value[inst.address - 1 + c]
  {
    hide Composed, Levels, Kind, Disjoint;
    var f, u := Composed(frame, o, s, rig), inst.universe;
    DarkLevels(frame, o, s, t, rig, u);
    if Sent(frame, o, s, rig, u).Ok? { OwnerKind(f, rig, inst, inst.address - 1 + c); }
  }

  // ----- Exactly when an intensity channel goes dark ------------------------------------------------

  /** Index of the last instance in list order that lands on the channel, -1 if none. */
  lemma {:induction false} LastLanding(f: Frame, instances: seq<Instance>, resolve: Instance -> Resolution, u: int,
                                       o: int)
    returns (j: int)
    requires Paint(f, Only(instances, u), resolve).Ok?
    ensures -1 <= j < |instances|
    ensures forall m :: j < m < |instances| ==> !Lands(f, instances[m], resolve, u, o)
    ensures if j < 0 then Last(Paint(f, Only(instances, u), resolve).value, u, o) == None
            else
              && Lands(f, instances[j], resolve, u, o)
              && SlotAt(instances[j], resolve, o).kind in f[instances[j].id]
              && Last(Paint(f, Only(instances, u), resolve).value, u, o)
                 == Some(PaintedBy(f[instances[j].id], instances[j], resolve, o))
  {
    if instances == [] {
      j := -1;
    } else {
      var front, inst := instances[..|instances| - 1], instances[|instances| - 1];
      if inst.universe == u {
        var own := Only(front, u);
        assert Only(instances, u) == own + [inst] && (own + [inst])[..|own|] == own;
        PaintLast(f, own + [inst], resolve, u, o);
      }
      hide Last, PaintedBy, SlotAt, Paint;
      if Lands(f, inst, resolve, u, o) {
        j := |instances| - 1;
      } else {
        j := LastLanding(f, front, resolve, u, o);
      }
    }
  }

  /** Under blackout or stop-all a channel is 0 if the last instance that lands on it has
      an intensity there, and otherwise what any other safety state sends. */
  lemma DarkByLastLanding(frame: Frame, o: Overrides, s: State, t: State, rig: Rig, u: int, c: nat) returns (j: int)
    requires s.Dark() && c < CHANNELS_PER_UNIVERSE && Sent(frame, o, s, rig, u).Ok?
    ensures var f, insts := Overlaid(frame, o), rig.instances;
            && -1 <= j < |insts|
            && (forall m :: j < m < |insts| ==> !Lands(f, insts[m], rig.resolve, u, c))
            && (j >= 0 ==> Lands(f, insts[j], rig.resolve, u, c))
    ensures var x, y := Sent(frame, o, s, rig, u), Sent(frame, o, t, rig, u);
            && y.Ok? && |x.value| == |y.value| == CHANNELS_PER_UNIVERSE
            && x.value[c]
               == if j < 0 || SlotAt(rig.instances[j], rig.resolve, c).kind == INTENSITY then 0 else y.value[c]
  {
    var g := Composed(frame, o, s, rig);
    assert g.Keys == Overlaid(frame, o).Keys;
    hide Composed, Overlaid, Levels, Kind, Paint;
    LevelsArePainted(g, rig, u);
    DarkLevels(frame, o, s, t, rig, u);
    j := LastLanding(g, rig.instances, rig.resolve, u, c);
    KindOfLast(g, rig, u, c);
  }

  lemma KindOfLast(g: Frame, rig: Rig, u: int, c: int)
    requires PaintedOn(g, rig, u).Ok?
    ensures Kind(g, rig, u, c)
            == match Last(PaintedOn(g, rig, u).value, u, c) case None => None case Some(w) => Some(w.kind)
  {
  }

  /** The instance paints the channel with something other than an intensity. */
  predicate Overpaints(inst: Instance, resolve: Instance -> Resolution, u: int, o: int) {
    Covers(inst, resolve, u, o) && SlotAt(inst, resolve, o).kind != INTENSITY
  }

  /** Every instance has a layout that fits its universe. */
  ghost predicate LaidOut(rig: Rig) {
    forall inst :: inst in rig.instances ==>
      && Channels(inst, rig.resolve) != []
      && 1 <= inst.address && inst.address - 1 + |Channels(inst, rig.resolve)| <= CHANNELS_PER_UNIVERSE
  }

  ghost predicate DistinctIds(instances: seq<Instance>) {
    forall i, j :: 0 <= i < j < |instances| ==> instances[i].id != instances[j].id
  }

  /** Whatever is played, overridden or mastered, the channel is 0 under blackout; with
      `driven` given, whenever that instance is driven at all. */
  ghost predicate AlwaysDark(rig: Rig, u: int, c: nat, driven: Option<Uuid>) {
    forall frame: Frame, o: Overrides, s: State ::
      s.Dark() && (driven.Some? ==> driven.value in frame.Keys + o.Keys) && Sent(frame, o, s, rig, u).Ok? ==>
        c < |Sent(frame, o, s, rig, u).value| && Sent(frame, o, s, rig, u).value[c] == 0
  }

  lemma DarkUnlessOverpainted(frame: Frame, o: Overrides, s: State, rig: Rig, i: nat, c: nat)
    requires s.Dark() && i < |rig.instances| && c < CHANNELS_PER_UNIVERSE
    requires var inst := rig.instances[i];
             Covers(inst, rig.resolve, inst.universe, c) && !Overpaints(inst, rig.resolve, inst.universe, c)
    requires forall j :: i < j < |rig.instances| ==>
               !Overpaints(rig.instances[j], rig.resolve, rig.instances[i].universe, c)
    requires || rig.instances[i].id in frame.Keys + o.Keys
             || forall j :: 0 <= j < i ==> !Overpaints(rig.instances[j], rig.resolve, rig.instances[i].universe, c)
    ensures var x := Sent(frame, o, s, rig, rig.instances[i].universe);
            x.Ok? ==> |x.value| == CHANNELS_PER_UNIVERSE && x.value[c] == 0
  {
    var u := rig.instances[i].universe;
    hide Sent, SlotAt, Channels, Overlaid, LaidOut, Covers;
    if Sent(frame, o, s, rig, u).Ok? {
      var j := DarkByLastLanding(frame, o, s, s, rig, u, c);
      assert Overlaid(frame, o).Keys == frame.Keys + o.Keys by { OverlaidKeys(frame, o); }
      if rig.instances[i].id in frame.Keys + o.Keys {
        assert Lands(Overlaid(frame, o), rig.instances[i], rig.resolve, u, c);
      }
      if j >= 0 {
        assert j != i ==> !Overpaints(rig.instances[j], rig.resolve, u, c);
        LandedSlot(Overlaid(frame, o), rig.instances[j], rig.resolve, u, c);
      }
    }
  }

  lemma OverlaidKeys(frame: Frame, o: Overrides)
    ensures Overlaid(frame, o).Keys == frame.Keys + o.Keys
  {
  }

  lemma LandedSlot(frame: Frame, inst: Instance, resolve: Instance -> Resolution, u: int, c: nat)
    requires Lands(frame, inst, resolve, u, c) && !Overpaints(inst, resolve, u, c)
    ensures Covers(inst, resolve, inst.universe, c) && SlotAt(inst, resolve, c).kind == INTENSITY
  {
    hide SlotAt;
  }

  function Capabilities(inst: Instance, resolve: Instance -> Resolution): set<Capability> {
    set c | 0 <= c < |Channels(inst, resolve)| :: Channels(inst, resolve)[c].kind
  }

  /** All capabilities of an instance at full. */
  function AtFull(inst: Instance, resolve: Instance -> Resolution): AttributeSet {
    map k | k in Capabilities(inst, resolve) :: 1.0
  }

  lemma AtFullCovers(inst: Instance, resolve: Instance -> Resolution, c: nat)
    requires c < |Channels(inst, resolve)|
    ensures Channels(inst, resolve)[c].kind in AtFull(inst, resolve)
  {
  }

  lemma SameInstance(instances: seq<Instance>, a: nat, b: nat)
    requires DistinctIds(instances) && a < |instances| && b < |instances|
    ensures instances[a].id == instances[b].id ==> a == b
  {
  }

  /** Instances a and b driven at full, nothing else. */
  function OnlyTwo(rig: Rig, a: nat, b: nat): Frame
    requires a < |rig.instances| && b < |rig.instances|
  {
    map[rig.instances[a].id := AtFull(rig.instances[a], rig.resolve)]
       [rig.instances[b].id := AtFull(rig.instances[b], rig.resolve)]
  }

  const BLACKOUT := State(true, false, IDENTITY)

  /** Under blackout the same instances are driven, and only their intensities change. */
  lemma TwoBlackedOut(rig: Rig, a: nat, b: nat)
    requires a < |rig.instances| && b < |rig.instances| && DistinctIds(rig.instances)
    ensures var g, A, B := Composed(OnlyTwo(rig, a, b), map[], BLACKOUT, rig), rig.instances[a], rig.instances[b];
            && g.Keys == {A.id, B.id}
            && g[A.id].Keys == AtFull(A, rig.resolve).Keys && g[B.id].Keys == AtFull(B, rig.resolve).Keys
            && forall k :: k in g[B.id] && k != INTENSITY ==> g[B.id][k] == 1.0
  {
    var frame, A, B := OnlyTwo(rig, a, b), rig.instances[a], rig.instances[b];
    SameInstance(rig.instances, a, b);
    hide DistinctIds, Composed;
    assert frame.Keys == {A.id, B.id};
    assert frame[A.id] == AtFull(A, rig.resolve) && frame[B.id] == AtFull(B, rig.resolve);
    hide OnlyTwo, Capabilities;
    BlackedOut(frame, rig, A.id);
    BlackedOut(frame, rig, B.id);
  }

  lemma BlackedOut(frame: Frame, rig: Rig, id: Uuid)
    requires id in frame
    ensures var g := Composed(frame, map[], BLACKOUT, rig); g.Keys == frame.Keys && g[id] == Zeroed(frame[id])
  {
    MergeNothing(frame[id]);
    hide Merge, Zeroed, Scaled;
  }

  lemma TwoEncode(rig: Rig, a: nat, b: nat, u: int)
    requires a < |rig.instances| && b < |rig.instances| && DistinctIds(rig.instances) && LaidOut(rig)
    ensures Sent(OnlyTwo(rig, a, b), map[], BLACKOUT, rig, u).Ok?
  {
    TwoBlackedOut(rig, a, b);
    var g, own := Composed(OnlyTwo(rig, a, b), map[], BLACKOUT, rig), Only(rig.instances, u);
    hide Composed, OnlyTwo;
    forall m | 0 <= m < |own| ensures Encodable(g, own[m], rig.resolve) {
      OnlyHas(rig.instances, u, own[m]);
      var n :| 0 <= n < |rig.instances| && rig.instances[n] == own[m];
      if own[m].id in g {
        SameInstance(rig.instances, n, a);
        SameInstance(rig.instances, n, b);
        forall c: nat | c < |Channels(own[m], rig.resolve)|
          ensures ChannelOk(g[own[m].id], own[m], Channels(own[m], rig.resolve), c)
        {
          AtFullCovers(own[m], rig.resolve, c);
        }
      }
    }
    hide Encodable;
    EncodesIff(g, own, rig.resolve);
  }

  /** An instance that overpaints a channel keeps it at 255 through blackout when it is
      driven together with at most one instance listed before it. */
  lemma OverpaintedStaysLit(rig: Rig, a: nat, b: nat, c: nat)
    requires a <= b < |rig.instances| && DistinctIds(rig.instances) && LaidOut(rig) && c < CHANNELS_PER_UNIVERSE
    requires Overpaints(rig.instances[b], rig.resolve, rig.instances[b].universe, c)
    ensures var x := Sent(OnlyTwo(rig, a, b), map[], BLACKOUT, rig, rig.instances[b].universe);
            x.Ok? && |x.value| == CHANNELS_PER_UNIVERSE && x.value[c] == 255
  {
    var B := rig.instances[b];
    var u, g := B.universe, Composed(OnlyTwo(rig, a, b), map[], BLACKOUT, rig);
    TwoBlackedOut(rig, a, b);
    TwoEncode(rig, a, b, u);
    AtFullCovers(B, rig.resolve, c - (B.address - 1));
    hide Composed, OnlyTwo, AtFull, LaidOut;
    LevelsArePainted(g, rig, u);
    var m := LastLanding(g, rig.instances, rig.resolve, u, c);
    assert Lands(g, B, rig.resolve, u, c);
    SameInstance(rig.instances, m, a);
    SameInstance(rig.instances, m, b);
    assert m == b;
  }

  /** With fitting layouts and distinct ids: an intensity channel of a driven instance is
      0 under blackout and stop-all, whatever else happens, if and only if no instance
      listed later paints it with anything but an intensity; and so it is even when the
      instance is not driven, if and only if no other instance does. */
  lemma DarkSlotIff(rig: Rig, i: nat, c: nat)
    requires LaidOut(rig) && DistinctIds(rig.instances) && i < |rig.instances| && c < CHANNELS_PER_UNIVERSE
    requires var inst := rig.instances[i];
             Covers(inst, rig.resolve, inst.universe, c) && SlotAt(inst, rig.resolve, c).kind == INTENSITY
    ensures var inst := rig.instances[i];
            AlwaysDark(rig, inst.universe, c, Some(inst.id))
            <==> forall j :: i < j < |rig.instances| ==> !Overpaints(rig.instances[j], rig.resolve, inst.universe, c)
    ensures var inst := rig.instances[i];
            AlwaysDark(rig, inst.universe, c, None)
            <==> forall j :: 0 <= j < |rig.instances| && j != i ==>
                   !Overpaints(rig.instances[j], rig.resolve, inst.universe, c)
  {
    var inst := rig.instances[i];
    var u := inst.universe;
    forall j: nat | i < j < |rig.instances| && Overpaints(rig.instances[j], rig.resolve, u, c)
      ensures !AlwaysDark(rig, u, c, Some(inst.id)) && !AlwaysDark(rig, u, c, None)
    {
      OverpaintedStaysLit(rig, i, j, c);
      assert inst.id in OnlyTwo(rig, i, j);
      LitIsNotDark(OnlyTwo(rig, i, j), rig, u, c, inst.id);
    }
    forall j: nat | j < i && Overpaints(rig.instances[j], rig.resolve, u, c) ensures !AlwaysDark(rig, u, c, None) {
      OverpaintedStaysLit(rig, j, j, c);
      assert rig.instances[j].id in OnlyTwo(rig, j, j);
      LitIsNotDark(OnlyTwo(rig, j, j), rig, u, c, rig.instances[j].id);
    }
    hide LaidOut, DistinctIds;
    if forall j :: i < j < |rig.instances| ==> !Overpaints(rig.instances[j], rig.resolve, u, c) {
      NoLaterOverpaints(rig, i, c);
    }
    if forall j :: 0 <= j < |rig.instances| && j != i ==> !Overpaints(rig.instances[j], rig.resolve, u, c) {
      NoOtherOverpaints(rig, i, c);
    }
  }

  lemma LitIsNotDark(frame: Frame, rig: Rig, u: int, c: nat, id: Uuid)
    requires id in frame
    requires var x := Sent(frame, map[], BLACKOUT, rig, u); x.Ok? && c < |x.value| && x.value[c] != 0
    ensures !AlwaysDark(rig, u, c, Some(id)) && !AlwaysDark(rig, u, c, None)
  {
    hide Sent;
    var none: Overrides := map[];
    assert BLACKOUT.Dark() && id in frame.Keys + none.Keys;
  }

  lemma NoLaterOverpaints(rig: Rig, i: nat, c: nat)
    requires i < |rig.instances| && c < CHANNELS_PER_UNIVERSE
    requires var inst := rig.instances[i];
             Covers(inst, rig.resolve, inst.universe, c) && !Overpaints(inst, rig.resolve, inst.universe, c)
    requires forall j :: i < j < |rig.instances| ==>
               !Overpaints(rig.instances[j], rig.resolve, rig.instances[i].universe, c)
    ensures AlwaysDark(rig, rig.instances[i].universe, c, Some(rig.instances[i].id))
  {
    hide Sent, Overpaints, Covers;
    forall frame: Frame, o: Overrides, s: State | s.Dark() && rig.instances[i].id in frame.Keys + o.Keys
      ensures var x := Sent(frame, o, s, rig, rig.instances[i].universe); x.Ok? ==> c < |x.value| && x.value[c] == 0
    {
      DarkUnlessOverpainted(frame, o, s, rig, i, c);
    }
  }

  lemma NoOtherOverpaints(rig: Rig, i: nat, c: nat)
    requires i < |rig.instances| && c < CHANNELS_PER_UNIVERSE
    requires var inst := rig.instances[i];
             Covers(inst, rig.resolve, inst.universe, c) && !Overpaints(inst, rig.resolve, inst.universe, c)
    requires forall j :: 0 <= j < |rig.instances| && j != i ==>
               !Overpaints(rig.instances[j], rig.resolve, rig.instances[i].universe, c)
    ensures AlwaysDark(rig, rig.instances[i].universe, c, None)
  {
    hide Sent, Overpaints, Covers;
    forall frame: Frame, o: Overrides, s: State | s.Dark()
      ensures var x := Sent(frame, o, s, rig, rig.instances[i].universe); x.Ok? ==> c < |x.value| && x.value[c] == 0
    {
      DarkUnlessOverpainted(frame, o, s, rig, i, c);
    }
  }

  function DimmerOrHead(inst: Instance): Resolution {
    if inst.mode == "dimmer" then Resolved([Slot(INTENSITY, 0)]) else Resolved([Slot("pan", 0)])
  }

  /** Two one-channel instances on one channel: the later one shows. */
  lemma PatchedOver(f: Frame, rig: Rig, dimmer: Instance, head: Instance)
    requires rig.instances == [dimmer, head]
    requires dimmer.universe == head.universe == 1 && dimmer.address == head.address == 1
    requires |Channels(dimmer, rig.resolve)| == |Channels(head, rig.resolve)| == 1
    requires dimmer.id in f && Channels(dimmer, rig.resolve)[0].kind in f[dimmer.id]
    requires head.id in f && Channels(head, rig.resolve)[0].kind in f[head.id]
    ensures var x := Levels(f, rig, 1);
            x.Ok? && |x.value| == CHANNELS_PER_UNIVERSE
            && x.value[0] == ScaleToByte(f[head.id][Channels(head, rig.resolve)[0].kind])
  {
    var instances := rig.instances;
    assert Only([], 1) == [] && instances[..1][..0] == [];
    assert Only(instances[..1], 1) == [dimmer];
    assert Only(instances, 1) == instances;
    EncodesIff(f, instances, rig.resolve);
    LevelsArePainted(f, rig, 1);
    hide Paint, Only, ScaleToByte;
    LastLandingWins(f, instances, rig.resolve, 1, 0, 1);
  }

  /** Where footprints overlap a blacked-out intensity can be painted over: a moving
      head patched onto a dimmer's channel keeps it lit. */
  lemma OverlapStaysLit()
    ensures var dimmer, head := Instance(1, 0, 0, "dimmer", 1, 1), Instance(2, 0, 0, "head", 1, 1);
            var rig := Rig([dimmer, head], DimmerOrHead, map[]);
            var frame: Frame := map[1 := map[INTENSITY := 1.0], 2 := map["pan" := 1.0]];
            var x := Sent(frame, map[], State(true, false, IDENTITY), rig, 1);
            x.Ok? && |x.value| == CHANNELS_PER_UNIVERSE && x.value[0] == 255
  {
    var dimmer, head := Instance(1, 0, 0, "dimmer", 1, 1), Instance(2, 0, 0, "head", 1, 1);
    var rig := Rig([dimmer, head], DimmerOrHead, map[]);
    var frame: Frame := map[1 := map[INTENSITY := 1.0], 2 := map["pan" := 1.0]];
    var f := Composed(frame, map[], State(true, false, IDENTITY), rig);
    assert f.Keys == {1, 2} && INTENSITY in f[1] && "pan" in f[2] && f[2]["pan"] == 1.0;
    hide Composed, Levels;
    PatchedOver(f, rig, dimmer, head);
  }
}
