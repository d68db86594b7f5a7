/** The channel map: semantic attribute values become the bytes of 512-channel
    universes.  `Paint` lists every byte that is written, in order; a universe
    shows, at each channel, the last byte painted there. */
module ChannelMap {
  import opened Prelude
  import opened Fixtures

  const CHANNELS_PER_UNIVERSE := 512

  /** Normalised value to byte: clamped, truncating toward zero. */
  function ScaleToByte(value: real): (b: Byte)
    ensures b == 255 <==> value >= 1.0
    ensures 0.0 <= value <= 1.0 ==> b as real <= value * 255.0 < b as real + 1.0
  {
    if value <= 0.0 then 0
    else if value >= 1.0 then 255
    else (value * 255.0).Floor
  }

  lemma ScaleIsMonotone(a: real, b: real)
    requires a <= b
    ensures ScaleToByte(a) <= ScaleToByte(b)
  {
    if 0.0 < a && b < 1.0 { assert a * 255.0 <= b * 255.0; }
  }

  datatype EncodeError =
    | ResolveFailed(reason: string)
    | LayoutMissing(instance: Uuid, mode: string)
    | ValueMissing(instance: Uuid, channel: nat, kind: Capability, occurrence: nat)
    | OffsetOutOfRange(instance: Uuid, channel: nat, offset: int)

  /** One byte written by one channel of one instance. */
  datatype Painted = Painted(universe: int, offset: int, kind: Capability, value: Byte)

  /** The first n channels of an instance. */
  function PaintChannels(attrs: AttributeSet, inst: Instance, channels: seq<Slot>, n: nat)
    : Result<seq<Painted>, EncodeError>
    requires n <= |channels|
  {
    if n == 0 then Ok([])
    else
      match PaintChannels(attrs, inst, channels, n - 1)
      case Err(e) => Err(e)
      case Ok(ws) =>
        var slot, offset := channels[n - 1], inst.address - 1 + (n - 1);
        if slot.kind !in attrs then Err(ValueMissing(inst.id, n - 1, slot.kind, slot.occurrence))
        else if !(0 <= offset < CHANNELS_PER_UNIVERSE) then Err(OffsetOutOfRange(inst.id, n - 1, offset))
        else Ok(ws + [Painted(inst.universe, offset, slot.kind, ScaleToByte(attrs[slot.kind]))])
  }

  function PaintInstance(frame: Frame, inst: Instance, resolve: Instance -> Resolution)
    : Result<seq<Painted>, EncodeError>
  {
    match resolve(inst)
    case Unresolved(reason) => Err(ResolveFailed(reason))
    case Resolved(channels) =>
      if channels == [] then Err(LayoutMissing(inst.id, inst.mode))
      else if inst.id !in frame then Ok([])
      else PaintChannels(frame[inst.id], inst, channels, |channels|)
  }

  /** All instances in list order, up to the first error. */
  function Paint(frame: Frame, instances: seq<Instance>, resolve: Instance -> Resolution)
    : Result<seq<Painted>, EncodeError>
  {
    if instances == [] then Ok([])
    else
      match Paint(frame, instances[..|instances| - 1], resolve)
      case Err(e) => Err(e)
      case Ok(ws) =>
        match PaintInstance(frame, instances[|instances| - 1], resolve)
        case Err(e) => Err(e)
        case Ok(more) => Ok(ws + more)
  }

  /** Index of the last byte painted on a channel, -1 if there is none. */
  function LastAt(ws: seq<Painted>, u: int, offset: int): (i: int)
    ensures -1 <= i < |ws|
    ensures i >= 0 ==> ws[i].universe == u && ws[i].offset == offset
    ensures forall j :: i < j < |ws| ==> !(ws[j].universe == u && ws[j].offset == offset)
  {
    if ws == [] then -1
    else if ws[|ws| - 1].universe == u && ws[|ws| - 1].offset == offset then |ws| - 1
    else LastAt(ws[..|ws| - 1], u, offset)
  }

  function ByteAt(ws: seq<Painted>, u: int, offset: int): Byte {
    var i := LastAt(ws, u, offset);
    if i < 0 then 0 else ws[i].value
  }

  function Buffer(ws: seq<Painted>, u: int): (b: seq<Byte>)
    ensures |b| == CHANNELS_PER_UNIVERSE
    ensures forall o :: 0 <= o < |b| ==> b[o] == ByteAt(ws, u, o)
  {
    seq(CHANNELS_PER_UNIVERSE, o => ByteAt(ws, u, o))
  }

  function Universes(instances: seq<Instance>): set<int> {
    set i | 0 <= i < |instances| :: instances[i].universe
  }

  function Buffers(ws: seq<Painted>, universes: set<int>): map<int, seq<Byte>> {
    map u | u in universes :: Buffer(ws, u)
  }

  function Encoded(frame: Frame, instances: seq<Instance>, resolve: Instance -> Resolution)
    : Result<map<int, seq<Byte>>, EncodeError>
  {
    match Paint(frame, instances, resolve)
    case Err(e) => Err(e)
    case Ok(ws) => Ok(Buffers(ws, Universes(instances)))
  }

  // ----- Encode -----------------------------------------------------------------

  lemma BufferWrite(ws: seq<Painted>, w: Painted, u: int)
    requires 0 <= w.offset < CHANNELS_PER_UNIVERSE
    ensures Buffer(ws + [w], u)
            == if w.universe == u then Buffer(ws, u)[w.offset := w.value] else Buffer(ws, u)
  {
    assert (ws + [w])[..|ws|] == ws;
    forall o | 0 <= o < CHANNELS_PER_UNIVERSE
      ensures ByteAt(ws + [w], u, o) == if w.universe == u && w.offset == o then w.value else ByteAt(ws, u, o)
    {
    }
  }

  lemma BuffersWrite(ws: seq<Painted>, w: Painted, universes: set<int>)
    requires 0 <= w.offset < CHANNELS_PER_UNIVERSE && w.universe in universes
    ensures Buffers(ws + [w], universes)
            == Buffers(ws, universes)[w.universe := Buffer(ws, w.universe)[w.offset := w.value]]
  {
    forall u | u in universes
      ensures Buffers(ws + [w], universes)[u]
              == Buffers(ws, universes)[w.universe := Buffer(ws, w.universe)[w.offset := w.value]][u]
    {
      BufferWrite(ws, w, u);
    }
  }

  lemma {:induction false} PaintChannelsStops(attrs: AttributeSet, inst: Instance, channels: seq<Slot>, n: nat, m: nat)
    requires n <= m <= |channels| && PaintChannels(attrs, inst, channels, n).Err?
    ensures PaintChannels(attrs, inst, channels, m) == PaintChannels(attrs, inst, channels, n)
  {
    if n < m { PaintChannelsStops(attrs, inst, channels, n, m - 1); }
  }

  lemma {:induction false} PaintStops(frame: Frame, instances: seq<Instance>, resolve: Instance -> Resolution, n: nat)
    requires n <= |instances| && Paint(frame, instances[..n], resolve).Err?
    ensures Paint(frame, instances, resolve) == Paint(frame, instances[..n], resolve)
  {
    if n == |instances| {
      assert instances[..n] == instances;
    } else {
      var prior := instances[..|instances| - 1];
      assert prior[..n] == instances[..n];
      PaintStops(frame, prior, resolve, n);
    }
  }

  lemma {:induction false} PaintedInRange(attrs: AttributeSet, inst: Instance, channels: seq<Slot>, n: nat)
    requires n <= |channels|
    ensures var r := PaintChannels(attrs, inst, channels, n);
            r.Ok? ==>
              forall i :: 0 <= i < |r.value| ==>
                r.value[i].universe == inst.universe && 0 <= r.value[i].offset < CHANNELS_PER_UNIVERSE
  {
    if n > 0 { PaintedInRange(attrs, inst, channels, n - 1); }
  }

  function Zeros(): (b: seq<Byte>)
    ensures |b| == CHANNELS_PER_UNIVERSE && forall o :: 0 <= o < |b| ==> b[o] == 0
  {
    seq(CHANNELS_PER_UNIVERSE, o => 0)
  }

  /** Everything painted by the instances seen so far is in the buffers. */
  ghost predicate SoFar(buffers: map<int, seq<Byte>>, ws: seq<Painted>, frame: Frame, instances: seq<Instance>,
                        resolve: Instance -> Resolution)
  {
    && Paint(frame, instances, resolve) == Ok(ws)
    && buffers == Buffers(ws, Universes(instances))
    && forall i :: 0 <= i < |ws| ==> ws[i].universe in Universes(instances)
  }

  function Entered(buffers: map<int, seq<Byte>>, u: int): map<int, seq<Byte>> {
    if u in buffers then buffers else buffers[u := Zeros()]
  }

  lemma Enter(buffers: map<int, seq<Byte>>, ws: seq<Painted>, frame: Frame, instances: seq<Instance>,
              resolve: Instance -> Resolution, inst: Instance)
    requires SoFar(buffers, ws, frame, instances, resolve)
    ensures Entered(buffers, inst.universe) == Buffers(ws, Universes(instances + [inst]))
  {
    UniversesAppend(instances, inst);
    if inst.universe !in buffers {
      assert Buffer(ws, inst.universe) == Zeros();
    }
    hide Universes, Paint;
  }

  lemma Extend(buffers: map<int, seq<Byte>>, ws: seq<Painted>, more: seq<Painted>, frame: Frame,
               instances: seq<Instance>, resolve: Instance -> Resolution, inst: Instance)
    requires Paint(frame, instances, resolve) == Ok(ws) && PaintInstance(frame, inst, resolve) == Ok(more)
    requires forall i :: 0 <= i < |ws| ==> ws[i].universe in Universes(instances)
    requires forall i :: 0 <= i < |more| ==> more[i].universe == inst.universe
    requires buffers == Buffers(ws + more, Universes(instances + [inst]))
    ensures SoFar(buffers, ws + more, frame, instances + [inst], resolve)
  {
    UniversesAppend(instances, inst);
    assert (instances + [inst])[..|instances|] == instances;
    hide Universes, PaintInstance, Buffers;
  }

  lemma FailsHere(frame: Frame, instances: seq<Instance>, resolve: Instance -> Resolution, i: nat, e: EncodeError)
    requires i < |instances| && Paint(frame, instances[..i], resolve).Ok?
    requires PaintInstance(frame, instances[i], resolve) == Err(e)
    ensures Paint(frame, instances, resolve) == Err(e)
  {
    assert instances[..i + 1][..i] == instances[..i];
    PaintStops(frame, instances, resolve, i + 1);
  }

  /** `Encode`: walks instances and channels in order, writing bytes into the
      buffer of each instance's universe, and stops at the first error. */
  method Encode(frame: Frame, instances: seq<Instance>, resolve: Instance -> Resolution)
    returns (r: Result<map<int, seq<Byte>>, EncodeError>)
    ensures r == Encoded(frame, instances, resolve)
  {
    hide Buffers, Universes, PaintChannels;
    var buffers: map<int, seq<Byte>> := map[];
    ghost var ws: seq<Painted> := [];
    NothingYet(frame, resolve);
    for i := 0 to |instances|
      invariant SoFar(buffers, ws, frame, instances[..i], resolve)
    {
      hide Paint;
      var instance := instances[i];
      assert instances[..i + 1] == instances[..i] + [instance];
      var resolved := resolve(instance);
      if resolved.Unresolved? {
        FailsHere(frame, instances, resolve, i, ResolveFailed(resolved.reason));
        return Err(ResolveFailed(resolved.reason));
      }
      if |resolved.channels| == 0 {
        FailsHere(frame, instances, resolve, i, LayoutMissing(instance.id, instance.mode));
        return Err(LayoutMissing(instance.id, instance.mode));
      }
      Enter(buffers, ws, frame, instances[..i], resolve, instance);
      if instance.universe !in buffers {
        buffers := buffers[instance.universe := Zeros()];
      }
      ghost var more: seq<Painted> := [];
      assert ws + more == ws;
      if instance.id in frame {
        UniversesAppend(instances[..i], instance);
        var written, failure := EncodeInstance(frame[instance.id], instance, resolved.channels, buffers,
                                               ws, Universes(instances[..i] + [instance]));
        if failure.Some? {
          FailsHere(frame, instances, resolve, i, failure.value);
          return Err(failure.value);
        }
        buffers := written;
        more := PaintChannels(frame[instance.id], instance, resolved.channels, |resolved.channels|).value;
        PaintedInRange(frame[instance.id], instance, resolved.channels, |resolved.channels|);
      }
      Extend(buffers, ws, more, frame, instances[..i], resolve, instance);
      ws := ws + more;
    }
    assert instances[..|instances|] == instances;
    return Ok(buffers);
  }

  lemma NothingYet(frame: Frame, resolve: Instance -> Resolution)
    ensures SoFar(map[], [], frame, [], resolve)
  {
  }

  /** The inner loop of `Encode`. */
  method EncodeInstance(attrs: AttributeSet, instance: Instance, channels: seq<Slot>, start: map<int, seq<Byte>>,
                        ghost ws: seq<Painted>, ghost universes: set<int>)
    returns (buffers: map<int, seq<Byte>>, failure: Option<EncodeError>)
    requires instance.universe in universes && start == Buffers(ws, universes)
    ensures match PaintChannels(attrs, instance, channels, |channels|)
            case Err(e) => failure == Some(e)
            case Ok(more) => failure == None && buffers == Buffers(ws + more, universes)
  {
    buffers := start;
    ghost var more: seq<Painted> := [];
    assert ws + more == ws;
    for channelIndex := 0 to |channels|
      invariant PaintChannels(attrs, instance, channels, channelIndex) == Ok(more)
      invariant buffers == Buffers(ws + more, universes)
    {
      var slot := channels[channelIndex];
      if slot.kind !in attrs {
        PaintChannelsStops(attrs, instance, channels, channelIndex + 1, |channels|);
        return buffers, Some(ValueMissing(instance.id, channelIndex, slot.kind, slot.occurrence));
      }
      var offset := instance.address - 1 + channelIndex;
      if offset < 0 || offset >= CHANNELS_PER_UNIVERSE {
        PaintChannelsStops(attrs, instance, channels, channelIndex + 1, |channels|);
        return buffers, Some(OffsetOutOfRange(instance.id, channelIndex, offset));
      }
      ghost var w := Painted(instance.universe, offset, slot.kind, ScaleToByte(attrs[slot.kind]));
      BuffersWrite(ws + more, w, universes);
      assert ws + more + [w] == ws + (more + [w]);
      more := more + [w];
      var buffer := buffers[instance.universe];
      buffers := buffers[instance.universe := buffer[offset := ScaleToByte(attrs[slot.kind])]];
    }
    failure := None;
  }

  // ----- Universes are independent -----------------------------------------------

  /** The instances of one universe, in list order. */
  function Only(instances: seq<Instance>, u: int): seq<Instance> {
    if instances == [] then []
    else
      var front, last := Only(instances[..|instances| - 1], u), instances[|instances| - 1];
      if last.universe == u then front + [last] else front
  }

  lemma OnlyAppend(instances: seq<Instance>, inst: Instance, u: int)
    ensures Only(instances + [inst], u)
            == if inst.universe == u then Only(instances, u) + [inst] else Only(instances, u)
  {
    assert (instances + [inst])[..|instances|] == instances;
  }

  function GroupOf(groups: map<int, seq<Instance>>, u: int): seq<Instance> { if u in groups then groups[u] else [] }

  /** Each universe of the instances has its own, in list order. */
  ghost predicate Grouped(groups: map<int, seq<Instance>>, instances: seq<Instance>) {
    groups.Keys == Universes(instances) && forall u :: GroupOf(groups, u) == Only(instances, u)
  }

  lemma GroupedStep(groups: map<int, seq<Instance>>, instances: seq<Instance>, inst: Instance)
    requires Grouped(groups, instances)
    ensures Grouped(groups[inst.universe := GroupOf(groups, inst.universe) + [inst]], instances + [inst])
  {
    var more := groups[inst.universe := GroupOf(groups, inst.universe) + [inst]];
    UniversesAppend(instances, inst);
    hide Universes, Only;
    forall u ensures GroupOf(more, u) == Only(instances + [inst], u) { OnlyAppend(instances, inst, u); }
  }

  /** `NewWorker`'s grouping of instances by universe. */
  method GroupByUniverse(instances: seq<Instance>) returns (groups: map<int, seq<Instance>>)
    ensures Grouped(groups, instances)
  {
    groups := map[];
    assert Grouped(groups, []);
    hide Grouped;
    for i := 0 to |instances|
      invariant Grouped(groups, instances[..i])
    {
      var inst := instances[i];
      assert instances[..i + 1] == instances[..i] + [inst];
      GroupedStep(groups, instances[..i], inst);
      groups := groups[inst.universe := (if inst.universe in groups then groups[inst.universe] else []) + [inst]];
    }
    assert instances[..|instances|] == instances;
  }

  function OnlyOn(ws: seq<Painted>, u: int): seq<Painted> {
    if ws == [] then []
    else
      var front, last := OnlyOn(ws[..|ws| - 1], u), ws[|ws| - 1];
      if last.universe == u then front + [last] else front
  }

  lemma {:induction false} OnlyOnAppend(a: seq<Painted>, b: seq<Painted>, u: int)
    ensures OnlyOn(a + b, u) == OnlyOn(a, u) + OnlyOn(b, u)
  {
    if b == [] {
      assert a + b == a;
    } else {
      OnlyOnAppend(a, b[..|b| - 1], u);
      assert (a + b)[..|a + b| - 1] == a + b[..|b| - 1];
    }
  }

  lemma {:induction false} OnlyOnUniform(ws: seq<Painted>, v: int, u: int)
    requires forall i :: 0 <= i < |ws| ==> ws[i].universe == v
    ensures OnlyOn(ws, u) == if v == u then ws else []
  {
    if ws != [] { OnlyOnUniform(ws[..|ws| - 1], v, u); }
  }

  lemma {:induction false} OnlyOnByte(ws: seq<Painted>, u: int, o: int)
    ensures ByteAt(OnlyOn(ws, u), u, o) == ByteAt(ws, u, o)
  {
    if ws != [] {
      OnlyOnByte(ws[..|ws| - 1], u, o);
      if ws[|ws| - 1].universe == u {
        var front := OnlyOn(ws[..|ws| - 1], u);
        assert (front + [ws[|ws| - 1]])[..|front|] == front;
      }
    }
  }

  lemma InstanceUniverse(frame: Frame, inst: Instance, resolve: Instance -> Resolution, u: int)
    requires PaintInstance(frame, inst, resolve).Ok?
    ensures OnlyOn(PaintInstance(frame, inst, resolve).value, u)
            == if inst.universe == u then PaintInstance(frame, inst, resolve).value else []
  {
    var ws := PaintInstance(frame, inst, resolve).value;
    if ws != [] {
      PaintedInRange(frame[inst.id], inst, resolve(inst).channels, |resolve(inst).channels|);
    }
    OnlyOnUniform(ws, inst.universe, u);
  }

  /** Painting one universe's instances paints what painting all of them paints
      on that universe, and fails only if painting all of them fails. */
  lemma {:induction false} PaintOnly(frame: Frame, instances: seq<Instance>, resolve: Instance -> Resolution, u: int)
    requires Paint(frame, instances, resolve).Ok?
    ensures Paint(frame, Only(instances, u), resolve) == Ok(OnlyOn(Paint(frame, instances, resolve).value, u))
  {
    if instances != [] {
      var prior, last := instances[..|instances| - 1], instances[|instances| - 1];
      PaintOnly(frame, prior, resolve, u);
      InstanceUniverse(frame, last, resolve, u);
      OnlyOnAppend(Paint(frame, prior, resolve).value, PaintInstance(frame, last, resolve).value, u);
      if last.universe == u {
        assert (Only(prior, u) + [last])[..|Only(prior, u)|] == Only(prior, u);
      } else {
        assert OnlyOn(Paint(frame, prior, resolve).value, u) + []
               == OnlyOn(Paint(frame, prior, resolve).value, u);
      }
    }
  }

  lemma UniversesAppend(instances: seq<Instance>, inst: Instance)
    ensures Universes(instances + [inst]) == Universes(instances) + {inst.universe}
  {
    var more := instances + [inst];
    forall u | u in Universes(instances) + {inst.universe} ensures u in Universes(more) {
      if u in Universes(instances) {
        var i :| 0 <= i < |instances| && instances[i].universe == u;
        assert more[i].universe == u;
      } else {
        assert more[|instances|].universe == u;
      }
    }
  }

  lemma {:induction false} OnlyUniverse(instances: seq<Instance>, u: int)
    ensures Universes(Only(instances, u)) == if u in Universes(instances) then {u} else {}
  {
    if instances != [] {
      var prior, last := instances[..|instances| - 1], instances[|instances| - 1];
      OnlyUniverse(prior, u);
      assert instances == prior + [last];
      UniversesAppend(prior, last);
      UniversesAppend(Only(prior, u), last);
    }
  }

  lemma OnlyOnBuffer(ws: seq<Painted>, u: int)
    ensures Buffer(OnlyOn(ws, u), u) == Buffer(ws, u)
  {
    hide OnlyOn, ByteAt;
    forall o | 0 <= o < CHANNELS_PER_UNIVERSE ensures ByteAt(OnlyOn(ws, u), u, o) == ByteAt(ws, u, o) {
      OnlyOnByte(ws, u, o);
    }
  }

  /** Encoding each universe from its own instances agrees with encoding all
      instances at once, whenever the latter succeeds. */
  lemma EncodePerUniverse(frame: Frame, instances: seq<Instance>, resolve: Instance -> Resolution, u: int)
    requires Encoded(frame, instances, resolve).Ok?
    ensures var all := Encoded(frame, instances, resolve).value;
            Encoded(frame, Only(instances, u), resolve) == Ok(if u in all then map[u := all[u]] else map[])
  {
    PaintOnly(frame, instances, resolve, u);
    OnlyUniverse(instances, u);
    var ws := Paint(frame, instances, resolve).value;
    OnlyOnBuffer(ws, u);
    hide Paint, Only, OnlyOn, Universes, Buffer;
    var all := Buffers(ws, Universes(instances));
    var own := Buffers(OnlyOn(ws, u), Universes(Only(instances, u)));
    assert own == if u in all then map[u := all[u]] else map[];
  }

  /** Encoding all instances at once fails exactly when some universe, the one returned,
      fails alone: when all encode, every universe does. */
  lemma {:induction false} EncodeFailsSomewhere(frame: Frame, instances: seq<Instance>, resolve: Instance -> Resolution)
    returns (u: int)
    ensures Encoded(frame, instances, resolve).Err? <==> Encoded(frame, Only(instances, u), resolve).Err?
    ensures Encoded(frame, instances, resolve).Ok? <==> forall v :: Encoded(frame, Only(instances, v), resolve).Ok?
  {
    if Paint(frame, instances, resolve).Ok? {
      u := 0;
      forall v ensures Encoded(frame, Only(instances, v), resolve).Ok? { PaintOnly(frame, instances, resolve, v); }
    } else {
      var prior, last := instances[..|instances| - 1], instances[|instances| - 1];
      if Paint(frame, prior, resolve).Err? {
        u := EncodeFailsSomewhere(frame, prior, resolve);
        var own := Only(instances, u);
        assert own[..|Only(prior, u)|] == Only(prior, u);
        PaintStops(frame, own, resolve, |Only(prior, u)|);
      } else {
        u := last.universe;
        PaintOnly(frame, prior, resolve, u);
        assert (Only(prior, u) + [last])[..|Only(prior, u)|] == Only(prior, u);
      }
    }
  }

  // ----- Frames that differ only in values ------------------------------------------

  ghost predicate SameKeys(f: Frame, g: Frame) {
    f.Keys == g.Keys && forall id :: id in f ==> f[id].Keys == g[id].Keys
  }

  /** The same bytes painted in the same places, with related values. */
  ghost predicate Aligned(ws: seq<Painted>, vs: seq<Painted>, rel: (Capability, Byte, Byte) -> bool) {
    |ws| == |vs|
    && forall i :: 0 <= i < |ws| ==>
         && ws[i].universe == vs[i].universe && ws[i].offset == vs[i].offset && ws[i].kind == vs[i].kind
         && rel(ws[i].kind, ws[i].value, vs[i].value)
  }

  ghost predicate Related(f: Frame, g: Frame, rel: (Capability, Byte, Byte) -> bool) {
    && SameKeys(f, g)
    && forall id, k :: id in f && k in f[id] ==> rel(k, ScaleToByte(f[id][k]), ScaleToByte(g[id][k]))
  }

  ghost predicate AlignedResults(r: Result<seq<Painted>, EncodeError>, q: Result<seq<Painted>, EncodeError>,
                                 rel: (Capability, Byte, Byte) -> bool)
  {
    match (r, q)
    case (Ok(ws), Ok(vs)) => Aligned(ws, vs, rel)
    case (Err(e), Err(d)) => e == d
    case _ => false
  }

  lemma {:induction false} AlignChannels(f: Frame, g: Frame, inst: Instance, channels: seq<Slot>, n: nat,
                                         rel: (Capability, Byte, Byte) -> bool)
    requires n <= |channels| && Related(f, g, rel) && inst.id in f
    ensures AlignedResults(PaintChannels(f[inst.id], inst, channels, n), PaintChannels(g[inst.id], inst, channels, n),
                           rel)
  {
    if n > 0 { AlignChannels(f, g, inst, channels, n - 1, rel); }
  }

  /** Whether and how painting fails depends only on which values a frame has. */
  lemma {:induction false} AlignPaint(f: Frame, g: Frame, instances: seq<Instance>, resolve: Instance -> Resolution,
                                      rel: (Capability, Byte, Byte) -> bool)
    requires Related(f, g, rel)
    ensures AlignedResults(Paint(f, instances, resolve), Paint(g, instances, resolve), rel)
  {
    if instances != [] {
      AlignPaint(f, g, instances[..|instances| - 1], resolve, rel);
      var last := instances[|instances| - 1];
      if resolve(last).Resolved? && last.id in f {
        AlignChannels(f, g, last, resolve(last).channels, |resolve(last).channels|, rel);
      }
    }
  }

  lemma {:induction false} AlignLast(ws: seq<Painted>, vs: seq<Painted>, rel: (Capability, Byte, Byte) -> bool,
                                     u: int, o: int)
    requires Aligned(ws, vs, rel)
    ensures LastAt(ws, u, o) == LastAt(vs, u, o)
  {
    if ws != [] { AlignLast(ws[..|ws| - 1], vs[..|vs| - 1], rel, u, o); }
  }
}
