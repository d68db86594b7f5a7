/** The manual desk: overrides per instance and capability, kept as a nested map
    that is copied on every change and swapped in whole. */
module Desk {
  import opened Prelude
  import opened Fixtures

  type Overrides = map<Uuid, AttributeSet>

  // ----- What the desk means: the last write wins ------------------------------------

  datatype Call =
    | Set(id: Uuid, capability: Capability, value: real)
    | ClearAttribute(id: Uuid, capability: Capability)
    | ClearInstance(id: Uuid)
    | ClearAll

  predicate Supported(k: Capability) { k in SUPPORTED }

  /** The capabilities a desk can hold. */
  lemma SupportedIff(k: Capability)
    ensures Supported(k)
            <==> k in {"intensity", "color", "color_red", "color_green", "color_blue", "color_white", "pan", "tilt",
                       "zoom", "focus", "gobo", "shutter", "strobe"}
  {
  }

  predicate Accepted(call: Call) {
    call.Set? ==> Supported(call.capability) && 0.0 <= call.value <= 1.0
  }

  /** The value a call leaves at (id, capability), if it touches it at all. */
  function Touches(call: Call, id: Uuid, k: Capability): Option<Option<real>> {
    match call
    case Set(i, c, v) => if Accepted(call) && i == id && c == k then Some(Some(v)) else None
    case ClearAttribute(i, c) => if i == id && c == k then Some(None) else None
    case ClearInstance(i) => if i == id then Some(None) else None
    case ClearAll => Some(None)
  }

  /** The value left by the last call that touches (id, capability). */
  function LastWrite(calls: seq<Call>, id: Uuid, k: Capability): Option<real> {
    if calls == [] then None
    else
      match Touches(calls[|calls| - 1], id, k)
      case Some(left) => left
      case None => LastWrite(calls[..|calls| - 1], id, k)
  }

  // ----- What the desk keeps: a nested map --------------------------------------------

  function After(o: Overrides, call: Call): Overrides {
    match call
    case Set(id, k, v) =>
      if !Accepted(call) then o
      else o[id := (if id in o then o[id] else map[])[k := v]]
    case ClearAttribute(id, k) =>
      if id !in o || k !in o[id] then o
      else if o[id] - {k} == map[] then o - {id} else o[id := o[id] - {k}]
    case ClearInstance(id) => o - {id}
    case ClearAll => map[]
  }

  function Calls(calls: seq<Call>): Overrides {
    if calls == [] then map[] else After(Calls(calls[..|calls| - 1]), calls[|calls| - 1])
  }

  lemma CallsOneMore(calls: seq<Call>, call: Call)
    ensures Calls(calls + [call]) == After(Calls(calls), call)
  {
    assert (calls + [call])[..|calls|] == calls;
  }

  function Lookup(o: Overrides, id: Uuid, k: Capability): Option<real> {
    if id in o && k in o[id] then Some(o[id][k]) else None
  }

  ghost predicate InRange(attrs: AttributeSet) {
    forall k :: k in attrs ==> Supported(k) && 0.0 <= attrs[k] <= 1.0
  }

  /** No empty instance entry; every value supported and in range. */
  ghost predicate WellFormed(o: Overrides) {
    forall id :: id in o ==> o[id] != map[] && InRange(o[id])
  }

  lemma AfterWellFormed(o: Overrides, call: Call)
    requires WellFormed(o)
    ensures WellFormed(After(o, call))
  {
    hide Supported;
    match call {
      case Set(id, k, v) =>
        if Accepted(call) {
          var attrs := (if id in o then o[id] else map[])[k := v];
          assert k in attrs && InRange(attrs);
        }
      case ClearAttribute(id, k) =>
        if id in o { assert InRange(o[id] - {k}); }
      case _ =>
    }
  }

  lemma AfterLookup(o: Overrides, call: Call, id: Uuid, k: Capability)
    ensures Lookup(After(o, call), id, k)
            == match Touches(call, id, k) case Some(left) => left case None => Lookup(o, id, k)
  {
    if call.ClearAttribute? && call.id in o && o[call.id] - {call.capability} == map[] && id == call.id && k in o[id] {
      assert k !in o[id] - {call.capability};
      assert k == call.capability;
    }
  }

  /** Any sequence of set and clear calls leaves the flat last-writer-wins map. */
  lemma {:induction false} DeskIsLastWriterWins(calls: seq<Call>, id: Uuid, k: Capability)
    ensures Lookup(Calls(calls), id, k) == LastWrite(calls, id, k)
  {
    if calls != [] {
      DeskIsLastWriterWins(calls[..|calls| - 1], id, k);
      AfterLookup(Calls(calls[..|calls| - 1]), calls[|calls| - 1], id, k);
    }
  }

  lemma {:induction false} DeskWellFormed(calls: seq<Call>)
    ensures WellFormed(Calls(calls))
  {
    if calls != [] {
      DeskWellFormed(calls[..|calls| - 1]);
      AfterWellFormed(Calls(calls[..|calls| - 1]), calls[|calls| - 1]);
    }
  }

  /** An instance has an entry exactly when some capability of it is held. */
  lemma NoEmptyEntries(calls: seq<Call>, id: Uuid)
    ensures id in Calls(calls) <==> exists k :: LastWrite(calls, id, k).Some?
  {
    var o := Calls(calls);
    DeskWellFormed(calls);
    if id in o {
      assert o[id] != map[];
      var k :| k in o[id];
      DeskIsLastWriterWins(calls, id, k);
    }
    forall k | LastWrite(calls, id, k).Some? ensures id in o {
      DeskIsLastWriterWins(calls, id, k);
    }
  }

  // ----- The desk object ----------------------------------------------------------------

  /** The attribute map of one instance, shared by every snapshot that did not touch it. */
  class Values {
    var values: AttributeSet
    constructor (values: AttributeSet)
      ensures this.values == values
    {
      this.values := values;
    }
  }

  /** A published override map.  A reader holds on to one of these. */
  class Snapshot {
    var entries: map<Uuid, Values>

    constructor (entries: map<Uuid, Values>)
      ensures this.entries == entries
    {
      this.entries := entries;
    }

    ghost function View(): Overrides
      reads this, entries.Values
    {
      map id | id in entries :: entries[id].values
    }
  }

  const VALUE_INVALID := "GOLC_ARTNET_DESK_VALUE_INVALID"
  const CAPABILITY_INVALID := "GOLC_ARTNET_DESK_CAPABILITY_INVALID"

  /** A copy of a map with one key left out. */
  method CopyWithout<K(==), V>(m: map<K, V>, key: K) returns (kept: map<K, V>)
    ensures kept == m - {key}
  {
    kept := map[];
    var rest := m.Keys;
    while rest != {}
      invariant rest <= m.Keys
      invariant kept == map k | k in m && k !in rest && k != key :: m[k]
      decreases rest
    {
      var k :| k in rest;
      if k != key { kept := kept[k := m[k]]; }
      rest := rest - {k};
    }
  }

  method SupportedCapability(k: Capability) returns (ok: bool)
    ensures ok <==> Supported(k)
  {
    for i := 0 to |SUPPORTED|
      invariant k !in SUPPORTED[..i]
    {
      if SUPPORTED[i] == k { return true; }
    }
    ok := false;
  }

  /** A new attribute map with the values of another, but for one key. */
  method CopyValues(from: Values, without: Option<Capability>) returns (copy: Values)
    ensures fresh(copy)
    ensures copy.values == if without.Some? then from.values - {without.value} else from.values
  {
    copy := new Values(map[]);
    var rest := from.values.Keys;
    while rest != {}
      invariant fresh(copy) && rest <= from.values.Keys
      invariant copy.values == map k | k in from.values && k !in rest && Some(k) != without :: from.values[k]
      decreases rest
    {
      var k :| k in rest;
      if Some(k) != without { copy.values := copy.values[k := from.values[k]]; }
      rest := rest - {k};
    }
  }

  /** Every method changes only which snapshot is published: neither a snapshot nor an
      attribute map that existed before a call is in its frame, so what a tick has loaded
      never changes, although snapshots share the attribute maps they have in common. */
  class DeskState {
    var published: Snapshot
    ghost var history: seq<Call>

    ghost predicate Valid()
      reads this, published, published.entries.Values
    {
      published.View() == Calls(history)
    }

    constructor ()
      ensures Valid() && history == [] && fresh(published)
    {
      published := new Snapshot(map[]);
      history := [];
    }

    /** The tick's lock-free read. */
    method CurrentOverrides() returns (loaded: Snapshot)
      requires Valid()
      ensures loaded == published && loaded.View() == Calls(history) && WellFormed(loaded.View())
    {
      DeskWellFormed(history);
      loaded := published;
    }

    /** A copy of the attribute map of one instance, empty if it has none. */
    method CopyEntry(id: Uuid) returns (copy: Values)
      ensures fresh(copy) && copy.values == Attributes(published.View(), id)
    {
      if id in published.entries {
        copy := CopyValues(published.entries[id], None);
      } else {
        copy := new Values(map[]);
      }
    }

    /** Publishes a snapshot with one entry replaced and the others shared. */
    method Store(id: Uuid, values: Values)
      modifies this`published
      ensures fresh(published) && published.entries == old(published.entries)[id := values]
      ensures published.View() == old(published.View())[id := values.values]
    {
      published := new Snapshot(published.entries[id := values]);
    }

    /** Publishes a snapshot with one value more. */
    method Put(id: Uuid, capability: Capability, value: real)
      modifies this`published
      ensures fresh(published) && id in published.entries && fresh(published.entries[id])
      ensures published.entries - {id} == old(published.entries) - {id}
      ensures var was := old(published.View());
              published.View() == was[id := Attributes(was, id)[capability := value]]
    {
      var values := CopyEntry(id);
      values.values := values.values[capability := value];
      Store(id, values);
    }

    method SetAttribute(id: Uuid, capability: Capability, value: real) returns (error: Option<string>)
      requires Valid()
      modifies this
      ensures Valid() && history == old(history) + [Set(id, capability, value)]
      ensures error == (if !Supported(capability) then Some(CAPABILITY_INVALID)
                        else if !(0.0 <= value <= 1.0) then Some(VALUE_INVALID) else None)
      ensures if error.Some? then published == old(published)
              else && fresh(published) && id in published.entries && fresh(published.entries[id])
                   && published.entries - {id} == old(published.entries) - {id}
    {
      hide Supported, Calls, SUPPORTED;
      var supported := SupportedCapability(capability);
      ghost var call := Set(id, capability, value);
      CallsOneMore(history, call);
      history := history + [call];
      if !supported { return Some(CAPABILITY_INVALID); }
      if value < 0.0 || value > 1.0 { return Some(VALUE_INVALID); }
      Put(id, capability, value);
      error := None;
    }

    method ClearAttribute(id: Uuid, capability: Capability)
      requires Valid()
      modifies this
      ensures Valid() && history == old(history) + [Call.ClearAttribute(id, capability)]
      ensures if Lookup(old(published.View()), id, capability) == None then published == old(published)
              else && fresh(published) && (id in published.entries ==> fresh(published.entries[id]))
                   && published.entries - {id} == old(published.entries) - {id}
    {
      ghost var call := Call.ClearAttribute(id, capability);
      CallsOneMore(history, call);
      hide Calls;
      history := history + [call];
      var entries: map<Uuid, Values> := published.entries;
      ghost var current := published.View();
      if id !in entries || capability !in entries[id].values { return; }
      var values := CopyValues(entries[id], Some(capability));
      var next: map<Uuid, Values>;
      if values.values == map[] {
        next := CopyWithout(entries, id);
      } else {
        next := entries[id := values];
      }
      published := new Snapshot(next);
      assert published.View() == After(current, call);
    }

    method ClearInstance(id: Uuid)
      requires Valid()
      modifies this
      ensures Valid() && history == old(history) + [Call.ClearInstance(id)]
      ensures if id in old(published.entries)
              then fresh(published) && published.entries == old(published.entries) - {id}
              else published == old(published)
    {
      ghost var call := Call.ClearInstance(id);
      CallsOneMore(history, call);
      hide Calls;
      history := history + [call];
      var entries: map<Uuid, Values> := published.entries;
      ghost var current := published.View();
      if id !in entries {
        assert current - {id} == current;
        return;
      }
      var rest := CopyWithout(entries, id);
      published := new Snapshot(rest);
      assert published.View() == After(current, call);
    }

    method ClearAll()
      requires Valid()
      modifies this
      ensures Valid() && history == old(history) + [Call.ClearAll]
      ensures fresh(published) && published.entries == map[]
    {
      ghost var call := Call.ClearAll;
      CallsOneMore(history, call);
      hide Calls;
      history := history + [call];
      published := new Snapshot(map[]);
    }
  }

  // ----- Composition with the frame --------------------------------------------------------

  /** `AttributeSet.Overlay`: the override wins. */
  function Merge(under: AttributeSet, over: AttributeSet): AttributeSet { under + over }

  function Attributes(f: map<Uuid, AttributeSet>, id: Uuid): AttributeSet {
    if id in f then f[id] else map[]
  }

  function Overlaid(frame: Frame, o: Overrides): Frame {
    map id | id in frame.Keys + o.Keys :: Merge(Attributes(frame, id), Attributes(o, id))
  }

  lemma MergeNothing(attrs: AttributeSet)
    ensures Merge(attrs, map[]) == attrs
  {
  }

  /** `applyDeskOverrides`. */
  method ApplyDesk(frame: Frame, o: Overrides) returns (out: Frame)
    ensures out == Overlaid(frame, o)
  {
    hide Merge;
    if o == map[] {
      forall id | id in frame ensures Overlaid(frame, o)[id] == frame[id] { MergeNothing(frame[id]); }
      return frame;
    }
    out := frame;
    var rest := o.Keys;
    while rest != {}
      invariant rest <= o.Keys
      invariant out.Keys == frame.Keys + (o.Keys - rest)
      invariant forall id :: id in out ==>
        out[id] == if id in o && id !in rest then Merge(Attributes(frame, id), o[id]) else frame[id]
      decreases rest
    {
      var id :| id in rest;
      out := out[id := Merge(Attributes(out, id), o[id])];
      rest := rest - {id};
    }
    forall id | id in out ensures out[id] == Overlaid(frame, o)[id] {
      if id !in o { MergeNothing(frame[id]); }
    }
  }

  /** What a tick sees at (id, capability) after any sequence of desk calls: the last
      value the desk still holds there, otherwise the frame's own. */
  lemma DeskWinsOverFrame(frame: Frame, calls: seq<Call>, id: Uuid, k: Capability)
    ensures Lookup(Overlaid(frame, Calls(calls)), id, k)
            == match LastWrite(calls, id, k) case Some(v) => Some(v) case None => Lookup(frame, id, k)
  {
    DeskIsLastWriterWins(calls, id, k);
  }
}
