/** The health model: one entry per target key ever configured, counting send outcomes
    that arrive while the key is configured.  It outlives the workers that feed it. */
module Health {
  import opened Prelude
  import opened Fixtures
  import opened Targets
  import opened Sequences

  datatype TargetHealth = TargetHealth(universe: int, target: Target, sendOk: nat, sendErr: nat,
                                       reachable: bool, lastError: string)

  /** A configured target and the universe it is listed under. */
  datatype Listed = Listed(universe: int, target: Target)

  type Entries = map<Key, TargetHealth>

  datatype Board = Board(entries: Entries, configured: set<Key>)

  const EMPTY := Board(map[], {})

  function ListedKeys(listed: seq<Listed>): set<Key> {
    set i | 0 <= i < |listed| :: KeyOf(listed[i].target)
  }

  /** A new key starts at zero; a known one keeps its counters. */
  function Track(entries: Entries, l: Listed): Entries {
    var key := KeyOf(l.target);
    entries[key := if key in entries then entries[key].(universe := l.universe, target := l.target)
                   else TargetHealth(l.universe, l.target, 0, 0, false, "")]
  }

  function TrackAll(entries: Entries, listed: seq<Listed>): Entries {
    if listed == [] then entries
    else Track(TrackAll(entries, listed[..|listed| - 1]), listed[|listed| - 1])
  }

  function Reconfigured(b: Board, listed: seq<Listed>): Board {
    Board(TrackAll(b.entries, listed), ListedKeys(listed))
  }

  // ----- Listings of a target map -----------------------------------------------------------

  /** The keys of every configured target. */
  ghost function AllKeys(m: TargetMap): set<Key> {
    set u, i | u in m.Keys && 0 <= i < |m[u]| :: KeyOf(m[u][i])
  }

  /** `order` walks the keys of a map, each once. */
  ghost predicate Walks(order: seq<int>, keys: set<int>) {
    NoRepeats(order) && forall u :: u in order <==> u in keys
  }

  function ListingsOf(u: int, ts: seq<Target>): (r: seq<Listed>)
    ensures |r| == |ts| && forall i :: 0 <= i < |ts| ==> r[i] == Listed(u, ts[i])
  {
    seq(|ts|, i requires 0 <= i < |ts| => Listed(u, ts[i]))
  }

  /** The target map flattened in walk order. */
  function Listings(m: TargetMap, order: seq<int>): seq<Listed> {
    if order == [] then []
    else Listings(m, order[..|order| - 1]) + ListingsOf(order[|order| - 1], ListOf(m, order[|order| - 1]))
  }

  lemma {:induction false} ListingHas(m: TargetMap, order: seq<int>, u: int, i: nat)
    requires u in order && i < |ListOf(m, u)|
    ensures Listed(u, ListOf(m, u)[i]) in Listings(m, order)
  {
    var last := order[|order| - 1];
    if u == last {
      assert ListingsOf(u, ListOf(m, u))[i] in Listings(m, order);
    } else {
      ListingHas(m, order[..|order| - 1], u, i);
    }
  }

  lemma {:induction false} ListingOnly(m: TargetMap, order: seq<int>, l: Listed)
    requires l in Listings(m, order)
    ensures l.universe in order && l.target in ListOf(m, l.universe)
  {
    var front, last := order[..|order| - 1], order[|order| - 1];
    if l in Listings(m, front) { ListingOnly(m, front, l); }
  }

  lemma ListingKeys(m: TargetMap, order: seq<int>)
    requires Walks(order, m.Keys)
    ensures ListedKeys(Listings(m, order)) == AllKeys(m)
  {
    var listed := Listings(m, order);
    forall k | k in AllKeys(m) ensures k in ListedKeys(listed) {
      var u, i :| u in m.Keys && 0 <= i < |m[u]| && KeyOf(m[u][i]) == k;
      ListingHas(m, order, u, i);
      var j :| 0 <= j < |listed| && listed[j] == Listed(u, m[u][i]);
    }
    forall k | k in ListedKeys(listed) ensures k in AllKeys(m) {
      var j :| 0 <= j < |listed| && KeyOf(listed[j].target) == k;
      ListingOnly(m, order, listed[j]);
      var u := listed[j].universe;
      var i :| 0 <= i < |m[u]| && m[u][i] == listed[j].target;
      assert KeyOf(m[u][i]) == k;
    }
  }

  // ----- Outcomes -----------------------------------------------------------------------------

  function Bumped(h: TargetHealth, l: Listed, error: Option<string>): TargetHealth {
    var h' := h.(universe := l.universe, target := l.target);
    match error
    case Some(e) => h'.(sendErr := h.sendErr + 1, lastError := e)
    case None => h'.(sendOk := h.sendOk + 1, reachable := true, lastError := "")
  }

  function Recorded(b: Board, l: Listed, error: Option<string>): Board
    requires b.configured <= b.entries.Keys
  {
    var key := KeyOf(l.target);
    if key !in b.configured then b
    else b.(entries := b.entries[key := Bumped(b.entries[key], l, error)])
  }

  // ----- The health object ------------------------------------------------------------------

  class Health {
    var entries: Entries
    var configured: set<Key>
    var published: Entries
    var values: map<int, seq<Byte>>
    var configuredUniverses: set<int>
    var publishedValues: map<int, seq<Byte>>
    /** When the worker last read a frame, in nanoseconds; 0 for never. */
    var lastFrameAt: int

    /** What readers see is what has been recorded. */
    predicate Valid()
      reads this
    {
      published == entries && configured <= entries.Keys && publishedValues == values
    }

    function Now(): Board reads this { Board(entries, configured) }

    /** The configuration, the shown levels and the frame time are the given ones. */
    predicate SameSetup(keys: set<Key>, universes: set<int>, levels: map<int, seq<Byte>>, frameAt: int)
      reads this
    {
      configured == keys && configuredUniverses == universes && values == levels && lastFrameAt == frameAt
    }

    constructor ()
      ensures Valid() && Now() == EMPTY && values == map[] && configuredUniverses == {} && lastFrameAt == 0
    {
      entries, configured, published := map[], {}, map[];
      values, configuredUniverses, publishedValues, lastFrameAt := map[], {}, map[], 0;
    }

    /** `Configure`; `order` is the order in which the runtime walks the map. */
    method Configure(targets: TargetMap, order: seq<int>)
      requires Valid() && Walks(order, targets.Keys)
      modifies this
      ensures Valid() && Now() == Reconfigured(old(Now()), Listings(targets, order))
      ensures configured == AllKeys(targets) && configuredUniverses == targets.Keys
      ensures values == old(values) && lastFrameAt == old(lastFrameAt)
    {
      hide AllKeys, TrackAll, ListedKeys;
      StartReconfiguring(Now());
      configured := {};
      for i := 0 to |order|
        invariant Now() == Reconfigured(old(Now()), Listings(targets, order[..i]))
        invariant configured <= entries.Keys && values == old(values) && publishedValues == values
        invariant lastFrameAt == old(lastFrameAt)
      {
        assert order[..i + 1][..i] == order[..i];
        assert order[i] in order;
        ConfigureUniverse(old(Now()), Listings(targets, order[..i]), order[i], targets[order[i]]);
      }
      assert order[..|order|] == order;
      ListingKeys(targets, order);
      published := entries;
      configuredUniverses := targets.Keys;
      publishedValues := values;
    }

    /** The targets of one universe. */
    method ConfigureUniverse(ghost b: Board, ghost before: seq<Listed>, u: int, ts: seq<Target>)
      requires Now() == Reconfigured(b, before) && configured <= entries.Keys
      modifies this`entries, this`configured
      ensures Now() == Reconfigured(b, before + ListingsOf(u, ts)) && configured <= entries.Keys
    {
      hide TrackAll, ListedKeys;
      assert before + ListingsOf(u, []) == before;
      for j := 0 to |ts|
        invariant Now() == Reconfigured(b, before + ListingsOf(u, ts[..j])) && configured <= entries.Keys
      {
        ReconfigureOneMore(b, before + ListingsOf(u, ts[..j]), Listed(u, ts[j]));
        assert before + ListingsOf(u, ts[..j + 1]) == before + ListingsOf(u, ts[..j]) + [Listed(u, ts[j])];
        var key := KeyOf(ts[j]);
        configured := configured + {key};
        if key !in entries {
          entries := entries[key := TargetHealth(u, ts[j], 0, 0, false, "")];
        } else {
          var existing := entries[key].(universe := u);
          existing := existing.(target := ts[j]);
          entries := entries[key := existing];
        }
      }
      assert ts[..|ts|] == ts;
    }

    method RecordSend(universe: int, target: Target, error: Option<string>)
      requires Valid()
      modifies this
      ensures Valid() && Now() == Recorded(old(Now()), Listed(universe, target), error)
      ensures values == old(values) && configuredUniverses == old(configuredUniverses)
      ensures lastFrameAt == old(lastFrameAt)
    {
      var key := KeyOf(target);
      if key in configured {
        var th := entries[key].(universe := universe, target := target);
        if error.Some? {
          th := th.(sendErr := th.sendErr + 1, lastError := error.value);
        } else {
          th := th.(sendOk := th.sendOk + 1, reachable := true, lastError := "");
        }
        entries := entries[key := th];
        published := entries;
      }
    }

    method RecordFrame(now: int)
      requires Valid()
      modifies this`lastFrameAt
      ensures Valid() && lastFrameAt == now
    {
      lastFrameAt := now;
    }

    /** The last levels of a universe, kept only while it is configured. */
    method RecordUniverseValues(universe: int, data: seq<Byte>)
      requires Valid()
      modifies this
      ensures Valid() && Now() == old(Now()) && configuredUniverses == old(configuredUniverses)
      ensures lastFrameAt == old(lastFrameAt)
      ensures values == if universe in configuredUniverses then old(values)[universe := data] else old(values)
    {
      if universe !in configuredUniverses { return; }
      values := values[universe := data];
      publishedValues := values;
    }
  }

  lemma KeysAppend(listed: seq<Listed>, l: Listed)
    ensures ListedKeys(listed + [l]) == ListedKeys(listed) + {KeyOf(l.target)}
  {
    var more := listed + [l];
    forall k | k in ListedKeys(listed) + {KeyOf(l.target)} ensures k in ListedKeys(more) {
      if k in ListedKeys(listed) {
        var i :| 0 <= i < |listed| && KeyOf(listed[i].target) == k;
        assert more[i] == listed[i];
      } else {
        assert more[|listed|] == l;
      }
    }
  }

  lemma StartReconfiguring(b: Board)
    ensures Reconfigured(b, []) == Board(b.entries, {})
  {
  }

  lemma ReconfigureOneMore(b: Board, listed: seq<Listed>, l: Listed)
    ensures var r := Reconfigured(b, listed);
            Reconfigured(b, listed + [l]) == Board(Track(r.entries, l), r.configured + {KeyOf(l.target)})
  {
    KeysAppend(listed, l);
    assert (listed + [l])[..|listed|] == listed;
  }

  // ----- Runs ------------------------------------------------------------------------------------

  /** What reaches a health object, in the order of its lock: reconfigurations, and
      outcomes from any worker's goroutines, stopped workers included. */
  datatype Event = Configure(listed: seq<Listed>) | Outcome(from: Listed, error: Option<string>)

  function Run(events: seq<Event>): (b: Board)
    ensures b.configured <= b.entries.Keys
  {
    if events == [] then EMPTY
    else
      var b := Run(events[..|events| - 1]);
      match events[|events| - 1]
      case Configure(listed) => TrackedKeys(b.entries, listed); Reconfigured(b, listed)
      case Outcome(l, error) => Recorded(b, l, error)
  }

  /** What further events do to a board. */
  function After(b: Board, events: seq<Event>): (r: Board)
    requires b.configured <= b.entries.Keys
    ensures r.configured <= r.entries.Keys
  {
    if events == [] then b
    else
      var r := After(b, events[..|events| - 1]);
      match events[|events| - 1]
      case Configure(listed) => TrackedKeys(r.entries, listed); Reconfigured(r, listed)
      case Outcome(l, error) => Recorded(r, l, error)
  }

  lemma {:induction false} AfterBoth(b: Board, some: seq<Event>, more: seq<Event>)
    requires b.configured <= b.entries.Keys
    ensures After(b, some + more) == After(After(b, some), more)
  {
    if more == [] {
      assert some + more == some;
    } else {
      AfterBoth(b, some, more[..|more| - 1]);
      assert (some + more)[..|some + more| - 1] == some + more[..|more| - 1];
    }
  }

  lemma {:induction false} TrackedKeys(entries: Entries, listed: seq<Listed>)
    ensures TrackAll(entries, listed).Keys == entries.Keys + ListedKeys(listed)
  {
    if listed != [] {
      var front, last := listed[..|listed| - 1], listed[|listed| - 1];
      TrackedKeys(entries, front);
      KeysAppend(front, last);
      assert listed == front + [last];
    }
  }

  /** Whether the latest reconfiguration lists the key. */
  function Listening(events: seq<Event>, key: Key): bool {
    if events == [] then false
    else match events[|events| - 1]
         case Configure(listed) => key in ListedKeys(listed)
         case Outcome(_, _) => Listening(events[..|events| - 1], key)
  }

  /** Outcomes of one kind for a key that arrive while it is configured. */
  function Tally(events: seq<Event>, key: Key, failed: bool): nat {
    if events == [] then 0
    else
      var e := events[|events| - 1];
      Tally(events[..|events| - 1], key, failed)
      + if e.Outcome? && KeyOf(e.from.target) == key && e.error.Some? == failed
           && Listening(events[..|events| - 1], key) then 1 else 0
  }

  /** Whether any reconfiguration so far lists the key. */
  function EverListed(events: seq<Event>, key: Key): bool {
    if events == [] then false
    else EverListed(events[..|events| - 1], key)
         || (events[|events| - 1].Configure? && key in ListedKeys(events[|events| - 1].listed))
  }

  /** The error of the latest outcome that arrived while the key was configured. */
  function LastError(events: seq<Event>, key: Key): string {
    if events == [] then ""
    else
      var front, e := events[..|events| - 1], events[|events| - 1];
      if e.Outcome? && KeyOf(e.from.target) == key && Listening(front, key)
      then (if e.error.Some? then e.error.value else "")
      else LastError(front, key)
  }

  function ErrorOf(b: Board, key: Key): string { if key in b.entries then b.entries[key].lastError else "" }

  function Count(b: Board, key: Key, failed: bool): nat {
    if key !in b.entries then 0 else if failed then b.entries[key].sendErr else b.entries[key].sendOk
  }

  lemma {:induction false} TrackingKeepsCounts(entries: Entries, listed: seq<Listed>, key: Key, failed: bool)
    ensures Count(Board(TrackAll(entries, listed), {}), key, failed) == Count(Board(entries, {}), key, failed)
    ensures key in TrackAll(entries, listed) ==>
              TrackAll(entries, listed)[key].reachable == (key in entries && entries[key].reachable)
    ensures ErrorOf(Board(TrackAll(entries, listed), {}), key) == ErrorOf(Board(entries, {}), key)
  {
    if listed != [] {
      TrackingKeepsCounts(entries, listed[..|listed| - 1], key, failed);
      TrackedKeys(entries, listed[..|listed| - 1]);
    }
  }

  ghost predicate Faithful(b: Board, events: seq<Event>, key: Key) {
    && (key in b.configured <==> Listening(events, key))
    && (key in b.entries <==> EverListed(events, key))
    && Count(b, key, false) == Tally(events, key, false)
    && Count(b, key, true) == Tally(events, key, true)
    && (key in b.entries ==> (b.entries[key].reachable <==> b.entries[key].sendOk > 0))
    && ErrorOf(b, key) == LastError(events, key)
  }

  /** Over any run, for every key: it accepts outcomes exactly while the latest
      configuration lists it, its counters are the outcomes that arrived in that time, it
      counts as reachable exactly once a send has succeeded, and it shows the error of the
      latest outcome. */
  lemma {:induction false} CountersFaithful(events: seq<Event>, key: Key)
    ensures Faithful(Run(events), events, key)
  {
    if events != [] {
      var front, e := events[..|events| - 1], events[|events| - 1];
      CountersFaithful(front, key);
      var b := Run(front);
      match e {
        case Configure(listed) =>
          TrackingKeepsCounts(b.entries, listed, key, false);
          TrackingKeepsCounts(b.entries, listed, key, true);
          TrackedKeys(b.entries, listed);
          hide TrackAll;
        case Outcome(l, error) =>
      }
    }
  }

  lemma {:induction false} TallyGrows(events: seq<Event>, more: seq<Event>, key: Key, failed: bool)
    ensures Tally(events, key, failed) <= Tally(events + more, key, failed)
  {
    if more == [] {
      assert events + more == events;
    } else {
      TallyGrows(events, more[..|more| - 1], key, failed);
      assert (events + more)[..|events + more| - 1] == events + more[..|more| - 1];
    }
  }

  /** No counter ever falls, across any number of reconfigurations. */
  lemma CountersNeverFall(events: seq<Event>, more: seq<Event>, key: Key, failed: bool)
    ensures Count(Run(events), key, failed) <= Count(Run(events + more), key, failed)
  {
    CountersFaithful(events, key);
    CountersFaithful(events + more, key);
    hide Run;
    TallyGrows(events, more, key, failed);
  }

  // ----- The target an entry shows ------------------------------------------------------------------

  function LastListed(listed: seq<Listed>, key: Key): Option<Listed> {
    if listed == [] then None
    else if KeyOf(listed[|listed| - 1].target) == key then Some(listed[|listed| - 1])
    else LastListed(listed[..|listed| - 1], key)
  }

  /** The latest listing or accepted outcome of a key. */
  function LastSeen(events: seq<Event>, key: Key): Option<Listed> {
    if events == [] then None
    else
      var front, e := events[..|events| - 1], events[|events| - 1];
      match e
      case Configure(listed) => if LastListed(listed, key).Some? then LastListed(listed, key) else LastSeen(front, key)
      case Outcome(l, _) => if KeyOf(l.target) == key && Listening(front, key) then Some(l) else LastSeen(front, key)
  }

  lemma {:induction false} TrackedTarget(entries: Entries, listed: seq<Listed>, key: Key)
    ensures LastListed(listed, key).Some? <==> key in ListedKeys(listed)
    ensures key in TrackAll(entries, listed) ==>
              var h := TrackAll(entries, listed)[key];
              if key in ListedKeys(listed) then LastListed(listed, key) == Some(Listed(h.universe, h.target))
              else key in entries && entries[key] == h
  {
    if listed != [] {
      var front, last := listed[..|listed| - 1], listed[|listed| - 1];
      TrackedTarget(entries, front, key);
      KeysAppend(front, last);
      assert listed == front + [last];
      hide ListedKeys;
    }
  }

  /** An entry shows the target of the latest listing or accepted outcome, whichever came
      last: not always the configured one. */
  lemma {:induction false} EntryShowsLatest(events: seq<Event>, key: Key)
    requires key in Run(events).entries
    ensures var h := Run(events).entries[key]; LastSeen(events, key) == Some(Listed(h.universe, h.target))
  {
    var front, e := events[..|events| - 1], events[|events| - 1];
    CountersFaithful(front, key);
    match e {
      case Configure(listed) =>
        TrackedTarget(Run(front).entries, listed, key);
        hide TrackAll;
        if key !in ListedKeys(listed) { EntryShowsLatest(front, key); }
      case Outcome(l, error) =>
        if !(KeyOf(l.target) == key && Listening(front, key)) { EntryShowsLatest(front, key); }
    }
  }

  /** An outcome from a stopped worker can show a disabled target as enabled. */
  lemma StaleOutcomeShowsEnabled()
    ensures var off := Target(1, Some("10.0.0.1"), 0, false);
            var events := [Configure([Listed(1, off)]), Outcome(Listed(1, off.(enabled := true)), None)];
            KeyOf(off) in Run(events).entries && Run(events).entries[KeyOf(off)].target.enabled
  {
    var off := Target(1, Some("10.0.0.1"), 0, false);
    var listed := [Listed(1, off)];
    var events := [Configure(listed), Outcome(Listed(1, off.(enabled := true)), None)];
    assert events[..1] == [Configure(listed)] && events[..1][..0] == [];
    assert listed[..0] == [] && listed[0].target == off;
    assert KeyOf(off) in ListedKeys(listed);
    assert Run([Configure(listed)]) == Reconfigured(EMPTY, listed);
  }
}
