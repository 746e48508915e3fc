/**
 Topology debounce over whole runs of passes. Between passes the collector may forget any pending holds: it
 does so for untrusted scopes, failed enumerations and restarts.
 */
module DebounceRuns {
  import opened Wrappers
  import opened SlotRecords
  import opened TopologyDebounce

  datatype Step = Observe(records: seq<SlotRecord>) | Forget(keys: set<Key>)

  /** The collector's state, and for each slot the topology of the latest pass that compared it. */
  datatype Tracker = Tracker(state: State, seen: map<Key, Signature>)

  /** A backfilled slot is stored without being compared, so it is not an observation. */
  function SeenAfter(store: Store, seen: map<Key, Signature>, records: seq<SlotRecord>): map<Key, Signature> {
    if records == [] then seen
    else
      var before := SeenAfter(store, seen, records[..|records| - 1]);
      var last := records[|records| - 1];
      if Backfills(Lookup(store, last.key), last) then before else before[last.key := SignatureOf(last)]
  }

  function Next(t: Tracker, step: Step): Tracker {
    match step
    case Observe(records) => Tracker(Pass(t.state, records), SeenAfter(t.state.store, t.seen, records))
    case Forget(keys) => t.(state := t.state.(pending := t.state.pending - keys))
  }

  function Run(t: Tracker, steps: seq<Step>): Tracker {
    if steps == [] then t else Next(Run(t, steps[..|steps| - 1]), steps[|steps| - 1])
  }

  ghost predicate ValidRun(steps: seq<Step>) {
    forall i | 0 <= i < |steps| :: steps[i].Observe? ==> UniqueSlots(steps[i].records)
  }

  /** Everything pending is the topology of the latest comparing pass, seen once. */
  ghost predicate Inv(t: Tracker) {
    forall key <- t.state.pending ::
      key in t.state.store && key in t.seen && t.state.pending[key] == Hold(t.seen[key], 1)
  }

  lemma {:induction false} SeenOne(
      store: Store, seen: map<Key, Signature>, records: seq<SlotRecord>, current: SlotRecord)
    requires UniqueSlots(records) && current in records
    ensures Lookup(SeenAfter(store, seen, records), current.key)
         == if Backfills(Lookup(store, current.key), current) then Lookup(seen, current.key)
            else Some(SignatureOf(current))
  {
    var rest, last := records[..|records| - 1], records[|records| - 1];
    if current == last {
      SeenNone(store, seen, rest, current.key);
    } else {
      var i :| 0 <= i < |records| && records[i] == current;
      assert rest[i] == current && last.key != current.key;
      SeenOne(store, seen, rest, current);
    }
  }

  lemma {:induction false} SeenNone(store: Store, seen: map<Key, Signature>, records: seq<SlotRecord>, key: Key)
    requires !Recording(records, key)
    ensures Lookup(SeenAfter(store, seen, records), key) == Lookup(seen, key)
  {
    if records != [] {
      var rest, last := records[..|records| - 1], records[|records| - 1];
      assert last in records && forall record <- rest :: record in records;
      SeenNone(store, seen, rest, key);
    }
  }

  /** A slot a pass does not mention keeps its record, its hold and its events. */
  lemma PassSkips(state: State, records: seq<SlotRecord>, key: Key)
    requires !Recording(records, key)
    ensures var after := Pass(state, records);
            && Lookup(after.store, key) == Lookup(state.store, key)
            && Lookup(after.pending, key) == Lookup(state.pending, key)
            && forall event <- after.events :: event in state.events || event.key != key
  {
    var mass := Mass(state.store, records);
    var pending := if mass then state.pending - DegradedKeys(state.store, records) else state.pending;
    FoldSkips(state.store, state.(pending := pending), records, mass, key);
  }

  /** After a compared slot's record at most its own topology is pending, seen once; a backfill touches nothing. */
  lemma PendingAfter(state: State, records: seq<SlotRecord>, current: SlotRecord)
    requires UniqueSlots(records) && current in records
    requires var hold := Lookup(state.pending, current.key);
             hold.Some? ==> current.key in state.store && hold.value.count >= 1
    ensures var backfills := Backfills(Lookup(state.store, current.key), current);
            var hold := Lookup(Pass(state, records).pending, current.key);
            && current.key in Pass(state, records).store
            && (hold.Some? ==>
                  current.key in state.store
                  && (if backfills then hold == Lookup(state.pending, current.key)
                      else hold == Some(Hold(SignatureOf(current), 1))))
  {
    PassTreatsSlotsIndependently(state, records, current);
    assert Lookup(Pass(state, records).store, current.key).Some?;
  }

  /** A compared slot keeps its stored topology, or takes the record's own for a reason. */
  lemma StoredAfter(state: State, records: seq<SlotRecord>, current: SlotRecord)
    requires UniqueSlots(records) && current in records && current.key in state.store
    ensures var previous, after := state.store[current.key], Pass(state, records);
            && current.key in after.store
            && (SignatureOf(after.store[current.key]) != SignatureOf(previous) ==>
                  && SignatureOf(after.store[current.key]) == SignatureOf(current)
                  && (|| !StableIdentity(previous, current) || Backfills(Some(previous), current)
                      || (&& current.key in state.pending
                          && state.pending[current.key].signature == SignatureOf(current))))
  {
    PassTreatsSlotsIndependently(state, records, current);
    assert Lookup(Pass(state, records).store, current.key).Some?;
  }

  lemma PassKeepsInv(t: Tracker, records: seq<SlotRecord>)
    requires Inv(t) && UniqueSlots(records)
    ensures Inv(Next(t, Observe(records)))
  {
    var after := Next(t, Observe(records));
    forall key | key in after.state.pending
      ensures key in after.state.store && key in after.seen && after.state.pending[key] == Hold(after.seen[key], 1)
    {
      if Recording(records, key) {
        var current :| current in records && current.key == key;
        PendingAfter(t.state, records, current);
        SeenOne(t.state.store, t.seen, records, current);
        assert Lookup(after.state.pending, key).Some? && Lookup(after.seen, key).Some?;
      } else {
        PassSkips(t.state, records, key);
        SeenNone(t.state.store, t.seen, records, key);
        assert Lookup(t.state.pending, key) == Some(after.state.pending[key]);
        assert Lookup(after.state.store, key) == Lookup(t.state.store, key);
        assert Lookup(after.seen, key) == Lookup(t.seen, key);
      }
    }
  }

  lemma {:induction false} RunKeepsInv(t: Tracker, steps: seq<Step>)
    requires Inv(t) && ValidRun(steps)
    ensures Inv(Run(t, steps))
  {
    if steps != [] {
      var rest, last := steps[..|steps| - 1], steps[|steps| - 1];
      assert ValidRun(rest) by {
        assert forall i | 0 <= i < |rest| :: rest[i] == steps[i];
      }
      RunKeepsInv(t, rest);
      if last.Observe? {
        PassKeepsInv(Run(t, rest), last.records);
      }
    }
  }

  /** A collector that has just started: whatever it finds stored, nothing pending, nothing seen. */
  function Started(store: Store): Tracker {
    Tracker(State(store, map[], []), map[])
  }

  /** The pass itself observed the topology it newly stored, and something entitles it to be stored. */
  ghost predicate Entitled(before: Tracker, records: seq<SlotRecord>, key: Key, signature: Signature)
    requires key in before.state.store
  {
    var previous := before.state.store[key];
    exists current <- records ::
      && current.key == key && SignatureOf(current) == signature
      && (|| !StableIdentity(previous, current) || Backfills(Some(previous), current)
          || Lookup(before.seen, key) == Some(signature))
  }

  /** A pass changes the stored topology of a slot only if it is entitled to. */
  ghost predicate Confirmed(before: Tracker, records: seq<SlotRecord>, key: Key)
    requires key in before.state.store
  {
    var after := Pass(before.state, records);
    && key in after.store
    && (SignatureOf(after.store[key]) != SignatureOf(before.state.store[key]) ==>
          Entitled(before, records, key, SignatureOf(after.store[key])))
  }

  lemma PassNeedsConfirmation(before: Tracker, records: seq<SlotRecord>, key: Key)
    requires Inv(before) && UniqueSlots(records) && key in before.state.store
    ensures Confirmed(before, records, key)
  {
    var after := Pass(before.state, records);
    if Recording(records, key) {
      var current :| current in records && current.key == key;
      StoredAfter(before.state, records, current);
    } else {
      PassSkips(before.state, records, key);
      assert Lookup(after.store, key) == Lookup(before.state.store, key);
    }
  }

  /**
   Debounce over whole runs. After any run, a pass changes a slot's stored topology only when the pass itself
   observed the new topology and either the disk identity changed, or the slot was backfilled, or the latest
   earlier pass that compared the slot had already observed that same topology.
   */
  lemma StoredTopologyNeedsConfirmation(store: Store, steps: seq<Step>, records: seq<SlotRecord>, key: Key)
    requires ValidRun(steps) && UniqueSlots(records)
    requires key in Run(Started(store), steps).state.store
    ensures Confirmed(Run(Started(store), steps), records, key)
  {
    RunKeepsInv(Started(store), steps);
    PassNeedsConfirmation(Run(Started(store), steps), records, key);
  }

  /**
   Events follow the store: in a pass from a state without events, a topology event for a stored slot means
   its stored topology changed; and a compared slot whose stored topology changed has one, if presence is equal.
   */
  lemma TopologyEventsFollowTheStore(state: State, records: seq<SlotRecord>, key: Key)
    requires UniqueSlots(records) && key in state.store && state.events == []
    ensures var after := Pass(state, records);
            && key in after.store
            && (HasTopologyEvent(after.events, key) <==>
                  && SignatureOf(after.store[key]) != SignatureOf(state.store[key])
                  && after.store[key].present == state.store[key].present
                  && forall current <- records :: current.key == key ==> !Backfills(Some(state.store[key]), current))
  {
    var after := Pass(state, records);
    if Recording(records, key) {
      var current :| current in records && current.key == key;
      PassTreatsSlotsIndependently(state, records, current);
      assert Lookup(after.store, key).Some?;
      forall other | other in records && other.key == key
        ensures other == current
      {
        var i :| 0 <= i < |records| && records[i] == current;
        var j :| 0 <= j < |records| && records[j] == other;
      }
      var held, mass := HoldIn(state, records, key), Mass(state.store, records);
      var r := Record(Some(state.store[key]), current, held, mass);
      RecordedEventsAreOfTheSlot(Some(state.store[key]), current, held, mass);
      TopologyEventExactlyOnChange(state.store[key], r.record);
      assert HasTopologyEvent(after.events, key) <==> HasTopologyEvent(r.events, key);
    } else {
      PassSkips(state, records, key);
      assert Lookup(after.store, key) == Lookup(state.store, key);
    }
  }

  /** A mass loss of topology detail changes no degraded slot's stored topology and emits no topology event for it. */
  lemma MassDegradationIsNotRecorded(state: State, records: seq<SlotRecord>, current: SlotRecord)
    requires UniqueSlots(records) && current in records && state.events == []
    requires Mass(state.store, records) && Degrades(state.store, current)
    requires !Backfills(Some(state.store[current.key]), current)
    ensures var after := Pass(state, records);
            && current.key in after.store
            && SignatureOf(after.store[current.key]) == SignatureOf(state.store[current.key])
            && !HasTopologyEvent(after.events, current.key)
            && current.key !in after.pending
  {
    PassTreatsSlotsIndependently(state, records, current);
    var after := Pass(state, records);
    assert Lookup(after.store, current.key).Some? && Lookup(after.pending, current.key).None?;
    TopologyEventsFollowTheStore(state, records, current.key);
  }

  /** A pass that stores the topology a slot already had emits no topology event for it. */
  lemma UnchangedIsQuiet(state: State, records: seq<SlotRecord>, current: SlotRecord)
    requires UniqueSlots(records) && current in records && current.key in state.store && state.events == []
    requires var stored := Some(state.store[current.key]);
             var r := Record(stored, current, HoldIn(state, records, current.key), Mass(state.store, records));
             SignatureOf(r.record) == SignatureOf(stored.value)
    ensures var after := Pass(state, records);
            && current.key in after.store
            && SignatureOf(after.store[current.key]) == SignatureOf(state.store[current.key])
            && !HasTopologyEvent(after.events, current.key)
  {
    PassTreatsSlotsIndependently(state, records, current);
    assert Lookup(Pass(state, records).store, current.key).Some?;
    TopologyEventsFollowTheStore(state, records, current.key);
  }

  /** A first sighting of another topology of the same disk is held. */
  lemma FirstSightingIsHeld(previous: SlotRecord, current: SlotRecord, hold: Option<Hold>, mass: bool)
    requires StableIdentity(previous, current) && !Backfills(Some(previous), current)
    requires hold.Some? ==> hold.value.signature != SignatureOf(current)
    ensures SignatureOf(Record(Some(previous), current, hold, mass).record) == SignatureOf(previous)
  {
  }

  lemma SameTopologyStays(previous: SlotRecord, current: SlotRecord, hold: Option<Hold>, mass: bool)
    requires SignatureOf(current) == SignatureOf(previous)
    ensures SignatureOf(Record(Some(previous), current, hold, mass).record) == SignatureOf(previous)
  {
  }

  /** A one-pass flap: after any run, seeing another topology once and the stored one again records nothing of it. */
  lemma FlapIsNotRecorded(
      store: Store, steps: seq<Step>, flap: seq<SlotRecord>, back: seq<SlotRecord>, away: SlotRecord, home: SlotRecord)
    requires ValidRun(steps) && UniqueSlots(flap) && UniqueSlots(back)
    requires away in flap && home in back && away.key == home.key
    requires var before := Run(Started(store), steps);
             && away.key in before.state.store
             && var stored := before.state.store[away.key];
                && StableIdentity(stored, away) && StableIdentity(stored, home)
                && !Backfills(Some(stored), away)
                && SignatureOf(home) == SignatureOf(stored)
                && Lookup(before.seen, away.key) != Some(SignatureOf(away))
    ensures var before := Run(Started(store), steps);
            var middle := Pass(before.state.(events := []), flap);
            var after := Pass(middle.(events := []), back);
            && away.key in after.store
            && SignatureOf(after.store[away.key]) == SignatureOf(before.state.store[away.key])
            && !HasTopologyEvent(middle.events, away.key) && !HasTopologyEvent(after.events, away.key)
  {
    var before := Run(Started(store), steps);
    RunKeepsInv(Started(store), steps);
    var clean := before.state.(events := []);
    var stored := clean.store[away.key];
    FirstSightingIsHeld(stored, away, HoldIn(clean, flap, away.key), Mass(clean.store, flap));
    UnchangedIsQuiet(clean, flap, away);
    var again := Pass(clean, flap).(events := []);
    SameTopologyStays(again.store[home.key], home, HoldIn(again, back, home.key), Mass(again.store, back));
    UnchangedIsQuiet(again, back, home);
  }
}
