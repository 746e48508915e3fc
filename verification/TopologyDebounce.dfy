/**
 Recording a pass of slot records: a topology change is held until a second consecutive observation, and a
 mass loss of topology detail is not recorded at all.
 */
module TopologyDebounce {
  import opened Wrappers
  import opened SlotRecords

  const CONFIRMATION_COUNT: nat := 2

  /** An observed topology that still waits for its confirmation. */
  datatype Hold = Hold(signature: Signature, count: nat)

  type Store = map<Key, SlotRecord>

  type Pending = map<Key, Hold>

  function Lookup<T>(table: map<Key, T>, key: Key): Option<T> {
    if key in table then Some(table[key]) else None
  }

  function Put<T>(table: map<Key, T>, key: Key, value: Option<T>): (r: map<Key, T>)
    ensures Lookup(r, key) == value
    ensures forall other | other != key :: Lookup(r, other) == Lookup(table, other)
  {
    if value.Some? then table[key := value.value] else table - {key}
  }

  // ---------------------------------------------------------------- one record

  datatype Prepared = Prepared(record: SlotRecord, degraded: bool, held: bool, hold: Option<Hold>)

  /** What is stored for one record, and what stays pending for its slot. */
  function Prepare(previous: Option<SlotRecord>, current: SlotRecord, hold: Option<Hold>, suppress: bool): Prepared {
    if previous.None? then Prepared(current, false, false, hold)
    else
      var degraded := TopologyDegradation(previous.value, current);
      if degraded && suppress then
        Prepared(WithPreviousTopology(previous.value, current), true, false, hold)
      else if !TopologyChanged(previous.value, current) || !StableIdentity(previous.value, current) then
        Prepared(current, false, false, None)
      else
        var signature := SignatureOf(current);
        var count := if hold.Some? && hold.value.signature == signature then hold.value.count + 1 else 1;
        if count < CONFIRMATION_COUNT then
          Prepared(WithPreviousTopology(previous.value, current), degraded, true, Some(Hold(signature, count)))
        else
          Prepared(current, false, false, None)
  }

  /** What one record does to its slot: the stored record, the hold and the events. */
  datatype Recorded = Recorded(record: SlotRecord, hold: Option<Hold>, events: seq<Event>)

  function Record(previous: Option<SlotRecord>, current: SlotRecord, hold: Option<Hold>, mass: bool): Recorded {
    if Backfills(previous, current) then Recorded(current, hold, [])
    else
      var prepared := Prepare(previous, current, hold, mass);
      Recorded(prepared.record, prepared.hold, SlotEvents(previous, prepared.record))
  }

  // ---------------------------------------------------------------- one pass

  datatype State = State(store: Store, pending: Pending, events: seq<Event>)

  predicate Degrades(store: Store, record: SlotRecord) {
    record.key in store && TopologyDegradation(store[record.key], record)
  }

  function DegradedCount(store: Store, records: seq<SlotRecord>): nat {
    if records == [] then 0
    else
      DegradedCount(store, records[..|records| - 1]) + if Degrades(store, records[|records| - 1]) then 1 else 0
  }

  predicate Mass(store: Store, records: seq<SlotRecord>) {
    MassDegradation(DegradedCount(store, records), |records|)
  }

  function DegradedKeys(store: Store, records: seq<SlotRecord>): set<Key> {
    set record <- records | Degrades(store, record) :: record.key
  }

  /** Every record of a pass is compared with the store as the pass found it. */
  function Fold(start: Store, state: State, records: seq<SlotRecord>, mass: bool): State {
    if records == [] then state
    else
      Absorb(start, Fold(start, state, records[..|records| - 1], mass), records[|records| - 1], mass)
  }

  /** One more record of a pass. */
  function Absorb(start: Store, before: State, current: SlotRecord, mass: bool): State {
    var r := Record(Lookup(start, current.key), current, Lookup(before.pending, current.key), mass);
    State(before.store[current.key := r.record], Put(before.pending, current.key, r.hold), before.events + r.events)
  }

  function Pass(state: State, records: seq<SlotRecord>): State {
    var mass := Mass(state.store, records);
    var pending := if mass then state.pending - DegradedKeys(state.store, records) else state.pending;
    Fold(state.store, state.(pending := pending), records, mass)
  }

  /** `record_slot_updates`: the upserts of one transaction, in order. */
  function Written(store: Store, updates: seq<SlotRecord>): Store {
    if updates == [] then store
    else
      var last := updates[|updates| - 1];
      Written(store, updates[..|updates| - 1])[last.key := last]
  }

  lemma WrittenMore(store: Store, updates: seq<SlotRecord>, record: SlotRecord)
    ensures Written(store, updates + [record]) == Written(store, updates)[record.key := record]
  {
    assert (updates + [record])[..|updates|] == updates;
  }

  lemma RecordKeepsKey(previous: Option<SlotRecord>, current: SlotRecord, hold: Option<Hold>, mass: bool)
    ensures Record(previous, current, hold, mass).record.key == current.key
  {
  }

  class SlotCollector {
    var store: Store
    var pending: Pending
    var events: seq<Event>

    constructor ()
      ensures store == map[] && pending == map[] && events == []
    {
      store, pending, events := map[], map[], [];
    }

    function Now(): State
      reads this
    {
      State(store, pending, events)
    }

    /** `_prepare_slot_record_for_history`. */
    method PrepareRecord(previous: Option<SlotRecord>, current: SlotRecord, suppress: bool)
      returns (record: SlotRecord, degraded: bool, held: bool)
      modifies this`pending
      ensures var expected := Prepare(previous, current, Lookup(old(pending), current.key), suppress);
              && record == expected.record && degraded == expected.degraded && held == expected.held
              && pending == Put(old(pending), current.key, expected.hold)
    {
      var key := current.key;
      if previous.None? {
        return current, false, false;
      }
      var isDegraded := TopologyDegradation(previous.value, current);
      if isDegraded && suppress {
        return WithPreviousTopology(previous.value, current), true, false;
      }
      if !TopologyChanged(previous.value, current) || !StableIdentity(previous.value, current) {
        pending := pending - {key};
        return current, false, false;
      }
      var signature := SignatureOf(current);
      var count := 1;
      if key in pending && pending[key].signature == signature {
        count := pending[key].count + 1;
      }
      if count < CONFIRMATION_COUNT {
        pending := pending[key := Hold(signature, count)];
        return WithPreviousTopology(previous.value, current), isDegraded, true;
      }
      pending := pending - {key};
      return current, false, false;
    }

    method CountDegraded(records: seq<SlotRecord>) returns (degraded: nat)
      ensures degraded == DegradedCount(store, records)
    {
      degraded := 0;
      for i := 0 to |records|
        invariant degraded == DegradedCount(store, records[..i])
      {
        assert records[..i + 1][..i] == records[..i];
        if Degrades(store, records[i]) {
          degraded := degraded + 1;
        }
      }
      assert records[..|records|] == records;
    }

    /** The update one record of a pass contributes: a backfill is stored as it is, without events. */
    method UpdateFor(current: SlotRecord, mass: bool) returns (record: SlotRecord, slotEvents: seq<Event>)
      modifies this`pending
      ensures var r := Record(Lookup(store, current.key), current, Lookup(old(pending), current.key), mass);
              record == r.record && slotEvents == r.events && pending == Put(old(pending), current.key, r.hold)
    {
      var previous := Lookup(store, current.key);
      if Backfills(previous, current) {
        return current, [];
      }
      var degraded, held;
      record, degraded, held := PrepareRecord(previous, current, mass);
      slotEvents := BuildSlotEvents(previous, record);
    }

    /** `_record_slot_changes`: one read of the store, then one transaction with every update of the pass. */
    method RecordSlotChanges(records: seq<SlotRecord>)
      modifies this
      ensures Now() == Pass(old(Now()), records)
    {
      var degraded := CountDegraded(records);
      var mass := MassDegradation(degraded, |records|);
      if mass {
        ForgetDegraded(records);
      }
      var updates: seq<SlotRecord>, emitted: seq<Event> := [], events;
      ghost var begin := Now();
      ghost var reached := begin;
      for i := 0 to |records|
        invariant store == begin.store && events == begin.events && |updates| == i
        invariant reached == Fold(begin.store, begin, records[..i], mass)
        invariant reached.pending == pending && reached.events == emitted
        invariant reached.store == Written(begin.store, updates)
      {
        assert records[..i + 1][..i] == records[..i];
        ghost var next := Absorb(begin.store, reached, records[i], mass);
        var record, slotEvents := UpdateFor(records[i], mass);
        RecordKeepsKey(Lookup(store, records[i].key), records[i], Lookup(reached.pending, records[i].key), mass);
        WrittenMore(begin.store, updates, record);
        updates, emitted := updates + [record], emitted + slotEvents;
        assert next == State(Written(begin.store, updates), pending, emitted);
        reached := next;
      }
      assert records[..|records|] == records;
      store, events := Written(store, updates), emitted;
    }

    /** A mass degradation drops what the degraded slots had pending. */
    method ForgetDegraded(records: seq<SlotRecord>)
      modifies this`pending
      ensures pending == old(pending) - DegradedKeys(store, records)
    {
      for i := 0 to |records|
        invariant pending == old(pending) - DegradedKeys(store, records[..i])
      {
        assert records[..i + 1] == records[..i] + [records[i]];
        if Degrades(store, records[i]) {
          pending := pending - {records[i].key};
        }
      }
      assert records[..|records|] == records;
    }
  }

  // ---------------------------------------------------------------- one slot of one pass

  /** Every slot appears at most once in a pass. */
  predicate UniqueSlots(records: seq<SlotRecord>) {
    forall i, j | 0 <= i < j < |records| :: records[i].key != records[j].key
  }

  predicate Recording(records: seq<SlotRecord>, key: Key) {
    exists record <- records :: record.key == key
  }

  lemma {:induction false} FoldSkips(start: Store, state: State, records: seq<SlotRecord>, mass: bool, key: Key)
    requires !Recording(records, key)
    ensures var after := Fold(start, state, records, mass);
            && Lookup(after.store, key) == Lookup(state.store, key)
            && Lookup(after.pending, key) == Lookup(state.pending, key)
            && (forall event <- after.events :: event in state.events || event.key != key)
    ensures |state.events| <= |Fold(start, state, records, mass).events|
  {
    if records != [] {
      var rest, current := records[..|records| - 1], records[|records| - 1];
      assert !Recording(rest, key) by {
        assert forall record <- rest :: record in records;
      }
      assert current in records && current.key != key;
      FoldSkips(start, state, rest, mass, key);
      RecordedEventsAreOfTheSlot(Lookup(start, current.key), current,
                                 Lookup(Fold(start, state, rest, mass).pending, current.key), mass);
    }
  }

  lemma RecordedEventsAreOfTheSlot(previous: Option<SlotRecord>, current: SlotRecord, hold: Option<Hold>, mass: bool)
    ensures var r := Record(previous, current, hold, mass);
            r.record.key == current.key && forall event <- r.events :: event.key == current.key
  {
    if previous.Some? {
      TopologyEventExactlyOnChange(previous.value, Prepare(previous, current, hold, mass).record);
    }
  }

  /** The new events of a pass that belong to one slot, as one record produced them. */
  ghost predicate SlotOutcome(state: State, after: State, key: Key, r: Recorded) {
    && Lookup(after.store, key) == Some(r.record)
    && Lookup(after.pending, key) == r.hold
    && (forall event: Event | event.key == key ::
          event in after.events <==> event in state.events || event in r.events)
  }

  lemma {:induction false} FoldRecords(
      start: Store, state: State, records: seq<SlotRecord>, mass: bool, current: SlotRecord)
    requires UniqueSlots(records) && current in records
    ensures var r := Record(Lookup(start, current.key), current, Lookup(state.pending, current.key), mass);
            SlotOutcome(state, Fold(start, state, records, mass), current.key, r)
  {
    var rest, last := records[..|records| - 1], records[|records| - 1];
    var before := Fold(start, state, rest, mass);
    var lastRecorded := Record(Lookup(start, last.key), last, Lookup(before.pending, last.key), mass);
    RecordedEventsAreOfTheSlot(Lookup(start, last.key), last, Lookup(before.pending, last.key), mass);
    if current == last {
      assert !Recording(rest, current.key);
      FoldSkips(start, state, rest, mass, current.key);
      StepsKeepEvents(start, state, rest, mass);
    } else {
      var i :| 0 <= i < |records| && records[i] == current;
      assert rest[i] == current;
      FoldRecords(start, state, rest, mass, current);
    }
  }

  lemma {:induction false} StepsKeepEvents(start: Store, state: State, records: seq<SlotRecord>, mass: bool)
    ensures forall event <- state.events :: event in Fold(start, state, records, mass).events
  {
    if records != [] {
      StepsKeepEvents(start, state, records[..|records| - 1], mass);
    }
  }

  /** The hold a pass starts from: a mass degradation has already dropped it for the degraded slots. */
  function HoldIn(state: State, records: seq<SlotRecord>, key: Key): Option<Hold> {
    if Mass(state.store, records) && key in DegradedKeys(state.store, records) then None
    else Lookup(state.pending, key)
  }

  /** In a pass with unique slots each slot is treated on its own. */
  lemma PassTreatsSlotsIndependently(state: State, records: seq<SlotRecord>, current: SlotRecord)
    requires UniqueSlots(records) && current in records
    ensures var r := Record(Lookup(state.store, current.key), current, HoldIn(state, records, current.key),
                            Mass(state.store, records));
            SlotOutcome(state, Pass(state, records), current.key, r)
  {
    var mass := Mass(state.store, records);
    var pending := if mass then state.pending - DegradedKeys(state.store, records) else state.pending;
    FoldRecords(state.store, state.(pending := pending), records, mass, current);
    assert Lookup(pending, current.key) == HoldIn(state, records, current.key);
  }
}
