/**
 Admission of inventory scopes into history. A Linux or ESXi scope whose SSH source is not fully healthy is
 recorded only if it confirms every bay the store holds, so degraded scans never erase a disk's identity.
 */
module DegradedScans {
  import opened Wrappers
  import opened SlotRecords
  import opened TopologyDebounce

  datatype Platform = Linux | Esxi | Ipmi | Quantastor | OtherPlatform

  /** One entry of a snapshot's `sources`; `requiredOk` is whether `required_ok` is exactly true. */
  datatype Source = Source(enabled: bool, ok: bool, requiredOk: bool) {
    predicate Failing() { enabled && !ok }
  }

  datatype Scope = Scope(
    system: string,
    enclosure: string,
    platform: Platform,
    api: Option<Source>,
    ssh: Option<Source>,
    bmc: Option<Source>,
    topologyIncomplete: bool,
    records: seq<SlotRecord>)

  datatype SkipReason = ApiUntrusted | SshRequiredFailed | BmcUntrusted | TopologyIncomplete

  predicate Failing(source: Option<Source>) {
    source.Some? && source.value.Failing()
  }

  predicate HostPlatform(platform: Platform) {
    platform == Linux || platform == Esxi
  }

  /** `_scope_skip_reason`: what the snapshot alone says. */
  function ScopeSkipReason(scope: Scope): Option<SkipReason> {
    if Failing(scope.api) then Some(ApiUntrusted)
    else if HostPlatform(scope.platform) && Failing(scope.ssh) && !scope.ssh.value.requiredOk then
      Some(SshRequiredFailed)
    else if scope.platform == Ipmi && Failing(scope.bmc) then Some(BmcUntrusted)
    else if scope.platform == Quantastor && scope.topologyIncomplete then Some(TopologyIncomplete)
    else None
  }

  predicate Degraded(scope: Scope) {
    HostPlatform(scope.platform) && Failing(scope.ssh)
  }

  // ---------------------------------------------------------------- what a degraded scan must confirm

  predicate KeepsText(before: Text, after: Text) {
    Known(before) ==> after == before
  }

  predicate HasDurableId(record: SlotRecord) {
    Known(record.serial) || Known(record.gptid) || Known(record.logicalUnit) || Known(record.identityKey)
  }

  predicate KeepsIdentity(before: SlotRecord, after: SlotRecord) {
    && KeepsText(before.serial, after.serial) && KeepsText(before.model, after.model)
    && KeepsText(before.gptid, after.gptid) && KeepsText(before.logicalUnit, after.logicalUnit)
    && KeepsText(before.identityKey, after.identityKey)
  }

  /** Without a durable id the device name and SAS address must be confirmed too. */
  predicate Confirms(before: SlotRecord, after: SlotRecord) {
    && KeepsIdentity(before, after)
    && (HasDurableId(before) || (KeepsText(before.device, after.device) && KeepsText(before.sas, after.sas)))
  }

  /** The stored bay keeps its presence, and a present bay everything known of its disk. */
  predicate Keeps(before: SlotRecord, after: SlotRecord) {
    after.present == before.present && (before.present ==> KeepsIdentity(before, after))
  }

  function Newest(records: seq<SlotRecord>, slot: int): Option<SlotRecord> {
    if records == [] then None
    else
      var last := records[|records| - 1];
      if last.key.slot == slot then Some(last) else Newest(records[..|records| - 1], slot)
  }

  /** The scan's record for a slot, by slot number alone, does not confirm the stored bay. */
  predicate Contradicts(stored: SlotRecord, scanned: Option<SlotRecord>) {
    if scanned.None? then stored.present
    else stored.present != scanned.value.present || (stored.present && !Confirms(stored, scanned.value))
  }

  predicate InScope(scope: Scope, key: Key) {
    key.system == scope.system && key.enclosure == scope.enclosure
  }

  predicate Contradicted(store: Store, scope: Scope) {
    exists key <- store :: InScope(scope, key) && Contradicts(store[key], Newest(scope.records, key.slot))
  }

  function HistorySkipReason(store: Store, scope: Scope): Option<SkipReason> {
    if ScopeSkipReason(scope).Some? then ScopeSkipReason(scope)
    else if Degraded(scope) && Contradicted(store, scope) then Some(SshRequiredFailed)
    else None
  }

  predicate Skipped(store: Store, scope: Scope) {
    HistorySkipReason(store, scope).Some?
  }

  // ---------------------------------------------------------------- one collection

  /** The scopes of one collection, and after how many of them it stopped. */
  datatype Collection = Collection(scopes: seq<Scope>, recorded: nat)

  function RecordScopes(start: Store, state: State, scopes: seq<Scope>): State {
    if scopes == [] then state
    else
      var before := RecordScopes(start, state, scopes[..|scopes| - 1]);
      var last := scopes[|scopes| - 1];
      if Skipped(start, last) then before else Pass(before, last.records)
  }

  function ForgetSkipped(store: Store, pending: Pending, scopes: seq<Scope>): Pending {
    map key <- pending | !exists scope <- scopes :: Skipped(store, scope) && InScope(scope, key) :: pending[key]
  }

  /** Eligibility is decided for every scope against the store as the collection found it. */
  function Collect(state: State, collection: Collection): State {
    var scopes := collection.scopes;
    var forgotten := state.(pending := ForgetSkipped(state.store, state.pending, scopes));
    if forall scope <- scopes :: Skipped(state.store, scope) then forgotten
    else RecordScopes(state.store, forgotten, scopes[..Stop(collection)])
  }

  function Stop(collection: Collection): (n: nat)
    ensures n <= |collection.scopes|
  {
    if collection.recorded < |collection.scopes| then collection.recorded else |collection.scopes|
  }

  /** The scanned records by slot number; a later record of a slot replaces an earlier one. */
  method RecordsBySlot(records: seq<SlotRecord>) returns (current: map<int, SlotRecord>)
    ensures forall slot :: (if slot in current then Some(current[slot]) else None) == Newest(records, slot)
  {
    current := map[];
    for i := 0 to |records|
      invariant forall slot :: (if slot in current then Some(current[slot]) else None) == Newest(records[..i], slot)
    {
      assert records[..i + 1][..i] == records[..i];
      current := current[records[i].key.slot := records[i]];
    }
    assert records[..|records|] == records;
  }

  /** The comparison of one stored bay with the scanned records. */
  method Refutes(stored: SlotRecord, slot: int, current: map<int, SlotRecord>) returns (refuted: bool)
    ensures refuted == Contradicts(stored, if slot in current then Some(current[slot]) else None)
  {
    if slot !in current { return stored.present; }
    var scanned := current[slot];
    if stored.present != scanned.present { return true; }
    if !stored.present { return false; }
    return !Confirms(stored, scanned);
  }

  lemma SomeSlot(slots: set<int>)
    ensures slots == {} || exists slot :: slot in slots
  {
    if forall slot :: slot !in slots {
      assert slots == {};
    }
  }

  /** The loop over the stored bays of a scope. */
  method FindContradiction(previous: map<int, SlotRecord>, current: map<int, SlotRecord>) returns (found: bool)
    ensures found <==> exists slot <- previous ::
                         Contradicts(previous[slot], if slot in current then Some(current[slot]) else None)
  {
    var left := previous.Keys;
    while left != {}
      invariant left <= previous.Keys
      invariant forall slot <- previous.Keys - left ::
                  !Contradicts(previous[slot], if slot in current then Some(current[slot]) else None)
    {
      SomeSlot(left);
      var slot :| slot in left;
      found := Refutes(previous[slot], slot, current);
      if found { return; }
      left := left - {slot};
    }
    found := false;
  }

  /** `_scope_history_skip_reason`. */
  method FindSkipReason(store: Store, scope: Scope) returns (reason: Option<SkipReason>)
    ensures reason == HistorySkipReason(store, scope)
  {
    reason := ScopeSkipReason(scope);
    if reason.Some? || !Degraded(scope) { return; }
    var previous := StoredBays(store, scope);
    var current := RecordsBySlot(scope.records);
    var found := FindContradiction(previous, current);
    ContradictionBySlot(store, scope);
    if found { return Some(SshRequiredFailed); }
  }

  /** `get_slot_states`: the bays stored for a scope, by slot number. */
  function StoredBays(store: Store, scope: Scope): map<int, SlotRecord> {
    map key <- store | InScope(scope, key) :: key.slot := store[key]
  }

  lemma ContradictionBySlot(store: Store, scope: Scope)
    ensures Contradicted(store, scope) <==>
              exists slot <- StoredBays(store, scope) ::
                Contradicts(StoredBays(store, scope)[slot], Newest(scope.records, slot))
  {
    var previous := StoredBays(store, scope);
    forall key | key in store && InScope(scope, key)
      ensures key.slot in previous && previous[key.slot] == store[key]
    {
    }
    forall slot | slot in previous
      ensures Key(scope.system, scope.enclosure, slot) in store
      ensures previous[slot] == store[Key(scope.system, scope.enclosure, slot)]
    {
    }
  }

  class HistoryCollector {
    const slots: SlotCollector

    constructor ()
      ensures fresh(slots) && slots.Now() == State(map[], map[], [])
    {
      slots := new SlotCollector();
    }

    /** The recording part of one collection; `stopAfter` scopes are reached before the service stops. */
    method RecordCollection(scopes: seq<Scope>, stopAfter: nat)
      modifies slots
      ensures slots.Now() == Collect(old(slots.Now()), Collection(scopes, stopAfter))
    {
      ghost var start := slots.Now();
      var skipped: seq<bool>, untrusted := [], 0;
      for i := 0 to |scopes|
        invariant slots.Now() == start && |skipped| == i
        invariant forall k | 0 <= k < i :: skipped[k] == Skipped(start.store, scopes[k])
        invariant untrusted <= i && (untrusted == i <==> forall k | 0 <= k < i :: skipped[k])
      {
        var reason := FindSkipReason(slots.store, scopes[i]);
        skipped := skipped + [reason.Some?];
        untrusted := untrusted + if reason.Some? then 1 else 0;
      }
      ForgetScopes(scopes, skipped);
      ghost var forgotten := slots.Now();
      if untrusted == |scopes| {
        assert forall scope <- scopes :: Skipped(start.store, scope);
        return;
      }
      assert exists k | 0 <= k < |scopes| :: !Skipped(start.store, scopes[k]);
      var stop := Stop(Collection(scopes, stopAfter));
      for i := 0 to stop
        invariant slots.Now() == RecordScopes(start.store, forgotten, scopes[..i])
      {
        assert scopes[..i + 1][..i] == scopes[..i];
        if !skipped[i] {
          slots.RecordSlotChanges(scopes[i].records);
        }
      }
    }

    /** Drops what is pending for every untrusted scope. */
    method ForgetScopes(scopes: seq<Scope>, skipped: seq<bool>)
      requires |skipped| == |scopes|
      requires forall k | 0 <= k < |scopes| :: skipped[k] == Skipped(slots.store, scopes[k])
      modifies slots`pending
      ensures slots.pending == ForgetSkipped(slots.store, old(slots.pending), scopes)
    {
      for i := 0 to |scopes|
        invariant slots.pending == ForgetSkipped(slots.store, old(slots.pending), scopes[..i])
      {
        assert scopes[..i + 1] == scopes[..i] + [scopes[i]];
        if skipped[i] {
          slots.pending := map key <- slots.pending | !InScope(scopes[i], key) :: slots.pending[key];
        }
      }
      assert scopes[..|scopes|] == scopes;
    }
  }

  // ---------------------------------------------------------------- degraded scans keep what is known

  /** Every slot of the scope is stored under the scope it was admitted for. */
  predicate WithinScope(scope: Scope) {
    forall record <- scope.records :: InScope(scope, record.key)
  }

  /** After a pass a slot holds the identity and presence of the pass's last record for it. */
  predicate Holds(stored: SlotRecord, record: SlotRecord) {
    stored == record.(pool := stored.pool, vdev := stored.vdev, topologyLabel := stored.topologyLabel)
  }

  function Last(records: seq<SlotRecord>, key: Key): (last: Option<SlotRecord>)
    ensures last.Some? <==> Recording(records, key)
    ensures last.Some? ==> last.value in records && last.value.key == key
  {
    if records == [] then None
    else
      var current, rest := records[|records| - 1], records[..|records| - 1];
      assert records == rest + [current];
      if current.key == key then Some(current) else Last(rest, key)
  }

  lemma RecordHolds(previous: Option<SlotRecord>, current: SlotRecord, hold: Option<Hold>, mass: bool)
    ensures Holds(Record(previous, current, hold, mass).record, current)
  {
  }

  lemma FoldStores(start: Store, state: State, records: seq<SlotRecord>, mass: bool)
    requires records != []
    ensures var before := Fold(start, state, records[..|records| - 1], mass);
            var current := records[|records| - 1];
            var r := Record(Lookup(start, current.key), current, Lookup(before.pending, current.key), mass);
            Fold(start, state, records, mass).store == before.store[current.key := r.record]
  {
  }

  lemma {:induction false} FoldHoldsLast(start: Store, state: State, records: seq<SlotRecord>, mass: bool, key: Key)
    ensures var after := Fold(start, state, records, mass).store;
            match Last(records, key)
            case None => Lookup(after, key) == Lookup(state.store, key)
            case Some(record) => key in after && Holds(after[key], record)
  {
    if records != [] {
      var rest, current := records[..|records| - 1], records[|records| - 1];
      FoldHoldsLast(start, state, rest, mass, key);
      var before := Fold(start, state, rest, mass);
      RecordHolds(Lookup(start, current.key), current, Lookup(before.pending, current.key), mass);
      FoldStores(start, state, records, mass);
    }
  }

  lemma {:induction false} NewestIsLast(scope: Scope, records: seq<SlotRecord>, key: Key)
    requires forall record <- records :: InScope(scope, record.key)
    requires InScope(scope, key)
    ensures Newest(records, key.slot) == Last(records, key)
  {
    if records != [] {
      var rest := records[..|records| - 1];
      assert forall record <- rest :: record in records;
      assert records[|records| - 1] in records;
      NewestIsLast(scope, rest, key);
    }
  }

  /** The scopes that mention a slot are all refused outright, or degraded and recorded under their own scope. */
  predicate OnlyDegraded(scopes: seq<Scope>, key: Key) {
    forall scope <- scopes | Recording(scope.records, key) ::
      ScopeSkipReason(scope).Some? || (Degraded(scope) && WithinScope(scope))
  }

  /** An admitted degraded scope leaves every stored bay with what it had when the collection began. */
  lemma ScopeKeeps(start: Store, state: State, scope: Scope, key: Key)
    requires OnlyDegraded([scope], key) && !Skipped(start, scope)
    requires key in start && key in state.store && Keeps(start[key], state.store[key])
    ensures var after := Pass(state, scope.records).store; key in after && Keeps(start[key], after[key])
  {
    var mass := Mass(state.store, scope.records);
    var pending := if mass then state.pending - DegradedKeys(state.store, scope.records) else state.pending;
    FoldHoldsLast(state.store, state.(pending := pending), scope.records, mass, key);
    if Recording(scope.records, key) {
      assert scope in [scope];
      NewestIsLast(scope, scope.records, key);
      assert !Contradicts(start[key], Newest(scope.records, key.slot));
    } else {
      assert Lookup(Pass(state, scope.records).store, key) == Lookup(state.store, key);
    }
  }

  lemma {:induction false} ScopesKeep(start: Store, state: State, scopes: seq<Scope>, key: Key)
    requires OnlyDegraded(scopes, key) && key in start && state.store == start
    ensures var after := RecordScopes(start, state, scopes).store; key in after && Keeps(start[key], after[key])
  {
    if scopes != [] {
      var rest, last := scopes[..|scopes| - 1], scopes[|scopes| - 1];
      assert forall scope <- rest :: scope in scopes;
      assert last in scopes;
      ScopesKeep(start, state, rest, key);
      if !Skipped(start, last) {
        ScopeKeeps(start, RecordScopes(start, state, rest), last, key);
      }
    }
  }

  lemma CollectionKeeps(state: State, collection: Collection, key: Key)
    requires OnlyDegraded(collection.scopes, key) && key in state.store
    ensures var after := Collect(state, collection).store; key in after && Keeps(state.store[key], after[key])
  {
    var scopes := collection.scopes[..Stop(collection)];
    assert forall scope <- scopes :: scope in collection.scopes;
    var forgotten := state.(pending := ForgetSkipped(state.store, state.pending, collection.scopes));
    ScopesKeep(state.store, forgotten, scopes, key);
  }

  function Collections(state: State, collections: seq<Collection>): State {
    if collections == [] then state
    else Collect(Collections(state, collections[..|collections| - 1]), collections[|collections| - 1])
  }

  /**
   Degraded scans never erase identity: over any run of collections, each stopped anywhere, in which no trusted
   source records a slot, its stored bay keeps its presence and everything known of its disk.
   */
  lemma {:induction false} DegradedRunsKeepIdentity(state: State, collections: seq<Collection>, key: Key)
    requires key in state.store
    requires forall collection <- collections :: OnlyDegraded(collection.scopes, key)
    ensures var after := Collections(state, collections).store; key in after && Keeps(state.store[key], after[key])
  {
    if collections != [] {
      var rest, last := collections[..|collections| - 1], collections[|collections| - 1];
      assert forall collection <- rest :: collection in collections;
      assert last in collections;
      DegradedRunsKeepIdentity(state, rest, key);
      CollectionKeeps(Collections(state, rest), last, key);
    }
  }

  /** Recording the scope keeps every bay of a store that admits it. */
  ghost predicate GuardProtects(scope: Scope, store: Store) {
    !Skipped(store, scope) ==>
      forall key <- store ::
        var after := Pass(State(store, map[], []), scope.records).store;
        key in after && Keeps(store[key], after[key])
  }

  /**
   Exactly when the guard works. It compares the bays stored for the scope, but a slot may name an enclosure of
   its own and is then stored elsewhere, unchecked. So it protects every store if and only if every record stays
   within the scope.
   */
  lemma GuardProtectsExactlyWithinScope(scope: Scope)
    requires Degraded(scope) && ScopeSkipReason(scope).None?
    ensures (forall store :: GuardProtects(scope, store)) <==> WithinScope(scope)
  {
    if WithinScope(scope) {
      forall store: Store, key: Key | !Skipped(store, scope) && key in store
        ensures var after := Pass(State(store, map[], []), scope.records).store;
                key in after && Keeps(store[key], after[key])
      {
        ScopeKeeps(store, State(store, map[], []), scope, key);
      }
    } else {
      var stray :| stray in scope.records && !InScope(scope, stray.key);
      var last := Last(scope.records, stray.key).value;
      var store: Store := map[stray.key := last.(present := !last.present)];
      var mass := Mass(store, scope.records);
      var pending: Pending := if mass then map[] - DegradedKeys(store, scope.records) else map[];
      FoldHoldsLast(store, State(store, pending, []), scope.records, mass, stray.key);
      assert !Skipped(store, scope);
      var after := Pass(State(store, map[], []), scope.records).store;
      assert after == Fold(store, State(store, pending, []), scope.records, mass).store;
      assert stray.key in after && after[stray.key].present == last.present;
      assert stray.key in store && !Keeps(store[stray.key], after[stray.key]);
      assert !GuardProtects(scope, store);
    }
  }
}
