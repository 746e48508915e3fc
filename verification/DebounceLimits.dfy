/**
 Where the debounce stops holding: exactly for passes that list a slot twice, and, if a second observation is
 always asked for, exactly for the records that backfill a slot.
 */
module DebounceLimits {
  import opened Wrappers
  import opened SlotRecords
  import opened TopologyDebounce
  import opened DebounceRuns

  function KeysOf(records: seq<SlotRecord>): seq<Key> {
    if records == [] then [] else [records[0].key] + KeysOf(records[1..])
  }

  predicate Distinct(keys: seq<Key>) {
    forall i, j | 0 <= i < j < |keys| :: keys[i] != keys[j]
  }

  /** Whatever the collector has stored and pending, the pass confirms every topology change. */
  ghost predicate Debounces(records: seq<SlotRecord>) {
    forall t: Tracker, key: Key | Inv(t) && key in t.state.store :: Confirmed(t, records, key)
  }

  lemma {:induction false} KeysAt(records: seq<SlotRecord>)
    ensures |KeysOf(records)| == |records| && forall i | 0 <= i < |records| :: KeysOf(records)[i] == records[i].key
  {
    if records != [] {
      KeysAt(records[1..]);
    }
  }

  lemma {:induction false} KeysOfConcat(a: seq<SlotRecord>, b: seq<SlotRecord>)
    ensures KeysOf(a + b) == KeysOf(a) + KeysOf(b)
  {
    if a == [] {
      assert a + b == b;
    } else {
      assert (a + b)[1..] == a[1..] + b;
      KeysOfConcat(a[1..], b);
    }
  }

  lemma {:induction false} FoldConcat(start: Store, state: State, a: seq<SlotRecord>, b: seq<SlotRecord>, mass: bool)
    ensures Fold(start, state, a + b, mass) == Fold(start, Fold(start, state, a, mass), b, mass)
  {
    if b == [] {
      assert a + b == a;
    } else {
      var rest := b[..|b| - 1];
      assert (a + b)[..|a + b| - 1] == a + rest;
      FoldConcat(start, state, a, rest, mass);
    }
  }

  // ---------------------------------------------------------------- a pass that lists a slot twice

  /** A slot in one pool, and the same disk seen in another. */
  function Home(key: Key): SlotRecord {
    SlotRecord(key, true, None, false, None, Some("serial"), None, None, Some("tank"), None, None, None, None, None,
               None, None, [])
  }

  function Moved(key: Key): SlotRecord {
    Home(key).(pool := Some("flash"))
  }

  function HomePass(keys: seq<Key>): seq<SlotRecord> {
    if keys == [] then [] else HomePass(keys[..|keys| - 1]) + [Home(keys[|keys| - 1])]
  }

  /** The slot is seen at home among `before`, then moved, then, after `between`, moved again. */
  function RepeatedPass(before: seq<Key>, key: Key, between: seq<Key>, rest: seq<Key>): seq<SlotRecord> {
    HomePass(before) + MovedFirst(key, HomePass(between) + MovedFirst(key, HomePass(rest)))
  }

  function MovedFirst(key: Key, rest: seq<SlotRecord>): seq<SlotRecord> {
    [Moved(key)] + rest
  }

  function Repeating(before: seq<Key>, key: Key, between: seq<Key>, rest: seq<Key>): seq<Key> {
    before + ([key] + (between + ([key] + rest)))
  }

  lemma {:induction false} HomePassKeys(keys: seq<Key>)
    ensures KeysOf(HomePass(keys)) == keys
    ensures forall record <- HomePass(keys) :: record.key in keys && record == Home(record.key)
  {
    if keys != [] {
      var rest, last := keys[..|keys| - 1], keys[|keys| - 1];
      HomePassKeys(rest);
      KeysOfConcat(HomePass(rest), [Home(last)]);
      assert keys == rest + [last] && KeysOf([Home(last)]) == [last];
    }
  }

  lemma RepeatedPassKeys(before: seq<Key>, key: Key, between: seq<Key>, rest: seq<Key>)
    ensures KeysOf(RepeatedPass(before, key, between, rest)) == Repeating(before, key, between, rest)
  {
    HomePassKeys(before);
    HomePassKeys(between);
    HomePassKeys(rest);
    var second := MovedFirst(key, HomePass(rest));
    MovedFirstKeys(key, HomePass(rest));
    KeysOfConcat(HomePass(between), second);
    MovedFirstKeys(key, HomePass(between) + second);
    KeysOfConcat(HomePass(before), MovedFirst(key, HomePass(between) + second));
  }

  lemma MovedFirstKeys(key: Key, rest: seq<SlotRecord>)
    ensures KeysOf(MovedFirst(key, rest)) == [key] + KeysOf(rest)
  {
    KeysOfConcat([Moved(key)], rest);
    assert KeysOf([Moved(key)]) == [key];
  }

  /** The last two occurrences of some repeated key. */
  lemma LastTwo(keys: seq<Key>) returns (before: seq<Key>, key: Key, between: seq<Key>, rest: seq<Key>)
    requires !Distinct(keys)
    ensures keys == Repeating(before, key, between, rest) && key !in between && key !in rest
  {
    var i, j :| 0 <= i < j < |keys| && keys[i] == keys[j];
    key := keys[j];
    var b := LastOf(keys, key);
    assert keys[..b][i] == key;
    var a := LastOf(keys[..b], key);
    before, between, rest := keys[..a], keys[a + 1..b], keys[b + 1..];
    assert keys[..b][a + 1..] == between;
    SplitAt(keys, b);
    SplitAt(keys[..b], a);
    assert keys[..b][..a] == before;
    Rearranged(before, [key], between, [key] + rest);
  }

  lemma SplitAt(keys: seq<Key>, i: nat)
    requires i < |keys|
    ensures keys == keys[..i] + ([keys[i]] + keys[i + 1..])
  {
  }

  lemma Rearranged(a: seq<Key>, b: seq<Key>, c: seq<Key>, d: seq<Key>)
    ensures (a + (b + c)) + d == a + (b + (c + d))
  {
  }

  lemma {:induction false} LastOf(keys: seq<Key>, key: Key) returns (i: nat)
    requires key in keys
    ensures i < |keys| && keys[i] == key && key !in keys[i + 1..]
    ensures forall k | 0 <= k < |keys| && keys[k] == key :: k <= i
  {
    var n := |keys| - 1;
    if keys[n] == key {
      i := n;
    } else {
      assert keys == keys[..n] + [keys[n]];
      i := LastOf(keys[..n], key);
      assert keys[i + 1..] == keys[..n][i + 1..] + [keys[n]];
    }
  }

  /** Seeing a stored slot at home keeps nothing pending for it. */
  lemma {:induction false} HomeKeepsNothingPending(start: Store, state: State, keys: seq<Key>, key: Key)
    requires Lookup(start, key) == Some(Home(key)) && Lookup(state.pending, key).None?
    ensures Lookup(Fold(start, state, HomePass(keys), false).pending, key).None?
  {
    if keys != [] {
      var rest, last := keys[..|keys| - 1], keys[|keys| - 1];
      HomeKeepsNothingPending(start, state, rest, key);
      assert HomePass(keys)[..|HomePass(rest)|] == HomePass(rest);
      if last == key {
        RecordHome(key);
      }
    }
  }

  lemma RecordHome(key: Key)
    ensures Record(Some(Home(key)), Home(key), None, false).hold.None?
  {
  }

  lemma RecordMoved(key: Key)
    ensures Record(Some(Home(key)), Moved(key), None, false).hold == Some(Hold(SignatureOf(Moved(key)), 1))
    ensures Record(Some(Home(key)), Moved(key), Some(Hold(SignatureOf(Moved(key)), 1)), false).record == Moved(key)
  {
  }

  /** In a pass without degradations nothing is dropped beforehand. */
  lemma {:induction false} NoneDegraded(store: Store, records: seq<SlotRecord>)
    requires forall record <- records :: !Degrades(store, record)
    ensures DegradedCount(store, records) == 0
  {
    if records != [] {
      var rest := records[..|records| - 1];
      assert records[|records| - 1] in records && forall record <- rest :: record in records;
      NoneDegraded(store, rest);
    }
  }

  /** A second sighting within the pass confirms the first, and nothing later in it concerns the slot. */
  lemma SecondSightingConfirms(start: Store, state: State, y: seq<SlotRecord>, z: seq<SlotRecord>, key: Key)
    requires Lookup(start, key) == Some(Home(key)) && Lookup(state.pending, key).None?
    requires !Recording(y, key) && !Recording(z, key)
    ensures var sighted := MovedFirst(key, y + MovedFirst(key, z));
            Lookup(Fold(start, state, sighted, false).store, key) == Some(Moved(key))
  {
    RecordMoved(key);
    var one := [Moved(key)];
    FoldConcat(start, state, one, y + MovedFirst(key, z), false);
    var first := Fold(start, state, one, false);
    FoldOne(start, state, Moved(key));
    FoldConcat(start, first, y, MovedFirst(key, z), false);
    FoldSkips(start, first, y, false, key);
    var between := Fold(start, first, y, false);
    FoldConcat(start, between, one, z, false);
    FoldOne(start, between, Moved(key));
    FoldSkips(start, Fold(start, between, one, false), z, false, key);
  }

  lemma FoldOne(start: Store, state: State, record: SlotRecord)
    ensures var r := Record(Lookup(start, record.key), record, Lookup(state.pending, record.key), false);
            var after := Fold(start, state, [record], false);
            Lookup(after.store, record.key) == Some(r.record) && Lookup(after.pending, record.key) == r.hold
  {
    assert [record][..0] == [];
    assert Fold(start, state, [], false) == state;
  }

  /** A pass that lists a slot twice stores a topology no earlier pass observed. */
  lemma RepeatedPassConfirmsItself(before: seq<Key>, key: Key, between: seq<Key>, rest: seq<Key>)
    requires key !in between && key !in rest
    ensures !Confirmed(Started(map[key := Home(key)]), RepeatedPass(before, key, between, rest), key)
  {
    var store := map[key := Home(key)];
    var records, t := RepeatedPass(before, key, between, rest), Started(store);
    RepeatedRecords(before, key, between, rest);
    NoneDegraded(store, records);
    assert Pass(t.state, records) == Fold(store, t.state, records, false);
    RepeatedFold(store, t.state, before, key, between, rest);
    assert Lookup(Pass(t.state, records).store, key) == Some(Moved(key));
    NothingEntitles(t, records, key);
  }

  /** The same disk, never seen before and not backfilled. */
  lemma NothingEntitles(t: Tracker, records: seq<SlotRecord>, key: Key)
    requires Lookup(t.state.store, key) == Some(Home(key)) && Lookup(t.seen, key).None?
    requires forall record <- records :: record == Home(record.key) || record == Moved(record.key)
    ensures !Entitled(t, records, key, SignatureOf(Moved(key)))
  {
    assert StableIdentity(Home(key), Moved(key)) && !Backfills(Some(Home(key)), Moved(key));
  }

  lemma RepeatedFold(store: Store, state: State, before: seq<Key>, key: Key, between: seq<Key>, rest: seq<Key>)
    requires Lookup(store, key) == Some(Home(key)) && Lookup(state.pending, key).None?
    requires key !in between && key !in rest
    ensures Lookup(Fold(store, state, RepeatedPass(before, key, between, rest), false).store, key) == Some(Moved(key))
  {
    HomePassKeys(between);
    HomePassKeys(rest);
    var repeated := HomePass(between) + MovedFirst(key, HomePass(rest));
    FoldConcat(store, state, HomePass(before), MovedFirst(key, repeated), false);
    HomeKeepsNothingPending(store, state, before, key);
    SecondSightingConfirms(store, Fold(store, state, HomePass(before), false), HomePass(between), HomePass(rest), key);
  }

  /** Every record of the pass shows the stored disk, and none of them less topology detail. */
  lemma RepeatedRecords(before: seq<Key>, key: Key, between: seq<Key>, rest: seq<Key>)
    ensures forall record <- RepeatedPass(before, key, between, rest) ::
              (record == Home(record.key) || record == Moved(record.key)) && !Degrades(map[key := Home(key)], record)
  {
    HomePassKeys(before);
    HomePassKeys(between);
    HomePassKeys(rest);
  }

  /**
   The exact condition on a pass: whatever the collector has stored and pending, and whatever the records say, a
   pass over these slots changes a stored topology only with confirmation if and only if no slot is listed twice.
   */
  lemma DebouncesExactlyUniqueSlots(keys: seq<Key>)
    ensures (forall records | KeysOf(records) == keys :: Debounces(records)) <==> Distinct(keys)
  {
    if Distinct(keys) {
      forall records, t: Tracker, key: Key | KeysOf(records) == keys && Inv(t) && key in t.state.store
        ensures Confirmed(t, records, key)
      {
        KeysAt(records);
        PassNeedsConfirmation(t, records, key);
      }
    } else {
      var before, key, between, rest := LastTwo(keys);
      RepeatedPassKeys(before, key, between, rest);
      RepeatedPassConfirmsItself(before, key, between, rest);
      assert Inv(Started(map[key := Home(key)]));
      assert !Debounces(RepeatedPass(before, key, between, rest));
    }
  }

  // ---------------------------------------------------------------- a record that backfills a slot

  /** The stored topology changed only with a new disk or after the latest comparing pass had seen it too. */
  ghost predicate SeenTwice(before: Tracker, records: seq<SlotRecord>, current: SlotRecord)
    requires current.key in before.state.store
  {
    var previous, after := before.state.store[current.key], Pass(before.state, records).store;
    && current.key in after
    && (SignatureOf(after[current.key]) != SignatureOf(previous) ==>
          !StableIdentity(previous, current) || Lookup(before.seen, current.key) == Some(SignatureOf(current)))
  }

  /** A backfill is stored as it is, at once, without an event and without touching what is pending. */
  lemma BackfillIsStoredAtOnce(state: State, records: seq<SlotRecord>, current: SlotRecord)
    requires UniqueSlots(records) && current in records && state.events == []
    requires Backfills(Lookup(state.store, current.key), current)
    ensures var after := Pass(state, records);
            && Lookup(after.store, current.key) == Some(current)
            && Lookup(after.pending, current.key) == HoldIn(state, records, current.key)
            && forall event <- after.events :: event.key != current.key
  {
    PassTreatsSlotsIndependently(state, records, current);
  }

  /**
   The exact condition on a record: without an allowance for backfills the debounce holds for a stored slot,
   whatever else the collector has seen, if and only if the record is not a backfill that brings a new topology.
   */
  lemma SeenTwiceExactlyWithoutBackfill(records: seq<SlotRecord>, stored: SlotRecord, current: SlotRecord)
    requires UniqueSlots(records) && current in records && stored.key == current.key
    ensures (forall t: Tracker | Inv(t) && Lookup(t.state.store, stored.key) == Some(stored) ::
               SeenTwice(t, records, current))
       <==> !(Backfills(Some(stored), current) && StableIdentity(stored, current) && TopologyChanged(stored, current))
  {
    if Backfills(Some(stored), current) && StableIdentity(stored, current) && TopologyChanged(stored, current) {
      var t := Started(map[stored.key := stored]);
      BackfillIsStoredAtOnce(t.state, records, current);
      assert Inv(t) && Lookup(t.state.store, stored.key) == Some(stored);
      assert !SeenTwice(t, records, current);
    } else {
      forall t: Tracker | Inv(t) && Lookup(t.state.store, stored.key) == Some(stored)
        ensures SeenTwice(t, records, current)
      {
        PassTreatsSlotsIndependently(t.state, records, current);
        assert Lookup(Pass(t.state, records).store, current.key).Some?;
      }
    }
  }
}
