/**
 The process-wide cache of export sources: an ordered dictionary with the least recently used entry first, shared
 by requests of different settings generations.
 */
module ExportCache {
  import opened Wrappers

  /** The identity of a settings generation. */
  type Generation = nat

  datatype Entry = Entry(generation: Generation, storedAt: int, source: string)

  datatype Limits = Limits(ttlSeconds: int, maxEntries: int)

  /** What happened to the cache, oldest first. */
  datatype Event =
    | Stored(key: string, entry: Entry)
    | Hit(key: string)
    | Popped(key: string)
    | Evicted(key: string)
    | Cleared

  type Log = seq<Event>

  type Items = seq<(string, Entry)>

  function Find(items: Items, key: string): (found: Option<nat>)
    ensures found.Some? ==> found.value < |items| && items[found.value].0 == key
    ensures found.None? ==> forall i | 0 <= i < |items| :: items[i].0 != key
  {
    if items == [] then None
    else if items[|items| - 1].0 == key then Some(|items| - 1)
    else Find(items[..|items| - 1], key)
  }

  /** When a key was last stored or hit. */
  function LastUse(log: Log, key: string): (use: Option<nat>)
    ensures use.Some? ==> use.value < |log|
  {
    if log == [] then None
    else
      var last := log[|log| - 1];
      if (last.Stored? || last.Hit?) && last.key == key then Some(|log| - 1) else LastUse(log[..|log| - 1], key)
  }

  /** The simple map the cache refines: the last entry stored under a key since the last clear. */
  function LastStored(log: Log, key: string): Option<Entry> {
    if log == [] then None
    else
      var last := log[|log| - 1];
      if last.Cleared? then None
      else if last.Stored? && last.key == key then Some(last.entry)
      else LastStored(log[..|log| - 1], key)
  }

  /** The keys are distinct, ordered by their last use, and hold what was last stored under them. */
  ghost predicate Refines(items: Items, log: Log) {
    && (forall i | 0 <= i < |items| ::
          LastStored(log, items[i].0) == Some(items[i].1) && LastUse(log, items[i].0).Some?)
    && (forall i, j | 0 <= i < j < |items| ::
          items[i].0 != items[j].0 && LastUse(log, items[i].0).value < LastUse(log, items[j].0).value)
  }

  lemma Snoc(log: Log, event: Event)
    ensures (log + [event])[..|log|] == log
  {
  }

  /** Removing an entry, whatever the reason, keeps the rest. */
  lemma RemovalRefines(items: Items, log: Log, i: nat, event: Event)
    requires Refines(items, log) && i < |items| && (event.Popped? || event.Evicted?)
    ensures Refines(items[..i] + items[i + 1..], log + [event])
  {
    Snoc(log, event);
    var rest := items[..i] + items[i + 1..];
    assert forall k | 0 <= k < |rest| :: rest[k] == items[if k < i then k else k + 1];
  }

  /** Moving an entry to the end records its use. */
  lemma HitRefines(items: Items, log: Log, i: nat)
    requires Refines(items, log) && i < |items|
    ensures Refines(items[..i] + items[i + 1..] + [items[i]], log + [Hit(items[i].0)])
  {
    Snoc(log, Hit(items[i].0));
    var moved := items[..i] + items[i + 1..] + [items[i]];
    assert forall k | 0 <= k < |items| - 1 :: moved[k] == items[if k < i then k else k + 1];
  }

  /** Storing under a key replaces its entry and puts it at the end. */
  lemma StoreRefines(items: Items, log: Log, key: string, entry: Entry)
    requires Refines(items, log)
    ensures Refines(Without(items, key) + [(key, entry)], log + [Stored(key, entry)])
  {
    Snoc(log, Stored(key, entry));
    var rest := Without(items, key);
    var found := Find(items, key);
    if found.Some? {
      assert forall k | 0 <= k < |rest| :: rest[k] == items[if k < found.value then k else k + 1];
    }
    assert forall k | 0 <= k < |rest| :: rest[k].0 != key;
  }

  function Without(items: Items, key: string): Items {
    var found := Find(items, key);
    if found.Some? then items[..found.value] + items[found.value + 1..] else items
  }

  /** Up to the limit of all entries are kept, and every one left out was last used before each of them. */
  ghost predicate MostRecent(all: Items, kept: Items, log: Log, limit: nat) {
    && |kept| == (if |all| < limit then |all| else limit)
    && var left := |all| - |kept|;
       && kept == all[left..]
       && (forall i | 0 <= i < |all| :: LastUse(log, all[i].0).Some?)
       && (forall i, j | 0 <= i < left <= j < |all| :: LastUse(log, all[i].0).value < LastUse(log, all[j].0).value)
  }

  ghost predicate SameUses(before: Log, after: Log) {
    forall key :: LastUse(after, key) == LastUse(before, key) && LastStored(after, key) == LastStored(before, key)
  }

  /** The later log only adds evictions. */
  ghost predicate OnlyEvicts(before: Log, after: Log) {
    before <= after && forall i | |before| <= i < |after| :: after[i].Evicted?
  }

  lemma {:induction false} EvictionsKeepUses(before: Log, after: Log)
    requires OnlyEvicts(before, after)
    ensures SameUses(before, after)
    decreases |after|
  {
    if before != after {
      EvictionsKeepUses(before, after[..|after| - 1]);
    }
  }

  lemma KeptAreMostRecent(all: Items, before: Log, kept: Items, after: Log, limit: nat)
    requires Refines(all, before) && OnlyEvicts(before, after)
    requires |kept| <= |all| && kept == all[|all| - |kept|..] && |kept| == (if |all| < limit then |all| else limit)
    ensures MostRecent(all, kept, after, limit)
  {
    EvictionsKeepUses(before, after);
  }

  /** The request may use the cache, and there is an entry under the key. */
  predicate Reaches(items: Items, key: string, limits: Limits, generation: Generation, current: Generation) {
    limits.ttlSeconds > 0 && generation == current && Find(items, key).Some?
  }

  function Entered(items: Items, key: string): Entry
    requires Find(items, key).Some?
  {
    items[Find(items, key).value].1
  }

  predicate Usable(entry: Entry, limits: Limits, generation: Generation, now: int) {
    entry.generation == generation && now - entry.storedAt <= limits.ttlSeconds
  }

  class SnapshotExportSourceCache {
    var items: Items
    ghost var log: Log

    ghost predicate Valid()
      reads this
    {
      Refines(items, log)
    }

    constructor ()
      ensures Valid() && items == []
    {
      items, log := [], [];
    }

    /** The follow-up of an applied reload. */
    method Clear()
      modifies this
      ensures Valid() && items == [] && log == old(log) + [Cleared]
    {
      items, log := [], log + [Cleared];
    }

    method Pop(i: nat)
      requires Valid() && i < |items|
      modifies this
      ensures Valid() && items == old(items[..i] + items[i + 1..]) && log == old(log) + [Popped(old(items)[i].0)]
    {
      RemovalRefines(items, log, i, Popped(items[i].0));
      log := log + [Popped(items[i].0)];
      items := items[..i] + items[i + 1..];
    }

    /**
     `_get_snapshot_export_source_cache_entry`. A hit is what was last stored under the key, by the same and still
     current generation, within the time to live; only an entry the current generation cannot use is removed.
     */
    method Get(key: string, limits: Limits, generation: Generation, current: Generation, now: int)
      returns (hit: Option<Entry>)
      requires Valid()
      modifies this
      ensures Valid()
      ensures hit.Some? <==> Reaches(old(items), key, limits, generation, current)
                             && Usable(Entered(old(items), key), limits, generation, now)
      ensures hit.Some? ==>
                && hit == LastStored(old(log), key) && generation == current
                && Usable(hit.value, limits, generation, now)
                && items == Without(old(items), key) + [(key, hit.value)] && log == old(log) + [Hit(key)]
      ensures hit.None? && Reaches(old(items), key, limits, generation, current) ==>
                items == Without(old(items), key) && log == old(log) + [Popped(key)]
      ensures !Reaches(old(items), key, limits, generation, current) ==> items == old(items) && log == old(log)
    {
      if limits.ttlSeconds <= 0 { return None; }
      if current != generation { return None; }
      var found := Find(items, key);
      if found.None? { return None; }
      var i := found.value;
      var entry := items[i].1;
      if entry.generation != generation {
        Pop(i);
        return None;
      }
      if now - entry.storedAt > limits.ttlSeconds {
        Pop(i);
        return None;
      }
      HitRefines(items, log, i);
      items, log := items[..i] + items[i + 1..] + [items[i]], log + [Hit(key)];
      return Some(entry);
    }

    /**
     `_store_snapshot_export_source_cache_entry`. Afterwards the cache holds the most recently used keys, the new
     one last, up to the limit; a stale generation changes nothing.
     */
    method Store(key: string, source: string, limits: Limits, generation: Generation, current: Generation, now: int)
      requires Valid()
      modifies this
      ensures Valid()
      ensures generation != current || limits.ttlSeconds <= 0 || limits.maxEntries <= 0 ==>
                items == old(items) && log == old(log)
      ensures generation == current && limits.ttlSeconds > 0 && limits.maxEntries > 0 ==>
                && OnlyEvicts(old(log) + [Stored(key, Entry(generation, now, source))], log)
                && MostRecent(Without(old(items), key) + [(key, Entry(generation, now, source))], items, log,
                              limits.maxEntries)
                && LastStored(log, key) == Some(Entry(generation, now, source))
                && LastUse(log, key) == Some(|old(log)|)
    {
      if limits.ttlSeconds <= 0 || limits.maxEntries <= 0 { return; }
      if current != generation { return; }
      var entry := Entry(generation, now, source);
      StoreRefines(items, log, key, entry);
      Snoc(log, Stored(key, entry));
      items, log := Without(items, key) + [(key, entry)], log + [Stored(key, entry)];
      ghost var stored := log;
      EvictDownTo(limits.maxEntries);
      EvictionsKeepUses(stored, log);
    }

    /** `popitem(last=False)`. */
    method EvictOldest()
      requires Valid() && items != []
      modifies this
      ensures Valid() && items == old(items)[1..] && log == old(log) + [Evicted(old(items)[0].0)]
    {
      var key := items[0].0;
      RemovalRefines(items, log, 0, Evicted(key));
      Snoc(log, Evicted(key));
      assert items[..0] + items[1..] == items[1..];
      items, log := items[1..], log + [Evicted(key)];
    }

    method EvictDownTo(limit: nat)
      requires Valid()
      modifies this
      ensures Valid() && MostRecent(old(items), items, log, limit) && OnlyEvicts(old(log), log)
    {
      while |items| > limit
        invariant Valid() && |items| <= |old(items)| && items == old(items)[|old(items)| - |items|..]
        invariant |items| == |old(items)| || |items| >= limit
        invariant OnlyEvicts(old(log), log)
        decreases |items|
      {
        EvictOldest();
      }
      KeptAreMostRecent(old(items), old(log), items, log, limit);
    }
  }
}
