/**
 The migration, rollback and recovery commands, run step by step on the history directory.

 Any step may raise: `raises` says which, by step number. A raising step changes nothing; the commands then
 take the same cleanup paths as the code, whose own steps may raise too. `trace` records every change made
 since its start, so the theorems about legal runs apply to each prefix of it, that is, to a crash at any point.
 */
module MigrationHost {
  import opened Wrappers
  import opened HistorySealing
  import opened MigrationDisk
  import opened MigrationSafety
  import opened MigrationRecovery

  const SEGMENT_FILE: string := "segment-0001.sqlite3"

  /** How a command ends: it only reports, it refuses before any change, it raises, or it completes. */
  datatype CommandResult = DryRun | Refused | Raised | Applied

  datatype RecoveryResult = WouldRecover(next: Recovered) | Recovers(outcome: Recovered) | RecoveryStopped

  function ForwardMarker(
      rollback: Content, phase: Phase, publication: Option<Entry>, replacement: Option<Content>): Marker {
    Marker(Forward, phase, rollback, rollback, publication, replacement, None)
  }

  function RollbackMarker(rollback: Content, source: Content): Marker {
    Marker(Rollback, Prepared, rollback, source, None, None, None)
  }

  function CleanupMarker(rollback: Content, inventory: Catalog): Marker {
    Marker(Rollback, RollbackCleanup, rollback, rollback, None, None, Some(inventory))
  }

  /** Every timestamp is readable and some row lies before the cutoff, so a seal can succeed. */
  ghost predicate Sealable(julian: Julian, db: Database, cutoff: Timestamp) {
    && (forall stamp <- AllStamps(db) :: Readable(julian, stamp))
    && AllStamps(SegmentOf(julian, db, cutoff)) != []
  }

  /** The disk of a completed migration: pruned hot source, one catalogued segment, no marker. */
  ghost function SwitchedDisk(d: Disk, julian: Julian, cutoff: Timestamp, segmentLayout: nat, hotLayout: nat): Disk
    requires d.source.Image?
  {
    var publication := Entry(SEGMENT_FILE, Image(SegmentOf(julian, d.source.db, cutoff), segmentLayout));
    d.(source := Image(HotOf(julian, d.source.db, cutoff), hotLayout),
       marker := None,
       catalog := Some(Catalog([publication], d.source)),
       segments := d.segments[SEGMENT_FILE := publication.digest])
  }

  /** What a resumed or first cleanup checks before it deletes anything. */
  predicate Finishable(d: Disk) {
    && d.marker.Some? && d.marker.value.cleanup.Some? && DistinctNames(d.marker.value.cleanup.value.entries)
    && d.marker.value.source == d.marker.value.rollback == d.source
    && CleanDirectory(d, d.marker.value.cleanup.value)
  }

  /** A snapshot left by a crash before the marker, or after the marker was cleared, that the source still equals. */
  predicate OrphanSnapshot(d: Disk) {
    d.marker.None? && d.sealing.None? && d.catalog.None? && d.snapshot == Some(d.source)
  }

  /** The recorded segment, if its file exists, has the recorded bytes. */
  predicate Genuine(d: Disk, publication: Option<Entry>) {
    publication.Some? && publication.value.name in d.segments ==>
      d.segments[publication.value.name] == publication.value.digest
  }

  /** No segment file other than the recorded one. */
  predicate OnlyRecorded(d: Disk, publication: Option<Entry>) {
    forall name <- d.segments :: publication.Some? && publication.value.name == name
  }

  /** The shape and snapshot checks recovery makes on the marker it read. */
  predicate MarkerValid(d: Disk) {
    && d.marker.Some?
    && (d.marker.value.operation == Rollback ==> d.marker.value.phase in {Prepared, RollbackCleanup})
    && (d.marker.value.operation == Forward ==> d.marker.value.phase != RollbackCleanup)
    && (d.marker.value.phase == HotReady ==> d.marker.value.replacement.Some?)
    && d.snapshot == Some(d.marker.value.rollback)
  }

  /** A seal temporary that is not a link to the recorded segment. */
  predicate StrayTemporary(d: Disk)
    requires d.marker.Some?
  {
    var publication := d.marker.value.publication;
    d.sealing.Some? && (publication.None? || d.sealing.value.link != Some(publication.value.name))
  }

  /** The source digests recovery without a catalog accepts. */
  predicate AllowedSource(d: Disk)
    requires d.marker.Some?
  {
    var m := d.marker.value;
    if m.operation == Forward then d.source == m.source || (m.phase == HotReady && m.replacement == Some(d.source))
    else d.source == m.rollback
  }

  /** With a catalog published, the source is one of the two the pending operation can have left. */
  predicate SettledSource(d: Disk)
    requires d.marker.Some? && d.catalog.Some?
  {
    var m := d.marker.value;
    && d.catalog.value.rollback == m.rollback
    && if m.operation == Rollback then d.source == m.source || d.source == m.rollback
       else m.phase == HotReady && m.replacement == Some(d.source)
  }

  /** The files agree with the marker the way every interrupted run leaves them. */
  predicate Consistent(d: Disk) {
    && MarkerValid(d)
    && if d.marker.value.phase == RollbackCleanup then Finishable(d)
       else if d.catalog.Some? then CatalogLoads(d) && SettledSource(d)
       else OnlyRecorded(d, d.marker.value.publication) && Genuine(d, d.marker.value.publication) && AllowedSource(d)
  }

  /** A restored rollback whose catalog is still published, with files the catalog does not account for. */
  predicate Unsettleable(d: Disk)
    requires d.marker.Some?
  {
    Destiny(d) == RollbackFinalized && d.catalog.Some? && !CleanDirectory(d, d.catalog.value)
  }

  /** What a dry run checks on files that agree with the marker. */
  predicate Reported(d: Disk)
    requires d.marker.Some?
  {
    d.marker.value.phase == RollbackCleanup || !StrayTemporary(d)
  }

  predicate Recoverable(d: Disk)
    requires d.marker.Some?
  {
    d.marker.value.phase == RollbackCleanup || (!StrayTemporary(d) && !Unsettleable(d))
  }

  /** What each outcome leaves, by fields. */
  ghost predicate Settled(d: Disk, pending: Disk)
    requires pending.marker.Some?
  {
    match Destiny(pending)
    case RolledBackToV1 =>
      && d.marker.None? && d.catalog.None? && d.segments == map[]
      && d.source == pending.marker.value.rollback && d.snapshot == pending.snapshot
    case CatalogFinalized => d == pending.(marker := None)
    case RollbackCancelled => d == pending.(marker := None)
    case RollbackFinalized =>
      && d.marker.None? && d.catalog.None? && d.segments == map[]
      && d.source == pending.marker.value.rollback && d.snapshot == pending.snapshot
    case SnapshotRemoved => false
  }

  /** The switch in its order: the record, the source, the catalog, and the marker last. */
  predicate SwitchedInOrder(before: Disk, d: Disk, ready: Marker, staged: Content, catalog: Catalog) {
    && (d.marker == before.marker || d.marker == Some(ready) || d.marker.None?)
    && (d.source == before.source || d.source == staged)
    && (d.marker == before.marker ==> d.source == before.source && d.catalog == before.catalog)
    && (d.catalog != before.catalog ==> d.source == staged && d.catalog == Some(catalog))
    && (d.marker.None? ==> d.catalog == Some(catalog))
  }

  /** Some of the files, with their contents. */
  predicate SubFiles(files: map<string, Content>, all: map<string, Content>) {
    forall name <- files :: name in all && files[name] == all[name]
  }

  predicate AmongEntries(files: map<string, Content>, entries: seq<Entry>) {
    forall name <- files :: Entry(name, files[name]) in entries
  }

  lemma FewerEntries(before: map<string, Content>, files: map<string, Content>, entries: seq<Entry>)
    requires entries != [] && AmongEntries(before, entries) && SubFiles(files, before) && entries[0].name !in files
    ensures AmongEntries(files, entries[1..])
  {
    assert entries == [entries[0]] + entries[1..];
  }

  /** The cleanup in its order: the catalog, then segments, and the marker last. */
  predicate CleanedInOrder(before: Disk, d: Disk) {
    && (d.catalog == before.catalog || d.catalog.None?) && (d.marker == before.marker || d.marker.None?)
    && SubFiles(d.segments, before.segments) && (d.segments != before.segments ==> d.catalog.None?)
    && (d.marker.None? ==> d.catalog.None? && d.segments == map[])
  }

  lemma ReachableIsConsistent(d: Disk)
    requires Inv(d) && d.marker.Some?
    ensures Consistent(d) && (Recoverable(d) <==> !Blocked(d))
  {
    if d.catalog.Some? && d.marker.value.phase != RollbackCleanup {
      var entries := d.catalog.value.entries;
      forall entry <- entries
        ensures entry.name in d.segments && d.segments[entry.name] == entry.digest
      {
        assert Entry(entry.name, d.segments[entry.name]) in entries;
      }
    }
  }

  /**
   A dry run announces every recovery that would go through. It announces one that would be refused exactly for a
   restored rollback, not yet authorized to delete, beside a leftover JSON temporary.
   */
  lemma DryRunMissesJsonTemporaries(d: Disk)
    requires Inv(d) && d.marker.Some?
    ensures !Blocked(d) ==> Reported(d)
    ensures Reported(d) && Blocked(d) <==>
              && d.marker.value.operation == Rollback && d.marker.value.phase == Prepared
              && Destiny(d) == RollbackFinalized && d.jsonTemporaries > 0
  {
  }

  lemma SettledIsTerminal(d: Disk, pending: Disk)
    requires pending.marker.Some? && Inv(pending) && Settled(d, pending)
    ensures Terminal(d, Destiny(pending), pending)
  {
  }

  /** SQLite reads every UTC midnight of the calendar. */
  ghost predicate ReadsMidnights(julian: Julian) {
    forall wall: int | InCalendar(wall) && wall % MICROSECONDS_PER_DAY == 0 :: julian(Zoned(wall, 0)).Some?
  }

  /** The command a host runs; a recovery knows from the digests where it is heading. */
  datatype Command = Migrating | RollingBack | Recovering(destiny: Recovered)

  predicate Permits(command: Command, c: Change) {
    match command
    case Migrating => ForwardOnly(c)
    case RollingBack => RollbackOnly(c)
    case Recovering(destiny) => RecoveryKind(c, destiny)
  }

  method PrunedCopy(julian: Julian, db: Database, cutoff: Timestamp, layout: nat) returns (body: Option<Content>)
    ensures body == if Sealable(julian, db, cutoff) then Some(Image(SegmentOf(julian, db, cutoff), layout)) else None
  {
    var sealed := SealCopy(julian, db, cutoff);
    return if sealed.Success? then Some(Image(sealed.value.db, layout)) else None;
  }

  /** The changes a command made since `start`, and where they led. */
  datatype Trace = Trace(command: Command, start: Disk, run: seq<Change>, now: Disk)

  ghost predicate Follows(trace: Trace) {
    && Legal(trace.start, trace.run) && trace.now == After(trace.start, trace.run)
    && forall c <- trace.run :: Permits(trace.command, c)
  }

  type LegalTrace = trace: Trace | Follows(trace)
    ghost witness Trace(Migrating, NO_FILES, [], NO_FILES)

  const NO_FILES: Disk := Disk(Torn, None, None, None, map[], None, 0)

  /** A trace with one more change. */
  ghost function Grown(trace: LegalTrace, c: Change, next: Disk): (r: LegalTrace)
    requires Allowed(trace.now, c) && Permits(trace.command, c) && next == Apply(trace.now, c)
    ensures r == Trace(trace.command, trace.start, trace.run + [c], next)
  {
    LegalAppend(trace.start, trace.run, c);
    Trace(trace.command, trace.start, trace.run + [c], next)
  }

  /** One run of one command on the history directory. */
  class HistoryCommand {
    const command: Command
    const start: Disk
    const raises: nat -> bool
    var disk: Disk
    var clock: nat
    ghost var trace: LegalTrace

    constructor (command: Command, disk: Disk, raises: nat -> bool)
      ensures this.command == command && this.disk == disk && this.start == disk && this.raises == raises
      ensures Valid() && trace.run == []
    {
      this.command, this.start, this.raises := command, disk, raises;
      this.disk, this.clock := disk, 0;
      this.trace := Trace(command, disk, [], disk);
    }

    ghost predicate Valid()
      reads this
    {
      trace.command == command && trace.start == start && trace.now == disk
    }

    /** No step raises from `from` on. */
    ghost predicate Calm(from: nat)
      reads this
    {
      forall step: nat | from <= step :: !raises(step)
    }

    /** No segment temporary is left, unless removing it was the last step and raised. */
    ghost predicate NoSealLeft()
      reads this
    {
      disk.sealing.Some? ==> clock > 0 && raises(clock - 1)
    }

    // -------------------------------------------------------------- single steps

    /** One atomic change, unless this step raises. */
    method Do(c: Change) returns (ok: bool)
      requires Valid() && Allowed(disk, c) && Permits(command, c)
      modifies this
      ensures Valid() && clock == old(clock) + 1
      ensures ok == !raises(old(clock))
      ensures disk == (if ok then Apply(old(disk), c) else old(disk))
      ensures trace.run == old(trace.run) + if ok then [c] else []
    {
      ok := !raises(clock);
      clock := clock + 1;
      if ok {
        disk := Apply(disk, c);
        trace := Grown(trace, c, disk);
      }
    }

    /** A write, fsync, chmod or stat: it may raise and changes nothing the protocol reads. */
    method Sync() returns (ok: bool)
      requires Valid()
      modifies this`clock
      ensures Valid() && clock == old(clock) + 1
      ensures ok == !raises(old(clock))
    {
      ok := !raises(clock);
      clock := clock + 1;
    }

    // -------------------------------------------------------------- snapshot

    /** The exclusive creation of the snapshot file, still empty. */
    method BeginSnapshot() returns (ok: bool)
      requires Valid() && command == Migrating
      requires disk.marker.None? && disk.catalog.None? && disk.snapshot.None?
      modifies this
      ensures Valid() && clock == old(clock) + 1
      ensures old(trace.run) <= trace.run
      ensures ok == !raises(old(clock))
      ensures disk == if ok then old(disk).(snapshot := Some(Torn)) else old(disk)
    {
      ok := Do(SnapshotBegin);
    }

    /** The copy of the source bytes into the file just created. */
    method FillSnapshot() returns (ok: bool)
      requires Valid() && command == Migrating && disk.snapshot == Some(Torn)
      requires disk.marker.None? && disk.catalog.None? && disk.sealing.None?
      modifies this
      ensures Valid() && clock > old(clock)
      ensures old(trace.run) <= trace.run
      ensures disk == old(disk).(snapshot := disk.snapshot)
      ensures disk.snapshot in {Some(Torn), Some(disk.source)}
      ensures ok ==> disk.snapshot == Some(disk.source)
      ensures Calm(old(clock)) ==> ok
    {
      ok := Do(SnapshotFill);
      if ok {
        ok := Sync();
      }
    }

    /** Removing an unpublished snapshot; only a removal that raises leaves it. */
    method DropSnapshot() returns (ok: bool)
      requires Valid() && Allowed(disk, SnapshotDrop) && Permits(command, SnapshotDrop)
      modifies this
      ensures Valid() && clock == old(clock) + 1
      ensures old(trace.run) <= trace.run
      ensures ok == !raises(old(clock))
      ensures disk == if ok then old(disk).(snapshot := None) else old(disk)
    {
      ok := Do(SnapshotDrop);
    }

    /** `_create_rollback_snapshot`. */
    method CreateSnapshot() returns (ok: bool)
      requires Valid() && command == Migrating
      requires disk.marker.None? && disk.catalog.None? && disk.snapshot.None? && disk.sealing.None?
      modifies this
      ensures Valid() && clock > old(clock)
      ensures old(trace.run) <= trace.run
      ensures disk == old(disk).(snapshot := disk.snapshot)
      ensures ok ==> disk.snapshot == Some(old(disk).source)
      ensures !ok ==> disk.snapshot.None? || raises(clock - 1)
      ensures Calm(old(clock)) ==> ok
    {
      ok := BeginSnapshot();
      if !ok { return; }
      ok := FillSnapshot();
      if !ok {
        var dropped := DropSnapshot();
      }
    }

    // -------------------------------------------------------------- JSON publication

    /** Writing a JSON temporary; a failed write drops it again. */
    method WriteTemporary() returns (ok: bool)
      requires Valid() && !RollbackPending(disk, RollbackCleanup)
      modifies this
      ensures Valid() && clock > old(clock)
      ensures old(trace.run) <= trace.run
      ensures disk == old(disk).(jsonTemporaries := disk.jsonTemporaries)
      ensures old(disk).jsonTemporaries <= disk.jsonTemporaries <= old(disk).jsonTemporaries + 1
      ensures ok ==> disk.jsonTemporaries == old(disk).jsonTemporaries + 1
      ensures Calm(old(clock)) ==> ok
    {
      ok := Do(JsonBegin);
      if !ok { return; }
      ok := Sync();
      if !ok {
        var dropped := Do(JsonDrop);
      }
    }

    /** After the link: drop the temporary and sync; a failed drop is tried once more. */
    method DropTemporary(linked: bool) returns (ok: bool)
      requires Valid() && disk.jsonTemporaries > 0
      modifies this
      ensures Valid() && clock > old(clock)
      ensures old(trace.run) <= trace.run
      ensures disk == old(disk).(jsonTemporaries := disk.jsonTemporaries)
      ensures old(disk).jsonTemporaries - 1 <= disk.jsonTemporaries <= old(disk).jsonTemporaries
      ensures ok ==> linked && disk.jsonTemporaries == old(disk).jsonTemporaries - 1
      ensures Calm(old(clock)) && linked ==> ok
    {
      ok := linked;
      if linked {
        ok := Do(JsonDrop);
        if ok {
          ok := Sync();
          return;
        }
      }
      var dropped := Do(JsonDrop);
    }

    /** `_write_private_json_no_replace` for the marker: write a temporary, link it, drop the temporary. */
    method PublishMarker(m: Marker) returns (ok: bool)
      requires Valid() && MayLink(disk, m) && Permits(command, MarkerLink(m))
      modifies this
      ensures Valid() && clock > old(clock)
      ensures old(trace.run) <= trace.run
      ensures disk == old(disk).(marker := disk.marker, jsonTemporaries := disk.jsonTemporaries)
      ensures disk.marker.None? || disk.marker == Some(m)
      ensures old(disk).jsonTemporaries <= disk.jsonTemporaries <= old(disk).jsonTemporaries + 1
      ensures ok ==> disk.marker == Some(m) && disk.jsonTemporaries == old(disk).jsonTemporaries
      ensures Calm(old(clock)) ==> ok
    {
      ok := WriteTemporary();
      if !ok { return; }
      ok := Do(MarkerLink(m));
      ok := DropTemporary(ok);
    }

    /** `_write_private_json_replace`: write a temporary and rename it over the marker. */
    method ReplaceMarker(m: Marker) returns (ok: bool)
      requires Valid() && MayReplace(disk.(jsonTemporaries := disk.jsonTemporaries + 1), m)
      requires Permits(command, MarkerReplace(m))
      modifies this
      ensures Valid() && clock > old(clock)
      ensures old(trace.run) <= trace.run
      ensures disk == old(disk).(marker := disk.marker, jsonTemporaries := disk.jsonTemporaries)
      ensures disk.marker == old(disk).marker || disk.marker == Some(m)
      ensures ok ==> disk.marker == Some(m) && disk.jsonTemporaries == old(disk).jsonTemporaries
      ensures Calm(old(clock)) ==> ok
    {
      ok := WriteTemporary();
      if !ok { return; }
      ok := Do(MarkerReplace(m));
      if ok {
        ok := Sync();
      } else {
        var dropped := Do(JsonDrop);
      }
    }

    /** `_write_catalog`. */
    method PublishCatalog(catalog: Catalog) returns (ok: bool)
      requires Valid() && command == Migrating
      requires Allowed(disk.(jsonTemporaries := disk.jsonTemporaries + 1), CatalogLink(catalog))
      modifies this
      ensures Valid() && clock > old(clock)
      ensures old(trace.run) <= trace.run
      ensures disk == old(disk).(catalog := disk.catalog, jsonTemporaries := disk.jsonTemporaries)
      ensures disk.catalog.None? || disk.catalog == Some(catalog)
      ensures ok ==> disk.catalog == Some(catalog) && disk.jsonTemporaries == old(disk).jsonTemporaries
      ensures Calm(old(clock)) ==> ok
    {
      ok := WriteTemporary();
      if !ok { return; }
      ok := Do(CatalogLink(catalog));
      ok := DropTemporary(ok);
    }

    // -------------------------------------------------------------- restoring and removing

    /**
     `_restore_v1_source`: check the snapshot's digest, copy it beside the source, rename the copy over the
     source, restore its mode and sync.
     */
    method RestoreSource(expected: Content) returns (ok: bool)
      requires Valid() && disk.marker.Some? && disk.snapshot.Some? && expected == disk.marker.value.rollback
      requires Permits(command, SourceRestore(expected))
      requires disk.marker.value.operation == Forward ==> disk.catalog.None?
      requires disk.marker.value.operation == Rollback ==> disk.marker.value.phase == Prepared && CatalogLoads(disk)
      modifies this
      ensures Valid() && clock >= old(clock)
      ensures old(trace.run) <= trace.run
      ensures disk == old(disk) || disk == old(disk).(source := expected)
      ensures ok ==> disk == old(disk).(source := expected) && disk.snapshot == Some(expected)
      ensures Calm(old(clock)) && disk.snapshot == Some(expected) ==> ok
    {
      if disk.snapshot.value != expected { return false; }
      ok := Sync();
      if !ok { return; }
      ok := Do(SourceRestore(expected));
      if ok {
        ok := Sync();
      }
    }

    method RemoveSegment(name: string) returns (ok: bool)
      requires Valid() && MayDropSegment(disk, name) && Permits(command, SegmentDrop(name))
      modifies this
      ensures Valid() && clock >= old(clock)
      ensures old(trace.run) <= trace.run
      ensures disk == old(disk) || disk == old(disk).(segments := old(disk).segments - {name})
      ensures ok ==> disk == old(disk).(segments := old(disk).segments - {name})
      ensures Calm(old(clock)) ==> ok
    {
      ok := Do(SegmentDrop(name));
      if ok {
        ok := Sync();
      }
    }

    /** `_remove_authenticated_orphan_segment`: unlink the recorded segment and the temporary sharing its inode. */
    method RemoveOrphan(publication: Entry) returns (ok: bool)
      requires Valid() && AtRollbackSource(disk) && disk.catalog.None?
      requires disk.marker.value.phase != RollbackCleanup
      requires publication.name in disk.segments ==> disk.marker.value.publication == Some(publication)
      modifies this
      ensures Valid() && clock >= old(clock)
      ensures old(trace.run) <= trace.run
      ensures disk == old(disk).(sealing := disk.sealing, segments := disk.segments)
      ensures disk.segments == old(disk).segments || disk.segments == old(disk).segments - {publication.name}
      ensures ok ==> disk.segments == old(disk).segments - {publication.name}
      ensures disk.sealing == old(disk).sealing || (disk.sealing.None? && !Unlinked(old(disk), publication.name))
      ensures Calm(old(clock)) && Genuine(disk, Some(publication)) ==> ok
    {
      if publication.name !in disk.segments {
        assert disk.segments - {publication.name} == disk.segments;
        return true;
      }
      if disk.segments[publication.name] != publication.digest { return false; }
      if !Unlinked(disk, publication.name) {
        ok := Do(SealDrop);
        if !ok { return; }
      }
      ok := RemoveSegment(publication.name);
    }

    /** `_clear_pending_marker`. */
    method ClearMarker() returns (ok: bool)
      requires Valid() && MayClear(disk)
      modifies this
      ensures Valid() && clock >= old(clock)
      ensures old(trace.run) <= trace.run
      ensures disk == old(disk) || disk == old(disk).(marker := None)
      ensures ok ==> disk == old(disk).(marker := None)
      ensures Calm(old(clock)) ==> ok
    {
      ok := Do(MarkerClear);
      if ok {
        ok := Sync();
      }
    }

    // -------------------------------------------------------------- migrate

    /** Unlinking the seal temporary on the way out; the unlink may fail. */
    method DropSeal()
      requires Valid() && disk.sealing.Some? && Permits(command, SealDrop)
      modifies this
      ensures Valid() && clock >= old(clock)
      ensures old(trace.run) <= trace.run
      ensures disk == if raises(old(clock)) then old(disk) else old(disk).(sealing := None)
      ensures clock == old(clock) + 1
    {
      var dropped := Do(SealDrop);
    }

    /** Filling, hashing and syncing the temporary. */
    method WriteSegment(body: Content) returns (ok: bool)
      requires Valid() && command == Migrating && ForwardPending(disk, Prepared)
      requires disk.sealing == Some(SealTemporary(Torn, None))
      modifies this
      ensures Valid() && clock >= old(clock)
      ensures old(trace.run) <= trace.run
      ensures disk == old(disk).(sealing := disk.sealing)
      ensures disk.sealing.Some? && disk.sealing.value.link.None?
      ensures ok ==> disk.sealing == Some(SealTemporary(body, None))
      ensures Calm(old(clock)) ==> ok
    {
      ok := Do(SealFill(body));
      if ok {
        ok := Sync();
      }
    }

    /** The temporary a seal fills: created empty, then a pruned copy of the source, then hashed and synced. */
    method FillSegment(julian: Julian, cutoff: Timestamp, layout: nat) returns (body: Option<Content>)
      requires Valid() && command == Migrating
      requires ForwardPending(disk, Prepared) && disk.catalog.None? && disk.sealing.None? && disk.source.Image?
      modifies this
      ensures Valid() && clock >= old(clock)
      ensures old(trace.run) <= trace.run
      ensures disk == old(disk).(sealing := disk.sealing)
      ensures disk.sealing.Some? ==> disk.sealing.value.link.None?
      ensures body.None? ==> NoSealLeft()
      ensures body.Some? ==> disk.sealing == Some(SealTemporary(body.value, None))
      ensures body.Some? ==> body.value == Image(SegmentOf(julian, disk.source.db, cutoff), layout)
      ensures body.Some? ==> Sealable(julian, disk.source.db, cutoff)
      ensures Calm(old(clock)) && Sealable(julian, disk.source.db, cutoff) ==> body.Some?
    {
      body := None;
      var ok := Do(SealBegin);
      if !ok { return; }
      body := PrunedCopy(julian, disk.source.db, cutoff, layout);
      if body.Some? {
        ok := WriteSegment(body.value);
        if ok { return; }
      }
      body := None;
      DropSeal();
    }

    /** Dropping the linked temporary, tried once more if it fails, and syncing. */
    method ReleaseSeal() returns (ok: bool)
      requires Valid() && command == Migrating && disk.sealing.Some?
      modifies this
      ensures Valid() && clock >= old(clock)
      ensures old(trace.run) <= trace.run
      ensures disk == old(disk).(sealing := disk.sealing) && NoSealLeft()
      ensures disk.sealing == old(disk).sealing || disk.sealing.None?
      ensures ok ==> disk.sealing.None?
      ensures Calm(old(clock)) ==> ok
    {
      ok := Do(SealDrop);
      if ok {
        ok := Sync();
      } else {
        DropSeal();
      }
    }

    /** Publication of a recorded segment: link it under its name, drop the temporary, sync. */
    method LinkSegment(publication: Entry) returns (ok: bool)
      requires Valid() && command == Migrating && Allowed(disk, SealPublish(publication.name))
      requires disk.marker.value.publication == Some(publication)
      modifies this
      ensures Valid() && clock >= old(clock)
      ensures old(trace.run) <= trace.run
      ensures disk == old(disk).(sealing := disk.sealing, segments := disk.segments)
      ensures disk.segments == old(disk).segments
           || disk.segments == old(disk).segments[publication.name := publication.digest]
      ensures ok ==> disk.sealing.None? && disk.segments == old(disk).segments[publication.name := publication.digest]
      ensures NoSealLeft()
      ensures Calm(old(clock)) ==> ok
    {
      ok := Do(SealPublish(publication.name));
      if ok {
        ok := ReleaseSeal();
      } else {
        DropSeal();
      }
    }

    /** Recording the publication in the marker, and only then publishing the filled temporary. */
    method RecordAndLink(publication: Entry) returns (ok: bool)
      requires Valid() && command == Migrating && AtRollbackSource(disk) && disk.catalog.None?
      requires disk.marker == Some(ForwardMarker(disk.source, Prepared, None, None))
      requires disk.sealing == Some(SealTemporary(publication.digest, None)) && publication.name !in disk.segments
      modifies this
      ensures Valid() && clock >= old(clock)
      ensures old(trace.run) <= trace.run
      ensures disk == old(disk).(marker := disk.marker, segments := disk.segments, sealing := disk.sealing,
                                 jsonTemporaries := disk.jsonTemporaries)
      ensures disk.marker == old(disk).marker
           || disk.marker == Some(ForwardMarker(disk.source, SegmentReady, Some(publication), None))
      ensures disk.segments == old(disk).segments
           || (&& disk.marker != old(disk).marker
               && disk.segments == old(disk).segments[publication.name := publication.digest])
      ensures ok ==>
                disk == old(disk).(marker := Some(ForwardMarker(disk.source, SegmentReady, Some(publication), None)),
                                   segments := old(disk).segments[publication.name := publication.digest],
                                   sealing := None)
      ensures NoSealLeft()
      ensures Calm(old(clock)) ==> ok
    {
      ok := ReplaceMarker(ForwardMarker(disk.source, SegmentReady, Some(publication), None));
      if ok {
        ok := LinkSegment(publication);
      } else {
        DropSeal();
      }
    }

    /**
     `seal_history_segment` as migration calls it. `recorded` is the publication record the callback has
     kept in memory, which exists from just before the marker is replaced.
     */
    method SealSegment(julian: Julian, cutoff: Timestamp, layout: nat) returns (ok: bool, recorded: Option<Entry>)
      requires Valid() && command == Migrating && disk.catalog.None? && disk.sealing.None?
      requires AtRollbackSource(disk) && disk.source.Image?
      requires disk.marker == Some(ForwardMarker(disk.source, Prepared, None, None))
      modifies this
      ensures Valid() && clock >= old(clock)
      ensures old(trace.run) <= trace.run
      ensures disk == old(disk).(marker := disk.marker, segments := disk.segments, sealing := disk.sealing,
                                 jsonTemporaries := disk.jsonTemporaries)
      ensures disk.marker == old(disk).marker
           || (recorded.Some? && disk.marker == Some(ForwardMarker(disk.source, SegmentReady, recorded, None)))
      ensures disk.segments == old(disk).segments
           || (recorded.Some? && disk.marker != old(disk).marker
               && disk.segments == old(disk).segments[recorded.value.name := recorded.value.digest])
      ensures recorded.Some? ==> recorded.value.name == SEGMENT_FILE && SEGMENT_FILE !in old(disk).segments
      ensures NoSealLeft()
      ensures ok ==>
                && recorded == Some(Entry(SEGMENT_FILE, Image(SegmentOf(julian, disk.source.db, cutoff), layout)))
                && disk == old(disk).(marker := Some(ForwardMarker(disk.source, SegmentReady, recorded, None)),
                                      segments := old(disk).segments[SEGMENT_FILE := recorded.value.digest])
                && Sealable(julian, disk.source.db, cutoff)
      ensures Calm(old(clock)) && SEGMENT_FILE !in old(disk).segments && Sealable(julian, disk.source.db, cutoff) ==> ok
    {
      recorded := None;
      ok := false;
      if SEGMENT_FILE in disk.segments { return; }
      var body := FillSegment(julian, cutoff, layout);
      if body.None? { return; }
      var publication := Entry(SEGMENT_FILE, body.value);
      recorded := Some(publication);
      ok := RecordAndLink(publication);
    }

    /** The in-process cleanup of a failed migration: restore, remove the recorded segment, clear the marker. */
    method Unwind(recorded: Option<Entry>, rollback: Content) returns (ok: bool)
      requires Valid() && command == Migrating
      requires disk.catalog.None? ==>
                 && disk.marker.Some? && disk.marker.value.operation == Forward
                 && disk.marker.value.rollback == rollback && disk.marker.value.phase != RollbackCleanup
                 && disk.snapshot.Some?
                 && (disk.marker.value.publication.Some? ==> disk.marker.value.publication == recorded)
                 && (recorded.Some? && recorded.value.name in disk.segments ==>
                       && disk.marker.value.publication == recorded
                       && disk.segments[recorded.value.name] == recorded.value.digest)
      modifies this
      ensures Valid() && clock >= old(clock)
      ensures old(trace.run) <= trace.run
      ensures disk == old(disk).(source := disk.source, marker := disk.marker, segments := disk.segments,
                                 sealing := disk.sealing)
      ensures disk.catalog.Some? ==> disk == old(disk)
      ensures ok && disk.catalog.None? ==>
                && disk.marker.None? && disk.source == rollback
                && disk.segments == (if recorded.Some? then old(disk).segments - {recorded.value.name}
                                     else old(disk).segments)
      ensures Calm(old(clock)) && (disk.catalog.None? ==> disk.snapshot == Some(rollback)) ==> ok
    {
      ok := Sync();
      if !ok || disk.catalog.Some? { return; }
      ok := RestoreSource(rollback);
      if !ok { return; }
      if recorded.Some? {
        ok := RemoveOrphan(recorded.value);
        if !ok { return; }
      }
      ok := ClearMarker();
    }

    /** Staging the hot replacement: only the completed, verified copy leaves this step. */
    method StageHot(julian: Julian, cutoff: Timestamp, layout: nat) returns (staged: Option<Content>)
      requires Valid() && disk.source.Image?
      modifies this`clock
      ensures Valid() && clock >= old(clock)
      ensures staged.Some? ==> staged.value == Image(HotOf(julian, disk.source.db, cutoff), layout)
      ensures Calm(old(clock)) ==> staged.Some?
    {
      var ok := Sync();
      if !ok { return None; }
      var hot := PruneHot(julian, disk.source.db, cutoff);
      ok := Sync();
      return if ok then Some(Image(hot, layout)) else None;
    }

    /** The end of the switch: publish the catalog, then clear the marker. */
    method FinishSwitch(publication: Entry, staged: Content, rollback: Content) returns (ok: bool)
      requires Valid() && command == Migrating && disk.source == staged && disk.snapshot == Some(rollback)
      requires disk.marker == Some(ForwardMarker(rollback, HotReady, Some(publication), Some(staged)))
      requires disk.catalog.None? && disk.sealing.None?
      requires publication.name in disk.segments && disk.segments[publication.name] == publication.digest
      modifies this
      ensures Valid() && clock >= old(clock)
      ensures old(trace.run) <= trace.run
      ensures disk == old(disk).(marker := disk.marker, catalog := disk.catalog,
                                 jsonTemporaries := disk.jsonTemporaries)
      ensures disk.marker == old(disk).marker || (disk.marker.None? && disk.catalog.Some?)
      ensures disk.catalog.None? || disk.catalog == Some(Catalog([publication], rollback))
      ensures ok ==> disk == old(disk).(marker := None, catalog := Some(Catalog([publication], rollback)))
      ensures Calm(old(clock)) ==> ok
    {
      ok := PublishCatalog(Catalog([publication], rollback));
      if !ok { return; }
      assert disk.catalog.value.entries == [publication];
      ok := ClearMarker();
    }

    /** The switch: record the replacement, rename it over the source, publish the catalog, clear the marker. */
    method SwitchToSegmented(publication: Entry, staged: Content, rollback: Content) returns (ok: bool)
      requires Valid() && command == Migrating && AtRollbackSource(disk) && disk.source == rollback
      requires disk.marker == Some(ForwardMarker(rollback, SegmentReady, Some(publication), None))
      requires disk.catalog.None? && disk.sealing.None?
      requires publication.name in disk.segments && disk.segments[publication.name] == publication.digest
      requires Splits(rollback, publication.digest, staged)
      modifies this
      ensures Valid() && clock >= old(clock)
      ensures old(trace.run) <= trace.run
      ensures disk == old(disk).(source := disk.source, marker := disk.marker, catalog := disk.catalog,
                                 jsonTemporaries := disk.jsonTemporaries)
      ensures SwitchedInOrder(old(disk), disk, ForwardMarker(rollback, HotReady, Some(publication), Some(staged)),
                              staged, Catalog([publication], rollback))
      ensures ok ==> disk == old(disk).(source := staged, marker := None,
                                        catalog := Some(Catalog([publication], rollback)))
      ensures Calm(old(clock)) ==> ok
    {
      ok := ReplaceMarker(ForwardMarker(rollback, HotReady, Some(publication), Some(staged)));
      if !ok { return; }
      ok := SwapSource(staged);
      if !ok { return; }
      ok := FinishSwitch(publication, staged, rollback);
    }

    /** Renaming the staged hot database over the source, and syncing. */
    method SwapSource(staged: Content) returns (ok: bool)
      requires Valid() && command == Migrating && Allowed(disk, SourceSwap(staged))
      modifies this
      ensures Valid() && clock >= old(clock)
      ensures old(trace.run) <= trace.run
      ensures disk == old(disk) || disk == old(disk).(source := staged)
      ensures ok ==> disk == old(disk).(source := staged)
      ensures Calm(old(clock)) ==> ok
    {
      ok := Do(SourceSwap(staged));
      if ok {
        ok := Sync();
      }
    }

    method StageAndSwitch(julian: Julian, cutoff: Timestamp, layout: nat, publication: Entry) returns (ok: bool)
      requires Valid() && command == Migrating && AtRollbackSource(disk) && disk.source.Image?
      requires disk.marker == Some(ForwardMarker(disk.source, SegmentReady, Some(publication), None))
      requires disk.catalog.None? && disk.sealing.None?
      requires publication.name in disk.segments && disk.segments[publication.name] == publication.digest
      requires publication.digest.Image? && publication.digest.db == SegmentOf(julian, disk.source.db, cutoff)
      requires Conserves(disk.source.db, SegmentOf(julian, disk.source.db, cutoff),
                         HotOf(julian, disk.source.db, cutoff))
      modifies this
      ensures Valid() && clock >= old(clock)
      ensures old(trace.run) <= trace.run
      ensures disk == old(disk).(source := disk.source, marker := disk.marker, catalog := disk.catalog,
                                 jsonTemporaries := disk.jsonTemporaries)
      ensures disk.catalog.None? ==>
                && disk.marker.Some? && disk.marker.value.publication == Some(publication)
                && disk.marker.value.operation == Forward && disk.marker.value.phase != RollbackCleanup
                && disk.marker.value.rollback == old(disk).source
      ensures ok ==> disk == old(disk).(source := Image(HotOf(julian, old(disk).source.db, cutoff), layout),
                                        marker := None, catalog := Some(Catalog([publication], old(disk).source)))
      ensures Calm(old(clock)) ==> ok
    {
      var staged := StageHot(julian, cutoff, layout);
      ok := staged.Some?;
      if ok {
        ok := SwitchToSegmented(publication, staged.value, disk.source);
      }
    }

    /** The protected part of a migration, from the written marker on, with its exception cleanup. */
    method SealAndSwitch(julian: Julian, cutoff: Timestamp, segmentLayout: nat, hotLayout: nat) returns (ok: bool)
      requires Valid() && command == Migrating && disk.catalog.None? && disk.sealing.None? && disk.source.Image?
      requires disk.marker == Some(ForwardMarker(disk.source, Prepared, None, None)) && AtRollbackSource(disk)
      requires NoNullStamps(disk.source.db) && julian(cutoff).Some? && disk.segments == map[]
      modifies this
      ensures Valid()
      ensures old(trace.run) <= trace.run
      ensures ok ==> disk == SwitchedDisk(old(disk), julian, cutoff, segmentLayout, hotLayout)
      ensures Calm(old(clock)) ==> ok == Sealable(julian, old(disk).source.db, cutoff)
      ensures Calm(old(clock)) && !ok ==>
                && disk.marker.None? && disk.catalog.None? && disk.segments == map[]
                && disk.source == old(disk).source && disk.snapshot == old(disk).snapshot
    {
      var v1 := disk.source;
      var recorded: Option<Entry>;
      ok, recorded := SealSegment(julian, cutoff, segmentLayout);
      if ok {
        SuccessfulSealConserves(julian, v1.db, cutoff);
        ok := StageAndSwitch(julian, cutoff, hotLayout, recorded.value);
      }
      if !ok {
        assert Calm(old(clock)) ==> disk.catalog.None? && disk.segments.Keys <= {SEGMENT_FILE};
        var unwound := Unwind(recorded, v1);
        assert Calm(old(clock)) ==> disk.segments.Keys == {};
      }
    }

    /** `_migrate_segmented_history_locked`. */
    method Migrate(julian: Julian, rawCutoff: Timestamp, segmentLayout: nat, hotLayout: nat, apply: bool)
      returns (r: CommandResult)
      requires Valid() && command == Migrating && Inv(disk)
      requires ReadsMidnights(julian) && (disk.source.Image? ==> NoNullStamps(disk.source.db))
      modifies this
      ensures Valid()
      ensures old(trace.run) <= trace.run
      ensures r in {DryRun, Refused} ==> disk == old(disk)
      ensures r == DryRun ==> !apply
      ensures r == Applied ==>
                && NormalizeCutoff(rawCutoff).Success? && old(disk).source.Image?
                && disk == SwitchedDisk(old(disk).(snapshot := Some(old(disk).source)), julian,
                                        NormalizeCutoff(rawCutoff).value, segmentLayout, hotLayout)
      ensures Calm(old(clock)) ==>
                (r == Applied <==>
                   && apply && NormalizeCutoff(rawCutoff).Success? && old(disk).source.Image?
                   && old(disk).catalog.None? && old(disk).snapshot.None? && old(disk).marker.None?
                   && Sealable(julian, old(disk).source.db, NormalizeCutoff(rawCutoff).value))
      ensures Calm(old(clock)) && r == Raised ==>
                && disk.marker.None? && disk.catalog.None? && disk.segments == map[]
                && disk.source == old(disk).source && disk.snapshot == Some(old(disk).source)
    {
      var normalized := NormalizeCutoff(rawCutoff);
      if normalized.Failure? || disk.catalog.Some? || !disk.source.Image? { return Refused; }
      if !apply { return DryRun; }
      var ok := Sync();
      if !ok { return Raised; }
      if disk.snapshot.Some? || disk.marker.Some? { return Refused; }
      ok := CreateSnapshot();
      if !ok { return Raised; }
      ok := PublishMarker(ForwardMarker(disk.source, Prepared, None, None));
      if !ok { return Raised; }
      ok := Sync();
      if !ok { return Raised; }
      CutoffIsTheUtcMidnightBefore(rawCutoff);
      ok := SealAndSwitch(julian, normalized.value, segmentLayout, hotLayout);
      return if ok then Applied else Raised;
    }

    // -------------------------------------------------------------- rollback

    /** `_retire_rollback_artifact` for one segment: a missing one is skipped. */
    method RetireSegment(entry: Entry) returns (ok: bool)
      requires Valid() && (entry.name in disk.segments ==> MayDropSegment(disk, entry.name))
      requires Permits(command, SegmentDrop(entry.name))
      modifies this
      ensures Valid() && clock >= old(clock)
      ensures old(trace.run) <= trace.run
      ensures disk == old(disk).(segments := disk.segments) && SubFiles(disk.segments, old(disk).segments)
      ensures ok ==> entry.name !in disk.segments
      ensures Calm(old(clock)) ==> ok
    {
      ok := true;
      if entry.name in disk.segments {
        ok := RemoveSegment(entry.name);
      }
    }

    /** Deletion of the surviving segments, in inventory order. */
    method RetireSegments(inventory: Catalog) returns (ok: bool)
      requires Valid() && RollbackPending(disk, RollbackCleanup) && AtRollbackSource(disk)
      requires disk.marker.value.cleanup == Some(inventory) && CleanDirectory(disk, inventory) && disk.catalog.None?
      requires Permits(command, SegmentDrop(SEGMENT_FILE))
      modifies this
      ensures Valid() && clock >= old(clock)
      ensures old(trace.run) <= trace.run
      ensures disk == old(disk).(segments := disk.segments) && SubFiles(disk.segments, old(disk).segments)
      ensures ok ==> disk.segments == map[]
      ensures Calm(old(clock)) ==> ok
    {
      var entries := inventory.entries;
      for i := 0 to |entries|
        invariant Valid() && clock >= old(clock) && old(trace.run) <= trace.run
        invariant disk == old(disk).(segments := disk.segments)
        invariant SubFiles(disk.segments, old(disk).segments) && AmongEntries(disk.segments, entries[i..])
      {
        ghost var before := disk.segments;
        ok := RetireSegment(entries[i]);
        if !ok { return; }
        FewerEntries(before, disk.segments, entries[i..]);
      }
      ok := true;
    }

    /** Dropping the catalog, unless an earlier run already did. */
    method RetireCatalog() returns (ok: bool)
      requires Valid() && RollbackPending(disk, RollbackCleanup) && AtRollbackSource(disk)
      requires disk.catalog.Some? ==> disk.marker.value.cleanup == disk.catalog
      requires Permits(command, CatalogDrop)
      modifies this
      ensures Valid() && clock >= old(clock)
      ensures old(trace.run) <= trace.run
      ensures disk == old(disk) || disk == old(disk).(catalog := None)
      ensures ok ==> disk == old(disk).(catalog := None)
      ensures Calm(old(clock)) ==> ok
    {
      ok := true;
      if disk.catalog.Some? {
        ok := Do(CatalogDrop);
      }
    }

    /** The deletions: the catalog first, then the segments, then the marker. */
    method DeleteInventoried(inventory: Catalog) returns (ok: bool)
      requires Valid() && disk.marker.Some?
      requires Permits(command, CatalogDrop) && Permits(command, SegmentDrop(SEGMENT_FILE))
      requires RollbackPending(disk, RollbackCleanup) && disk.marker.value.cleanup == Some(inventory)
      requires AtRollbackSource(disk) && Permits(command, MarkerClear) && Finishable(disk)
      modifies this
      ensures Valid() && clock >= old(clock)
      ensures old(trace.run) <= trace.run
      ensures disk == old(disk).(marker := disk.marker, catalog := disk.catalog, segments := disk.segments)
      ensures CleanedInOrder(old(disk), disk)
      ensures ok ==> disk == old(disk).(marker := None, catalog := None, segments := map[])
      ensures Calm(old(clock)) ==> ok
    {
      ok := RetireCatalog();
      if !ok { return; }
      ok := RetireSegments(inventory);
      if !ok { return; }
      ok := Sync();
      if !ok { return; }
      ok := ClearMarker();
    }

    /** `_finish_rollback_cleanup` with `apply`: nothing happens unless every check passes. */
    method FinishCleanup(inventory: Catalog) returns (ok: bool)
      requires Valid() && disk.marker.Some?
      requires Permits(command, CatalogDrop) && Permits(command, SegmentDrop(SEGMENT_FILE))
      requires RollbackPending(disk, RollbackCleanup) && disk.marker.value.cleanup == Some(inventory)
      requires disk.snapshot == Some(disk.marker.value.rollback) && Permits(command, MarkerClear)
      modifies this
      ensures Valid() && clock >= old(clock)
      ensures old(trace.run) <= trace.run
      ensures disk == old(disk).(marker := disk.marker, catalog := disk.catalog, segments := disk.segments)
      ensures CleanedInOrder(old(disk), disk)
      ensures ok ==> disk == old(disk).(marker := None, catalog := None, segments := map[])
      ensures !Finishable(old(disk)) ==> !ok && disk == old(disk)
      ensures Calm(old(clock)) ==> ok == Finishable(old(disk))
    {
      var m := disk.marker.value;
      if !DistinctNames(inventory.entries) || m.source != m.rollback || disk.source != m.source
         || !CleanDirectory(disk, inventory) { return false; }
      ok := Sync();
      if !ok { return; }
      ok := DeleteInventoried(inventory);
    }

    /** `_prepare_rollback_cleanup`: publish the terminal marker, the only authority to delete anything. */
    method PrepareCleanup() returns (ok: bool)
      requires Valid() && RollbackPending(disk, Prepared) && CatalogLoads(disk)
      requires disk.catalog.value.rollback == disk.marker.value.rollback
      requires disk.snapshot == Some(disk.marker.value.rollback)
      requires Permits(command, MarkerReplace(CleanupMarker(disk.marker.value.rollback, disk.catalog.value)))
      modifies this
      ensures Valid() && clock >= old(clock)
      ensures old(trace.run) <= trace.run
      ensures disk == old(disk).(marker := disk.marker, jsonTemporaries := disk.jsonTemporaries)
      ensures disk.marker == old(disk).marker
           || disk.marker == Some(CleanupMarker(disk.snapshot.value, disk.catalog.value))
      ensures ok ==> disk == old(disk).(marker := Some(CleanupMarker(disk.snapshot.value, disk.catalog.value)))
      ensures ok ==> Finishable(disk)
      ensures !(CleanDirectory(old(disk), old(disk).catalog.value) && AtRollbackSource(old(disk))) ==>
                !ok && disk == old(disk)
      ensures Calm(old(clock)) ==>
                ok == (CleanDirectory(old(disk), old(disk).catalog.value) && AtRollbackSource(old(disk)))
    {
      var inventory := disk.catalog.value;
      if !CleanDirectory(disk, inventory) || disk.source != inventory.rollback { return false; }
      ok := Sync();
      if !ok { return; }
      ok := ReplaceMarker(CleanupMarker(inventory.rollback, inventory));
    }

    /** The rollback from its written marker on: restore the source, authorize the cleanup, delete. */
    method RestoreAndClean(inventory: Catalog) returns (ok: bool)
      requires Valid() && command == RollingBack && CatalogLoads(disk) && disk.catalog == Some(inventory)
      requires disk.snapshot == Some(inventory.rollback)
      requires disk.marker == Some(RollbackMarker(inventory.rollback, disk.source))
      modifies this
      ensures Valid() && clock >= old(clock)
      ensures old(trace.run) <= trace.run
      ensures ok ==>
                disk == old(disk).(source := inventory.rollback, marker := None, catalog := None, segments := map[])
      ensures Calm(old(clock)) ==> ok == CleanDirectory(old(disk), inventory)
      ensures Calm(old(clock)) && !ok ==> disk == old(disk).(source := inventory.rollback)
    {
      ok := RestoreSource(inventory.rollback);
      if !ok { return; }
      ok := AuthorizeAndClean(inventory);
    }

    /** The terminal marker, and then everything it authorizes. */
    method AuthorizeAndClean(inventory: Catalog) returns (ok: bool)
      requires Valid() && RollbackPending(disk, Prepared) && CatalogLoads(disk) && disk.catalog == Some(inventory)
      requires inventory.rollback == disk.marker.value.rollback && disk.snapshot == Some(inventory.rollback)
      requires Permits(command, MarkerReplace(CleanupMarker(inventory.rollback, inventory)))
      requires Permits(command, CatalogDrop) && Permits(command, SegmentDrop(SEGMENT_FILE))
      requires Permits(command, MarkerClear)
      modifies this
      ensures Valid() && clock >= old(clock)
      ensures old(trace.run) <= trace.run
      ensures ok ==> disk == old(disk).(marker := None, catalog := None, segments := map[])
      ensures !(CleanDirectory(old(disk), inventory) && AtRollbackSource(old(disk))) ==> !ok && disk == old(disk)
      ensures Calm(old(clock)) ==> ok == (CleanDirectory(old(disk), inventory) && AtRollbackSource(old(disk)))
      ensures Calm(old(clock)) && !ok ==> disk == old(disk)
    {
      ok := PrepareCleanup();
      if !ok { return; }
      ok := FinishCleanup(inventory);
    }

    /** `_rollback_segmented_history_locked`. */
    method RollBack(apply: bool) returns (r: CommandResult)
      requires Valid() && command == RollingBack
      modifies this
      ensures Valid()
      ensures old(trace.run) <= trace.run
      ensures r == Refused <==>
                || old(disk).marker.Some? || !CatalogLoads(old(disk))
                || old(disk).snapshot != Some(old(disk).catalog.value.rollback)
      ensures r in {DryRun, Refused} ==> disk == old(disk)
      ensures r == DryRun ==> !apply
      ensures r == Applied ==>
                && old(disk).catalog.Some?
                && disk == old(disk).(source := old(disk).catalog.value.rollback, catalog := None, segments := map[])
      ensures Calm(old(clock)) && apply && r != Refused ==>
                (r == Applied <==> CleanDirectory(old(disk), old(disk).catalog.value))
      ensures Calm(old(clock)) && apply && r == Raised ==>
                && old(disk).catalog.Some?
                && var v1 := old(disk).catalog.value.rollback;
                   disk == old(disk).(source := v1, marker := Some(RollbackMarker(v1, old(disk).source)))
    {
      if disk.marker.Some? || !CatalogLoads(disk) || disk.snapshot != Some(disk.catalog.value.rollback) {
        return Refused;
      }
      if !apply { return DryRun; }
      var inventory := disk.catalog.value;
      var ok := PublishMarker(RollbackMarker(inventory.rollback, disk.source));
      if !ok { return Raised; }
      ok := RestoreAndClean(inventory);
      return if ok then Applied else Raised;
    }

    // -------------------------------------------------------------- recovery

    /** Recovery without a marker: a snapshot equal to the source is redundant; anything else is refused. */
    method RecoverOrphanSnapshot(apply: bool) returns (r: RecoveryResult)
      requires Valid() && command == Recovering(SnapshotRemoved) && disk.marker.None?
      modifies this
      ensures Valid()
      ensures old(trace.run) <= trace.run
      ensures !apply ==> disk == old(disk)
      ensures apply ==> !r.WouldRecover?
      ensures r.Recovers? ==> r.outcome == SnapshotRemoved
      ensures r == Recovers(SnapshotRemoved) ==> disk == old(disk).(snapshot := None)
      ensures disk == old(disk) || (apply && OrphanSnapshot(old(disk)) && disk == old(disk).(snapshot := None))
      ensures Calm(old(clock)) ==>
                r == if OrphanSnapshot(old(disk)) then
                       (if apply then Recovers(SnapshotRemoved) else WouldRecover(SnapshotRemoved))
                     else RecoveryStopped
    {
      if disk.sealing.Some? || disk.catalog.Some? || disk.snapshot != Some(disk.source) { return RecoveryStopped; }
      if !apply { return WouldRecover(SnapshotRemoved); }
      var ok := DropSnapshot();
      if ok {
        ok := Sync();
      }
      return if ok then Recovers(SnapshotRemoved) else RecoveryStopped;
    }

    /** Undoing an operation without a catalog: only a forward one restores the source. */
    method UndoUnpublished(publication: Option<Entry>) returns (ok: bool)
      requires Valid() && MarkerValid(disk) && command == Recovering(Destiny(disk)) && disk.catalog.None?
      requires disk.marker.value.phase != RollbackCleanup && disk.marker.value.publication == publication
      requires disk.marker.value.operation == Rollback ==> disk.source == disk.marker.value.rollback
      requires OnlyRecorded(disk, publication)
      modifies this
      ensures Valid() && clock >= old(clock)
      ensures old(trace.run) <= trace.run
      ensures disk == old(disk).(source := disk.source, marker := disk.marker, segments := disk.segments,
                                 sealing := disk.sealing)
      ensures ok ==> disk.marker.None? && disk.source == old(disk).marker.value.rollback && disk.segments == map[]
      ensures Calm(old(clock)) && Genuine(old(disk), publication) ==> ok
    {
      ok := true;
      if disk.marker.value.operation == Forward {
        ok := RestoreSource(disk.marker.value.rollback);
        if !ok { return; }
      }
      if publication.Some? {
        ok := RemoveOrphan(publication.value);
        if !ok { return; }
      }
      assert disk.segments.Keys == {};
      assert disk.segments == map[];
      ok := ClearMarker();
    }

    /** Recovery of a rollback whose catalog is still published: cancel it, or finish it if the source is restored. */
    method SettleRollback() returns (ok: bool)
      requires Valid() && RollbackPending(disk, Prepared) && command == Recovering(Destiny(disk)) && CatalogLoads(disk)
      requires disk.snapshot == Some(disk.marker.value.rollback)
      requires disk.catalog.value.rollback == disk.marker.value.rollback
      requires disk.source in {disk.marker.value.source, disk.marker.value.rollback}
      modifies this
      ensures Valid() && clock >= old(clock)
      ensures old(trace.run) <= trace.run
      ensures ok && Destiny(old(disk)) == RollbackCancelled ==> disk == old(disk).(marker := None)
      ensures ok && Destiny(old(disk)) == RollbackFinalized ==>
                disk == old(disk).(marker := None, catalog := None, segments := map[])
      ensures Destiny(old(disk)) == RollbackFinalized && !CleanDirectory(old(disk), old(disk).catalog.value) ==>
                !ok && disk == old(disk)
      ensures Calm(old(clock)) ==>
                ok == (Destiny(old(disk)) == RollbackCancelled || CleanDirectory(old(disk), old(disk).catalog.value))
      ensures Calm(old(clock)) && !ok ==> disk == old(disk)
    {
      if disk.source == disk.marker.value.source {
        ok := ClearMarker();
      } else {
        ok := AuthorizeAndClean(disk.catalog.value);
      }
    }

    /** Recovery with a published catalog: finalize a forward migration, or settle a rollback. */
    method RecoverPublished(apply: bool) returns (r: RecoveryResult)
      requires Valid() && MarkerValid(disk) && disk.marker.value.phase != RollbackCleanup && disk.catalog.Some?
      requires command == Recovering(Destiny(disk))
      modifies this
      ensures Valid()
      ensures old(trace.run) <= trace.run
      ensures !apply ==> disk == old(disk)
      ensures apply ==> !r.WouldRecover?
      ensures !apply && CatalogLoads(old(disk)) && SettledSource(old(disk)) ==> r == WouldRecover(Destiny(old(disk)))
      ensures r.Recovers? ==> r.outcome == Destiny(old(disk))
      ensures r.Recovers? && r.outcome != RollbackFinalized ==> disk == old(disk).(marker := None)
      ensures r == Recovers(RollbackFinalized) ==>
                && old(disk).source == old(disk).marker.value.rollback
                && disk == old(disk).(marker := None, catalog := None, segments := map[])
      ensures Calm(old(clock)) && apply && CatalogLoads(old(disk)) && SettledSource(old(disk)) ==>
                r == if Unsettleable(old(disk)) then RecoveryStopped else Recovers(Destiny(old(disk)))
      ensures apply && Unsettleable(old(disk)) ==> r == RecoveryStopped && disk == old(disk)
      ensures Calm(old(clock)) && r == RecoveryStopped ==> disk == old(disk)
    {
      var m := disk.marker.value;
      if !CatalogLoads(disk) || disk.catalog.value.rollback != m.rollback { return RecoveryStopped; }
      var destiny := Destiny(disk);
      if m.operation == Rollback {
        if disk.source != m.source && disk.source != m.rollback { return RecoveryStopped; }
        if !apply { return WouldRecover(destiny); }
        var settled := SettleRollback();
        return if settled then Recovers(destiny) else RecoveryStopped;
      }
      if m.phase != HotReady || m.replacement != Some(disk.source) { return RecoveryStopped; }
      if !apply { return WouldRecover(destiny); }
      var cleared := ClearMarker();
      return if cleared then Recovers(destiny) else RecoveryStopped;
    }

    /** Recovery without a catalog: the source must be a known one, and no unrecorded segment may exist. */
    method RecoverUnpublished(apply: bool) returns (r: RecoveryResult)
      requires Valid() && MarkerValid(disk) && disk.marker.value.phase != RollbackCleanup && disk.catalog.None?
      requires command == Recovering(Destiny(disk))
      modifies this
      ensures Valid()
      ensures old(trace.run) <= trace.run
      ensures !apply ==> disk == old(disk)
      ensures apply ==> !r.WouldRecover?
      ensures !apply && Consistent(old(disk)) ==> r == WouldRecover(Destiny(old(disk)))
      ensures r.Recovers? ==>
                && r.outcome == Destiny(old(disk)) && disk.marker.None? && disk.catalog.None? && disk.segments == map[]
                && disk.source == old(disk).marker.value.rollback && disk.snapshot == old(disk).snapshot
      ensures Calm(old(clock)) && apply && Consistent(old(disk)) ==> r.Recovers?
      ensures !OnlyRecorded(old(disk), old(disk).marker.value.publication) || !AllowedSource(old(disk)) ==>
                r == RecoveryStopped && disk == old(disk)
    {
      var m := disk.marker.value;
      var destiny := Destiny(disk);
      if !OnlyRecorded(disk, m.publication) || !AllowedSource(disk) { return RecoveryStopped; }
      if !apply { return WouldRecover(destiny); }
      var undone := UndoUnpublished(m.publication);
      return if undone then Recovers(destiny) else RecoveryStopped;
    }

    /** Recovery of a marked operation, by marker phase and catalog. */
    method RecoverMarked(apply: bool) returns (r: RecoveryResult)
      requires Valid() && disk.marker.Some? && command == Recovering(Destiny(disk))
      modifies this
      ensures Valid()
      ensures old(trace.run) <= trace.run
      ensures !apply ==> disk == old(disk)
      ensures apply ==> !r.WouldRecover?
      ensures r.Recovers? ==> r.outcome == Destiny(old(disk)) && Settled(disk, old(disk))
      ensures !apply && Consistent(old(disk)) ==>
                r == if Reported(old(disk)) then WouldRecover(Destiny(old(disk))) else RecoveryStopped
      ensures apply && Consistent(old(disk)) && !Recoverable(old(disk)) ==> r == RecoveryStopped && disk == old(disk)
      ensures apply && Consistent(old(disk)) && Recoverable(old(disk)) && Calm(old(clock)) ==>
                r == Recovers(Destiny(old(disk)))
    {
      var m := disk.marker.value;
      if !MarkerValid(disk) { return RecoveryStopped; }
      if m.phase == RollbackCleanup {
        if m.cleanup.None? || !Finishable(disk) { return RecoveryStopped; }
        if !apply { return WouldRecover(RollbackFinalized); }
        var finished := FinishCleanup(m.cleanup.value);
        return if finished then Recovers(RollbackFinalized) else RecoveryStopped;
      }
      if StrayTemporary(disk) { return RecoveryStopped; }
      if disk.catalog.Some? {
        r := RecoverPublished(apply);
      } else {
        r := RecoverUnpublished(apply);
      }
    }

    /** `_recover_pending_migration_locked`. */
    method Recover(apply: bool) returns (r: RecoveryResult)
      requires Valid() && command == Recovering(if disk.marker.Some? then Destiny(disk) else SnapshotRemoved)
      modifies this
      ensures Valid()
      ensures old(trace.run) <= trace.run
      ensures !apply ==> disk == old(disk)
      ensures apply ==> !r.WouldRecover?
      ensures old(disk).marker.None? && Calm(old(clock)) ==>
                r == if OrphanSnapshot(old(disk)) then
                       (if apply then Recovers(SnapshotRemoved) else WouldRecover(SnapshotRemoved))
                     else RecoveryStopped
      ensures old(disk).marker.Some? && r.Recovers? ==> r.outcome == Destiny(old(disk))
      ensures old(disk).marker.Some? && Inv(old(disk)) && r.Recovers? ==> Terminal(disk, r.outcome, old(disk))
      ensures old(disk).marker.Some? && Inv(old(disk)) && apply && Blocked(old(disk)) ==>
                r == RecoveryStopped && disk == old(disk)
      ensures old(disk).marker.Some? && Inv(old(disk)) && apply && !Blocked(old(disk)) && Calm(old(clock)) ==>
                r == Recovers(Destiny(old(disk)))
      ensures old(disk).marker.Some? && Inv(old(disk)) && !apply ==>
                r == if Reported(old(disk)) then WouldRecover(Destiny(old(disk))) else RecoveryStopped
    {
      if disk.marker.None? {
        r := RecoverOrphanSnapshot(apply);
      } else {
        ghost var pending := disk;
        r := RecoverMarked(apply);
        if Inv(pending) {
          ReachableIsConsistent(pending);
          if r.Recovers? {
            SettledIsTerminal(disk, pending);
          }
        }
      }
    }
  }
}
