/**
 Safety of the segmented-history protocol over every run: any interleaving of migration, rollback,
 recovery, exception cleanup, crashes and, while no marker is pending, the running service.
 */
module MigrationSafety {
  import opened Wrappers
  import opened HistorySealing
  import opened MigrationDisk

  function RowsOf(content: Content, table: Table): multiset<Row> {
    if content.Image? then multiset(content.db.Rows(table)) else multiset{}
  }

  function EntryRows(entries: seq<Entry>, table: Table): multiset<Row> {
    if entries == [] then multiset{}
    else EntryRows(entries[..|entries| - 1], table) + RowsOf(entries[|entries| - 1].digest, table)
  }

  /** What a reader shows: the hot rows, and the rows of the catalogued segments. */
  function Visible(d: Disk, table: Table): multiset<Row> {
    RowsOf(d.source, table) + if d.catalog.Some? then EntryRows(d.catalog.value.entries, table) else multiset{}
  }

  /**
   The rows the history is committed to. While a marker is pending this is what the disk will show
   once the operation has been finished or undone, whichever of the two recovery picks.
   */
  function Committed(d: Disk, table: Table): multiset<Row> {
    match d.marker
    case None => Visible(d, table)
    case Some(m) =>
      if m.operation == Rollback && m.phase == Prepared && d.source == m.source then Visible(d, table)
      else RowsOf(m.rollback, table)
  }

  /** The two changes that decide a rollback: the source replace, and the terminal marker. */
  predicate DecidesRollback(d: Disk, c: Change) {
    && d.marker.Some? && d.marker.value.operation == Rollback
    && (c.SourceRestore? || c.MarkerReplace?)
  }

  lemma OneEntryRows(entry: Entry, table: Table)
    ensures EntryRows([entry], table) == RowsOf(entry.digest, table)
  {
    assert [entry][..0] == [];
  }

  lemma SplitRows(original: Content, segment: Content, hot: Content, table: Table)
    requires Splits(original, segment, hot)
    ensures RowsOf(hot, table) + RowsOf(segment, table) == RowsOf(original, table)
  {
  }

  /** A published catalog and the hot replacement together show the original rows. */
  lemma PublishedShowsTheOriginal(d: Disk, table: Table)
    requires Inv(d) && d.marker.Some? && d.marker.value.operation == Forward && d.catalog.Some?
    ensures Visible(d, table) == RowsOf(d.marker.value.rollback, table)
  {
    var m := d.marker.value;
    OneEntryRows(m.publication.value, table);
    SplitRows(m.rollback, m.publication.value.digest, m.replacement.value, table);
  }

  lemma ClearingKeepsCommittedRows(d: Disk, table: Table)
    requires Inv(d) && MayClear(d)
    ensures Committed(d.(marker := None), table) == Committed(d, table)
  {
    if d.marker.value.operation == Forward && d.catalog.Some? {
      PublishedShowsTheOriginal(d, table);
    }
  }

  lemma LinkingKeepsCommittedRows(d: Disk, m: Marker, table: Table)
    requires Inv(d) && MayLink(d, m)
    ensures Committed(d.(marker := Some(m)), table) == Committed(d, table)
  {
  }

  lemma ReplacingKeepsCommittedRows(d: Disk, m: Marker, table: Table)
    requires Inv(d) && MayReplace(d, m)
    ensures Committed(d.(marker := Some(m)), table) == RowsOf(d.marker.value.rollback, table)
    ensures d.marker.value.operation == Forward ==> Committed(d.(marker := Some(m)), table) == Committed(d, table)
  {
  }

  /**
   No atomic change other than a service write and the two rollback decisions changes the committed rows;
   a rollback decision leaves them or sets them to the rows of the v1 snapshot.
   */
  lemma CommittedRowsAreStable(d: Disk, c: Change, table: Table)
    requires Inv(d) && Allowed(d, c) && !c.ServiceWrite?
    ensures !DecidesRollback(d, c) ==> Committed(Apply(d, c), table) == Committed(d, table)
    ensures DecidesRollback(d, c) ==>
              || Committed(Apply(d, c), table) == Committed(d, table)
              || Committed(Apply(d, c), table) == RowsOf(d.marker.value.rollback, table)
  {
    match c
    case MarkerClear => ClearingKeepsCommittedRows(d, table);
    case MarkerLink(m) => LinkingKeepsCommittedRows(d, m, table);
    case MarkerReplace(m) => ReplacingKeepsCommittedRows(d, m, table);
    case _ =>
  }

  /** Over a whole run without service writes and without a rollback decision, not one row is lost or added. */
  lemma {:induction false} RunKeepsCommittedRows(d: Disk, run: seq<Change>, table: Table)
    requires Inv(d) && Legal(d, run)
    requires forall i | 0 <= i < |run| :: !run[i].ServiceWrite?
    requires forall i | 0 <= i < |run| :: Legal(d, run[..i]) ==> !DecidesRollback(After(d, run[..i]), run[i])
    ensures Committed(After(d, run), table) == Committed(d, table)
    decreases |run|
  {
    if run != [] {
      var n := |run| - 1;
      var before := run[..n];
      forall i | 0 <= i < n
        ensures before[i] == run[i] && before[..i] == run[..i]
      {
      }
      RunKeepsCommittedRows(d, before, table);
      EveryRunKeepsInv(d, before);
      CommittedRowsAreStable(After(d, before), run[n], table);
    }
  }

  // ---------------------------------------------------------------- forward migration

  /** A quiesced v1 history that was never migrated. */
  predicate Fresh(d: Disk) {
    && d.marker.None? && d.catalog.None? && d.snapshot.None? && d.segments == map[] && d.sealing.None?
  }

  /** Migration, its cleanup and recovery only: the service is quiesced and no rollback is started. */
  predicate ForwardOnly(c: Change) {
    !c.ServiceWrite? && (c.MarkerLink? ==> c.marker.operation == Forward)
  }

  /** A complete catalog of one segment that, with the hot rows, holds exactly the rows of `v1`. */
  ghost predicate Migrated(d: Disk, v1: Content) {
    && CatalogIntact(d) && d.catalog.value.rollback == v1 && |d.catalog.value.entries| == 1
    && Splits(v1, d.catalog.value.entries[0].digest, d.source)
  }

  ghost predicate ForwardRunInv(d: Disk, v1: Content) {
    && Inv(d)
    && (d.marker.None? && d.catalog.None? ==> d.source == v1)
    && (d.marker.Some? ==> d.marker.value.operation == Forward && d.marker.value.rollback == v1)
    && (d.catalog.Some? ==> Migrated(d, v1))
  }

  lemma ForwardChangeKeepsRunInv(d: Disk, c: Change, v1: Content)
    requires ForwardRunInv(d, v1) && Allowed(d, c) && ForwardOnly(c)
    ensures ForwardRunInv(Apply(d, c), v1)
  {
    EveryChangeKeepsInv(d, c);
  }

  lemma {:induction false} ForwardRunsKeepRunInv(d: Disk, run: seq<Change>, v1: Content)
    requires ForwardRunInv(d, v1) && Legal(d, run) && forall c <- run :: ForwardOnly(c)
    ensures ForwardRunInv(After(d, run), v1)
    decreases |run|
  {
    if run != [] {
      var before := run[..|run| - 1];
      ForwardRunsKeepRunInv(d, before, v1);
      ForwardChangeKeepsRunInv(After(d, before), run[|run| - 1], v1);
    }
  }

  /**
   Crash safety of forward migration. After every run from an unmigrated history, with no pending marker the
   disk holds either the original v1 bytes and no catalog, or a complete catalog that with the hot rows
   conserves them; with a pending marker the snapshot still holds the original bytes.
   */
  lemma ForwardMigrationIsCrashSafe(d: Disk, run: seq<Change>)
    requires Fresh(d) && Legal(d, run) && forall c <- run :: ForwardOnly(c)
    ensures var now := After(d, run);
            && (now.marker.None? ==> (now.source == d.source && now.catalog.None?) || Migrated(now, d.source))
            && (now.marker.Some? ==> now.snapshot == Some(d.source))
  {
    ForwardRunsKeepRunInv(d, run, d.source);
  }

  // ---------------------------------------------------------------- rollback

  /** Rollback and recovery only. */
  predicate RollbackOnly(c: Change) {
    !c.ServiceWrite? && (c.MarkerLink? ==> c.marker.operation == Rollback)
  }

  predicate SameView(d: Disk, start: Disk) {
    d.source == start.source && d.catalog == start.catalog && d.segments == start.segments
  }

  /** The exact bytes of the v1 snapshot, with no catalog and no segment left. */
  predicate BackAtV1(d: Disk, v1: Content) {
    d.source == v1 && d.catalog.None? && d.segments == map[]
  }

  ghost predicate RollbackRunInv(d: Disk, start: Disk, v1: Content) {
    && Inv(d)
    && (d.marker.None? ==> SameView(d, start) || BackAtV1(d, v1))
    && (d.marker.Some? ==>
          var m := d.marker.value;
          && m.operation == Rollback && m.rollback == v1
          && (m.phase == Prepared ==>
                m.source == start.source && d.catalog == start.catalog && d.segments == start.segments)
          && (m.phase == RollbackCleanup ==> m.cleanup == start.catalog))
    && (forall name <- d.segments :: name in start.segments && d.segments[name] == start.segments[name])
    && (d.catalog != start.catalog || d.segments != start.segments ==> d.source == v1)
  }

  lemma RollbackChangeKeepsRunInv(d: Disk, c: Change, start: Disk, v1: Content)
    requires start.marker.None? && CatalogIntact(start) && start.snapshot == Some(v1)
    requires RollbackRunInv(d, start, v1) && Allowed(d, c) && RollbackOnly(c)
    ensures RollbackRunInv(Apply(d, c), start, v1)
  {
    EveryChangeKeepsInv(d, c);
  }

  lemma {:induction false} RollbackRunsKeepRunInv(d: Disk, run: seq<Change>, start: Disk, v1: Content)
    requires start.marker.None? && CatalogIntact(start) && start.snapshot == Some(v1)
    requires RollbackRunInv(d, start, v1) && Legal(d, run) && forall c <- run :: RollbackOnly(c)
    ensures RollbackRunInv(After(d, run), start, v1)
    decreases |run|
  {
    if run != [] {
      var before := run[..|run| - 1];
      RollbackRunsKeepRunInv(d, before, start, v1);
      RollbackChangeKeepsRunInv(After(d, before), run[|run| - 1], start, v1);
    }
  }

  /**
   Rollback is atomic under crashes. After every run of rollbacks and recoveries from a segmented history: with
   no pending marker the disk shows exactly the starting segmented state or exactly the v1 bytes; every
   surviving segment is a catalogued one with its catalogued content; and a catalog or segment is missing only
   once the source equals the v1 snapshot.
   */
  lemma RollbackIsAtomic(start: Disk, run: seq<Change>)
    requires start.marker.None? && CatalogIntact(start) && Legal(start, run) && forall c <- run :: RollbackOnly(c)
    ensures var now, v1 := After(start, run), start.catalog.value.rollback;
            && (now.marker.None? ==> SameView(now, start) || BackAtV1(now, v1))
            && (forall name <- now.segments :: name in start.segments && now.segments[name] == start.segments[name])
            && (now.catalog != start.catalog || now.segments != start.segments ==> now.source == v1)
  {
    RollbackRunsKeepRunInv(start, run, start, start.catalog.value.rollback);
  }

  /**
   A crash between linking the catalog and dropping its JSON temporary is finalized by recovery, but the
   temporary stays: the history is intact, and its directory is no longer clean for a later rollback cleanup.
   */
  lemma CatalogLinkCrashLeavesUncleanDirectory(d: Disk, catalog: Catalog)
    requires Inv(d) && Allowed(d, CatalogLink(catalog))
    ensures var crashed := Apply(d, CatalogLink(catalog));
            && Inv(crashed) && Allowed(crashed, MarkerClear)
            && var recovered := Apply(crashed, MarkerClear);
               && Inv(recovered) && recovered.marker.None? && CatalogIntact(recovered)
               && !CleanDirectory(recovered, catalog)
  {
    EveryChangeKeepsInv(d, CatalogLink(catalog));
    var crashed := Apply(d, CatalogLink(catalog));
    assert CatalogLoads(crashed) by {
      var entry := d.marker.value.publication.value;
      assert catalog.entries == [entry] && d.segments[entry.name] == entry.digest;
    }
    EveryChangeKeepsInv(crashed, MarkerClear);
  }
}
