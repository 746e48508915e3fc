/**
 The files of the segmented-history protocol and every atomic change the protocol makes to them.

 A file's content stands for its SHA-256 digest and size (the digest is taken as injective). A change
 is one link, replace, unlink or completed write. `Allowed` holds what the code has established, from the
 files alone, when it makes that change; it never refers to where a process was. A crash between any two
 changes, during migration, rollback or recovery, is therefore just the end of a legal run.
 */
module MigrationDisk {
  import opened Wrappers
  import opened HistorySealing

  /** A database in some physical page layout, or a file whose write has not finished. */
  datatype Content = Image(db: Database, layout: nat) | Torn

  /** A published segment: file name and digest (a publication record or a catalog entry). */
  datatype Entry = Entry(name: string, digest: Content)

  datatype Catalog = Catalog(entries: seq<Entry>, rollback: Content)

  datatype Operation = Forward | Rollback

  datatype Phase = Prepared | SegmentReady | HotReady | RollbackCleanup

  /** The pending marker. `cleanup` authorizes the catalog and the segments it lists for deletion. */
  datatype Marker = Marker(
    operation: Operation,
    phase: Phase,
    rollback: Content,
    source: Content,
    publication: Option<Entry>,
    replacement: Option<Content>,
    cleanup: Option<Catalog>)

  /** A `.segment-*` temporary, and the published name it shares its inode with once linked. */
  datatype SealTemporary = SealTemporary(body: Content, link: Option<string>)

  /**
   The history directory. `jsonTemporaries` counts the `.migration-pending-*` and `.catalog-*` files in the
   segments directory. The copies a process stages beside the source are read by no other run; they appear
   as the content it renames over the source.
   */
  datatype Disk = Disk(
    source: Content,
    snapshot: Option<Content>,
    marker: Option<Marker>,
    catalog: Option<Catalog>,
    segments: map<string, Content>,
    sealing: Option<SealTemporary>,
    jsonTemporaries: nat)

  datatype Change =
    | SnapshotBegin | SnapshotFill | SnapshotDrop
    | JsonBegin | JsonDrop
    | MarkerLink(marker: Marker) | MarkerReplace(marker: Marker) | MarkerClear
    | SealBegin | SealFill(body: Content) | SealPublish(name: string) | SealDrop
    | SegmentDrop(name: string)
    | SourceSwap(body: Content) | SourceRestore(body: Content)
    | CatalogLink(catalog: Catalog) | CatalogDrop
    | ServiceWrite(body: Content)

  function Apply(d: Disk, c: Change): Disk
    requires Allowed(d, c)
  {
    match c
    case SnapshotBegin => d.(snapshot := Some(Torn))
    case SnapshotFill => d.(snapshot := Some(d.source))
    case SnapshotDrop => d.(snapshot := None)
    case JsonBegin => d.(jsonTemporaries := d.jsonTemporaries + 1)
    case JsonDrop => d.(jsonTemporaries := d.jsonTemporaries - 1)
    case MarkerLink(marker) => d.(marker := Some(marker))
    case MarkerReplace(marker) => d.(marker := Some(marker), jsonTemporaries := d.jsonTemporaries - 1)
    case MarkerClear => d.(marker := None)
    case SealBegin => d.(sealing := Some(SealTemporary(Torn, None)))
    case SealFill(body) => d.(sealing := Some(SealTemporary(body, None)))
    case SealPublish(name) =>
      d.(segments := d.segments[name := d.sealing.value.body],
         sealing := Some(d.sealing.value.(link := Some(name))))
    case SealDrop => d.(sealing := None)
    case SegmentDrop(name) => d.(segments := d.segments - {name})
    case SourceSwap(body) => d.(source := body)
    case SourceRestore(body) => d.(source := body)
    case CatalogLink(catalog) => d.(catalog := Some(catalog))
    case CatalogDrop => d.(catalog := None)
    case ServiceWrite(body) => d.(source := body)
  }

  // ---------------------------------------------------------------- what the catalog lists

  predicate DistinctNames(entries: seq<Entry>) {
    forall i, j | 0 <= i < j < |entries| :: entries[i].name != entries[j].name
  }

  /** The segment files a list of entries names. */
  function Listed(entries: seq<Entry>): (files: map<string, Content>)
    ensures forall name :: name in files <==> exists entry :: entry in entries && entry.name == name
    ensures forall name <- files :: Entry(name, files[name]) in entries
  {
    if entries == [] then map[]
    else
      var rest := Listed(entries[..|entries| - 1]);
      var last := entries[|entries| - 1];
      assert entries == entries[..|entries| - 1] + [last];
      rest[last.name := last.digest]
  }

  /** Every listed segment is present with the listed content, nothing else is, and the snapshot is kept. */
  predicate CatalogIntact(d: Disk) {
    && d.catalog.Some?
    && DistinctNames(d.catalog.value.entries)
    && d.segments == Listed(d.catalog.value.entries)
    && d.snapshot == Some(d.catalog.value.rollback)
    && d.sealing.None?
  }

  /** What the catalog reader verifies: each listed segment is there, has the listed bytes and one link. */
  predicate CatalogLoads(d: Disk) {
    && d.catalog.Some?
    && DistinctNames(d.catalog.value.entries)
    && forall entry <- d.catalog.value.entries ::
         entry.name in d.segments && d.segments[entry.name] == entry.digest && Unlinked(d, entry.name)
  }

  /** Only inventoried files survive beside the marker and the snapshot, each with its inventoried bytes. */
  predicate CleanDirectory(d: Disk, inventory: Catalog) {
    && d.jsonTemporaries == 0 && d.sealing.None?
    && (d.catalog.Some? ==> d.catalog.value == inventory)
    && forall name <- d.segments :: Entry(name, d.segments[name]) in inventory.entries
  }

  ghost predicate Splits(original: Content, segment: Content, hot: Content) {
    original.Image? && segment.Image? && hot.Image? && Conserves(original.db, segment.db, hot.db)
  }

  // ---------------------------------------------------------------- guards

  predicate Unlinked(d: Disk, name: string) {
    d.sealing.Some? ==> d.sealing.value.link != Some(name)
  }

  predicate ForwardPending(d: Disk, phase: Phase) {
    d.marker.Some? && d.marker.value.operation == Forward && d.marker.value.phase == phase
  }

  predicate RollbackPending(d: Disk, phase: Phase) {
    d.marker.Some? && d.marker.value.operation == Rollback && d.marker.value.phase == phase
  }

  /** Source and snapshot are both still the bytes the marker recorded for the way back. */
  predicate AtRollbackSource(d: Disk) {
    d.marker.Some? && d.source == d.marker.value.rollback && d.snapshot == Some(d.marker.value.rollback)
  }

  predicate MayLink(d: Disk, m: Marker) {
    && d.marker.None? && m.phase == Prepared && d.snapshot == Some(m.rollback) && m.source == d.source
    && m.publication.None? && m.replacement.None? && m.cleanup.None?
    && match m.operation
       case Forward => d.catalog.None? && m.rollback == d.source && d.sealing.None?
       case Rollback => CatalogLoads(d) && d.catalog.value.rollback == m.rollback
  }

  ghost predicate MayReplace(d: Disk, m: Marker) {
    && AtRollbackSource(d) && m.rollback == d.marker.value.rollback && m.source == m.rollback
    && m.operation == d.marker.value.operation
    && match m.phase
       case Prepared => false
       case SegmentReady =>
         && ForwardPending(d, Prepared) && d.catalog.None?
         && m.publication.Some? && m.replacement.None? && m.cleanup.None? && m.publication.value.name !in d.segments
       case HotReady =>
         && ForwardPending(d, SegmentReady) && d.catalog.None? && d.sealing.None?
         && m.publication.Some? && m.publication == d.marker.value.publication
         && m.publication.value.name in d.segments
         && d.segments[m.publication.value.name] == m.publication.value.digest
         && m.replacement.Some? && m.cleanup.None?
         && Splits(m.rollback, m.publication.value.digest, m.replacement.value)
       case RollbackCleanup =>
         && RollbackPending(d, Prepared) && CatalogLoads(d) && d.catalog.value.rollback == m.rollback
         && d.jsonTemporaries == 1 && CleanDirectory(d.(jsonTemporaries := 0), d.catalog.value)
         && m.cleanup == d.catalog && m.publication.None? && m.replacement.None?
  }

  predicate MayClear(d: Disk) {
    && d.marker.Some?
    && match d.marker.value.operation
       case Forward =>
         if d.catalog.Some? then
           && d.marker.value.phase == HotReady && d.marker.value.replacement == Some(d.source)
           && CatalogLoads(d) && d.catalog.value.rollback == d.marker.value.rollback
         else
           && AtRollbackSource(d)
           && (d.marker.value.publication.Some? ==> d.marker.value.publication.value.name !in d.segments)
       case Rollback =>
         if d.marker.value.phase == Prepared then
           if d.catalog.Some? then CatalogLoads(d) && d.source == d.marker.value.source
           else d.source == d.marker.value.rollback && d.segments == map[]
         else
           && AtRollbackSource(d) && d.catalog.None? && d.segments == map[]
           && d.sealing.None? && d.jsonTemporaries == 0
  }

  predicate MayDropSegment(d: Disk, name: string) {
    && AtRollbackSource(d) && d.catalog.None? && name in d.segments && Unlinked(d, name)
    && if d.marker.value.phase != RollbackCleanup then
         d.marker.value.publication == Some(Entry(name, d.segments[name]))
       else
         && d.marker.value.operation == Rollback && d.marker.value.cleanup.Some?
         && Entry(name, d.segments[name]) in d.marker.value.cleanup.value.entries
  }

  /** What the code has checked, or its own previous step has established, when it makes a change. */
  ghost predicate Allowed(d: Disk, c: Change) {
    match c
    case SnapshotBegin => d.marker.None? && d.catalog.None? && d.snapshot.None?
    case SnapshotFill => d.marker.None? && d.catalog.None? && d.snapshot == Some(Torn)
    case SnapshotDrop => d.marker.None? && d.catalog.None? && d.sealing.None?
    case JsonBegin => !RollbackPending(d, RollbackCleanup)
    case JsonDrop => d.jsonTemporaries > 0
    case MarkerLink(marker) => d.jsonTemporaries > 0 && MayLink(d, marker)
    case MarkerReplace(marker) => d.jsonTemporaries > 0 && MayReplace(d, marker)
    case MarkerClear => MayClear(d)
    case SealBegin => ForwardPending(d, Prepared) && d.sealing.None? && d.catalog.None?
    case SealFill(body) => ForwardPending(d, Prepared) && d.sealing == Some(SealTemporary(Torn, None))
    case SealPublish(name) =>
      && ForwardPending(d, SegmentReady) && AtRollbackSource(d) && d.catalog.None?
      && d.sealing.Some? && d.sealing.value.link.None? && name !in d.segments
      && d.marker.value.publication == Some(Entry(name, d.sealing.value.body))
    case SealDrop => d.sealing.Some?
    case SegmentDrop(name) => MayDropSegment(d, name)
    case SourceSwap(body) =>
      && ForwardPending(d, HotReady) && AtRollbackSource(d) && d.catalog.None?
      && d.marker.value.replacement == Some(body)
      && d.marker.value.publication.Some? && d.marker.value.publication.value.name in d.segments
    case SourceRestore(body) =>
      && d.marker.Some? && d.snapshot == Some(body) && body == d.marker.value.rollback
      && (d.marker.value.operation == Forward ==> d.catalog.None?)
      && (d.marker.value.operation == Rollback ==> d.marker.value.phase == Prepared && CatalogLoads(d))
    case CatalogLink(catalog) =>
      && ForwardPending(d, HotReady) && d.catalog.None? && d.jsonTemporaries > 0 && d.sealing.None?
      && d.marker.value.replacement == Some(d.source) && d.snapshot == Some(d.marker.value.rollback)
      && d.marker.value.publication.Some?
      && catalog == Catalog([d.marker.value.publication.value], d.marker.value.rollback)
      && d.marker.value.publication.value.name in d.segments
    case CatalogDrop =>
      && RollbackPending(d, RollbackCleanup) && AtRollbackSource(d)
      && d.catalog.Some? && d.marker.value.cleanup == d.catalog
    case ServiceWrite(body) => d.marker.None?
  }

  // ---------------------------------------------------------------- runs

  ghost predicate Legal(d: Disk, run: seq<Change>)
    decreases |run|, 0
  {
    run == [] || (Legal(d, run[..|run| - 1]) && Allowed(After(d, run[..|run| - 1]), run[|run| - 1]))
  }

  ghost function After(d: Disk, run: seq<Change>): Disk
    requires Legal(d, run)
    decreases |run|, 1
  {
    if run == [] then d else Apply(After(d, run[..|run| - 1]), run[|run| - 1])
  }

  lemma LegalAppend(d: Disk, run: seq<Change>, c: Change)
    requires Legal(d, run) && Allowed(After(d, run), c)
    ensures Legal(d, run + [c]) && After(d, run + [c]) == Apply(After(d, run), c)
  {
    assert (run + [c])[..|run|] == run;
  }

  lemma {:induction false} LegalPrefix(d: Disk, run: seq<Change>, n: nat)
    requires Legal(d, run) && n <= |run|
    ensures Legal(d, run[..n])
    decreases |run|
  {
    if n == |run| {
      assert run[..n] == run;
    } else {
      LegalPrefix(d, run[..|run| - 1], n);
      assert run[..|run| - 1][..n] == run[..n];
    }
  }

  // ---------------------------------------------------------------- the protocol invariant

  ghost predicate ForwardInv(d: Disk, m: Marker) {
    && m.source == m.rollback && m.cleanup.None? && m.phase != RollbackCleanup
    && (m.publication.Some? <==> m.phase != Prepared) && (m.replacement.Some? <==> m.phase == HotReady)
    && (d.source == m.rollback || m.replacement == Some(d.source))
    && (m.phase == Prepared ==> d.segments == map[])
    && (m.publication.Some? ==>
          d.segments == map[] || d.segments == map[m.publication.value.name := m.publication.value.digest])
    && (d.sealing.Some? && d.sealing.value.link.Some? ==>
          m.phase == SegmentReady && d.sealing.value.link.value in d.segments)
    && (m.phase == HotReady ==>
          && d.sealing.None?
          && Splits(m.rollback, m.publication.value.digest, m.replacement.value)
          && (d.source != m.rollback ==> d.segments != map[]))
    && (d.catalog.Some? ==>
          && m.phase == HotReady && m.replacement == Some(d.source)
          && d.catalog.value == Catalog([m.publication.value], m.rollback) && CatalogIntact(d))
  }

  ghost predicate RollbackPreparedInv(d: Disk, m: Marker) {
    && CatalogIntact(d) && d.catalog.value.rollback == m.rollback
    && (d.source == m.source || d.source == m.rollback)
    && m.publication.None? && m.replacement.None? && m.cleanup.None?
  }

  ghost predicate CleanupInv(d: Disk, m: Marker) {
    && d.source == m.source == m.rollback && m.cleanup.Some? && m.publication.None? && m.replacement.None?
    && DistinctNames(m.cleanup.value.entries) && m.cleanup.value.rollback == m.rollback
    && (d.catalog.Some? ==> d.catalog == m.cleanup && d.segments == Listed(m.cleanup.value.entries))
    && (forall name <- d.segments :: Entry(name, d.segments[name]) in m.cleanup.value.entries)
    && d.sealing.None? && d.jsonTemporaries == 0
  }

  /** What holds on disk after any number of protocol steps, finished or not. */
  ghost predicate Inv(d: Disk) {
    match d.marker
    case None =>
      && (d.catalog.Some? ==> CatalogIntact(d))
      && (d.catalog.None? ==>
            d.segments == map[] && (d.sealing.Some? ==> d.sealing.value.link.None? && d.snapshot.Some?))
    case Some(m) =>
      && d.snapshot == Some(m.rollback)
      && if m.operation == Forward then ForwardInv(d, m)
         else if m.phase == Prepared then RollbackPreparedInv(d, m)
         else m.phase == RollbackCleanup && CleanupInv(d, m)
  }

  lemma EveryChangeKeepsInv(d: Disk, c: Change)
    requires Inv(d) && Allowed(d, c)
    ensures Inv(Apply(d, c))
  {
    match c
    case CatalogLink(catalog) =>
      var publication := d.marker.value.publication.value;
      ListedOne(publication);
    case MarkerReplace(m) =>
      if m.phase == RollbackCleanup {
        assert forall name <- d.segments :: Entry(name, d.segments[name]) in m.cleanup.value.entries;
      }
    case SegmentDrop(name) =>
      assert forall other <- Apply(d, c).segments :: other in d.segments;
    case _ =>
  }

  lemma ListedOne(entry: Entry)
    ensures Listed([entry]) == map[entry.name := entry.digest]
  {
    assert [entry][..0] == [];
  }

  /** Crash anywhere, run anything next: the invariant holds after every prefix of every legal run. */
  lemma {:induction false} EveryRunKeepsInv(d: Disk, run: seq<Change>)
    requires Inv(d) && Legal(d, run)
    ensures Inv(After(d, run))
    decreases |run|
  {
    if run != [] {
      EveryRunKeepsInv(d, run[..|run| - 1]);
      EveryChangeKeepsInv(After(d, run[..|run| - 1]), run[|run| - 1]);
    }
  }
}
