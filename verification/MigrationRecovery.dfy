/**
 Recovery of a pending migration or rollback is resumable: whatever prefix of its changes a crash leaves
 behind, running it again heads for the same terminal state, and every effective change lowers a rank.
 */
module MigrationRecovery {
  import opened Wrappers
  import opened MigrationDisk

  datatype Recovered = RolledBackToV1 | CatalogFinalized | RollbackCancelled | RollbackFinalized | SnapshotRemoved

  /** Where recovery of a pending operation ends; the digests on disk alone decide it. */
  function Destiny(d: Disk): Recovered
    requires d.marker.Some?
  {
    var m := d.marker.value;
    match m.operation
    case Forward => if d.catalog.Some? then CatalogFinalized else RolledBackToV1
    case Rollback =>
      if m.phase == Prepared && d.catalog.Some? && d.source == m.source then RollbackCancelled else RollbackFinalized
  }

  /**
   The changes recovery makes when it heads for `destiny`: it never restores the source of a rollback,
   and it publishes a terminal marker only for a rollback it finishes. Without a pending marker it may only
   remove a redundant snapshot.
   */
  predicate RecoveryKind(c: Change, destiny: Recovered) {
    || (c.SourceRestore? && destiny == RolledBackToV1)
    || c.SealDrop? || c.SegmentDrop? || c.CatalogDrop? || c.MarkerClear? || c.JsonBegin? || c.JsonDrop?
    || (c.MarkerReplace? && c.marker.phase == RollbackCleanup && destiny == RollbackFinalized)
    || (c.SnapshotDrop? && destiny == SnapshotRemoved)
  }

  /** The terminal state of each outcome, for an operation that started from `pending`. */
  ghost predicate Terminal(d: Disk, outcome: Recovered, pending: Disk)
    requires pending.marker.Some?
  {
    && d.marker.None? && d.snapshot == Some(pending.marker.value.rollback)
    && match outcome
       case RolledBackToV1 => d.source == pending.marker.value.rollback && d.catalog.None? && d.segments == map[]
       case CatalogFinalized => d.source == pending.source && d.catalog == pending.catalog && CatalogIntact(d)
       case RollbackCancelled => d.source == pending.source && d.catalog == pending.catalog && CatalogIntact(d)
       case RollbackFinalized => d.source == pending.marker.value.rollback && d.catalog.None? && d.segments == map[]
       case SnapshotRemoved => false
  }

  /** A leftover that makes recovery refuse: an unpublished segment temporary, or a JSON temporary before cleanup. */
  predicate Blocked(d: Disk)
    requires d.marker.Some?
  {
    var m := d.marker.value;
    m.phase != RollbackCleanup &&
    (|| (d.sealing.Some? && (m.publication.None? || d.sealing.value.link != Some(m.publication.value.name)))
     || (Destiny(d) == RollbackFinalized && d.jsonTemporaries > 0))
  }

  // ---------------------------------------------------------------- rank

  function Bit(b: bool): nat {
    if b then 1 else 0
  }

  /** How many effective changes recovery can still make: phase, remaining files, marker. */
  function Rank(d: Disk): nat {
    match d.marker
    case None => 0
    case Some(m) =>
      if m.operation == Forward then
        if d.catalog.Some? then 1 + Bit(d.sealing.Some?)
        else 1 + Bit(d.source != m.rollback) + |d.segments| + Bit(d.sealing.Some?)
      else if m.phase == Prepared then 3 + |d.segments| + Bit(d.sealing.Some?)
      else 1 + |d.segments| + Bit(d.catalog.Some?)
  }

  /** A change that moves the protocol on, as opposed to a JSON temporary or rewriting the same bytes. */
  predicate Effective(d: Disk, c: Change) {
    || c.SealDrop? || c.SegmentDrop? || c.CatalogDrop? || c.MarkerReplace? || c.MarkerClear?
    || (c.SourceRestore? && c.body != d.source)
  }

  ghost predicate OnCourse(d: Disk, pending: Disk)
    requires pending.marker.Some?
  {
    && Inv(d)
    && match d.marker
       case None => Terminal(d, Destiny(pending), pending)
       case Some(m) =>
         && Destiny(d) == Destiny(pending) && m.operation == pending.marker.value.operation
         && m.rollback == pending.marker.value.rollback && d.snapshot == Some(m.rollback)
         && (Destiny(pending) in {CatalogFinalized, RollbackCancelled} ==>
               d.source == pending.source && d.catalog == pending.catalog)
  }

  lemma DropOne(d: Disk, name: string)
    requires name in d.segments
    ensures |d.segments - {name}| == |d.segments| - 1
  {
    assert (d.segments - {name}).Keys == d.segments.Keys - {name};
    assert |d.segments.Keys| == |d.segments| && |(d.segments - {name}).Keys| == |d.segments - {name}|;
  }

  lemma RecoveryChangeStaysOnCourse(d: Disk, c: Change, pending: Disk)
    requires pending.marker.Some? && OnCourse(d, pending)
    requires Allowed(d, c) && RecoveryKind(c, Destiny(pending))
    ensures OnCourse(Apply(d, c), pending)
  {
    EveryChangeKeepsInv(d, c);
  }

  predicate Removes(c: Change) {
    c.SegmentDrop? || c.SealDrop? || c.CatalogDrop?
  }

  /** The change lowers the rank if it is effective, and never raises it. */
  ghost predicate LowersRank(d: Disk, c: Change)
    requires Allowed(d, c)
  {
    if Effective(d, c) then d.marker.Some? ==> Rank(Apply(d, c)) < Rank(d) else Rank(Apply(d, c)) <= Rank(d)
  }

  lemma RemovalLowersRank(d: Disk, c: Change)
    requires Inv(d) && Allowed(d, c) && Removes(c)
    ensures LowersRank(d, c)
  {
    if c.SegmentDrop? {
      DropOne(d, c.name);
    }
  }

  lemma OtherChangeLowersRank(d: Disk, c: Change, destiny: Recovered)
    requires Inv(d) && Allowed(d, c) && RecoveryKind(c, destiny) && !Removes(c)
    requires d.marker.Some? ==> Destiny(d) == destiny
    ensures LowersRank(d, c)
  {
  }

  lemma RecoveryChangeLowersRank(d: Disk, c: Change, pending: Disk)
    requires pending.marker.Some? && OnCourse(d, pending)
    requires Allowed(d, c) && RecoveryKind(c, Destiny(pending))
    ensures d.marker.Some? && Effective(d, c) ==> Rank(Apply(d, c)) < Rank(d)
    ensures !Effective(d, c) ==> Rank(Apply(d, c)) <= Rank(d)
  {
    if Removes(c) {
      RemovalLowersRank(d, c);
    } else {
      OtherChangeLowersRank(d, c, Destiny(pending));
    }
  }

  /** The effective changes of a run, counted while a marker is pending. */
  ghost function EffectiveCount(d: Disk, run: seq<Change>): nat
    requires Legal(d, run)
    decreases |run|
  {
    if run == [] then 0
    else
      var before := run[..|run| - 1];
      EffectiveCount(d, before)
      + Bit(After(d, before).marker.Some? && Effective(After(d, before), run[|run| - 1]))
  }

  /** Recovery steps from any state on the way to a destiny stay on that way, and each effective one uses up rank. */
  lemma {:induction false} RecoveryStaysOnCourse(start: Disk, run: seq<Change>, pending: Disk)
    requires pending.marker.Some? && OnCourse(start, pending)
    requires Legal(start, run) && forall c <- run :: RecoveryKind(c, Destiny(pending))
    ensures OnCourse(After(start, run), pending)
    ensures EffectiveCount(start, run) + Rank(After(start, run)) <= Rank(start)
    decreases |run|
  {
    if run != [] {
      var before := run[..|run| - 1];
      RecoveryStaysOnCourse(start, before, pending);
      RecoveryChangeStaysOnCourse(After(start, before), run[|run| - 1], pending);
      RecoveryChangeLowersRank(After(start, before), run[|run| - 1], pending);
    }
  }

  /**
   Recovery is resumable and converges. From any reachable pending state, after any recovery steps: a pending marker
   still has its snapshot and the same destiny; a cleared marker means exactly the destined terminal state; and the
   number of effective changes made so far plus the remaining rank never exceeds the initial rank.
   */
  lemma RecoveryConverges(pending: Disk, run: seq<Change>)
    requires pending.marker.Some? && Inv(pending)
    requires Legal(pending, run) && forall c <- run :: RecoveryKind(c, Destiny(pending))
    ensures var now := After(pending, run);
            && (now.marker.None? ==> Terminal(now, Destiny(pending), pending))
            && (now.marker.Some? ==>
                  Destiny(now) == Destiny(pending) && now.snapshot == Some(pending.marker.value.rollback))
    ensures OnCourse(After(pending, run), pending)
    ensures EffectiveCount(pending, run) + Rank(After(pending, run)) <= Rank(pending)
  {
    RecoveryStaysOnCourse(pending, run, pending);
  }
}
