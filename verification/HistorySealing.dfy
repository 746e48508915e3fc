/**
 Sealing a history segment and staging the matching hot database.

 A database is three tables of timestamped rows plus the current slot state. Sealing copies the
 database and deletes the rows at or after the cutoff; staging copies it and deletes the rows
 before the cutoff. SQLite's `julianday` is a parameter: it may reject a text that Python accepts,
 and a comparison with its NULL deletes nothing.
 */
module HistorySealing {
  import opened Wrappers

  /**
   A timestamp text, by what Python's ISO-8601 parser makes of it. Wall times are microseconds since
   0001-01-01T00:00, where the calendar begins.
   */
  datatype Timestamp = Malformed(raw: string) | Naive(wall: int) | Zoned(wall: int, offset: int)

  const MICROSECONDS_PER_DAY: int := 86_400_000_000

  /** The calendar ends with the year 9999. */
  const CALENDAR_DAYS: int := 3_652_059

  datatype SealError =
    CutoffInvalid | CutoffOutOfRange | RowTimestampInvalid | RowTimestampUnsupported | NothingBeforeCutoff

  /** SQLite's reading of a timestamp text; None is its NULL. */
  type Julian = Timestamp -> Option<int>

  datatype Row = Row(stamp: Option<Timestamp>, body: int)

  datatype Table = SlotEvents | MetricSamples | MetricRollups

  const HISTORY_TABLES: seq<Table> := [SlotEvents, MetricSamples, MetricRollups]

  datatype Database = Database(events: seq<Row>, samples: seq<Row>, rollups: seq<Row>, current: map<string, string>) {
    function Rows(table: Table): seq<Row> {
      match table
      case SlotEvents => events
      case MetricSamples => samples
      case MetricRollups => rollups
    }

    function With(table: Table, rows: seq<Row>): Database {
      match table
      case SlotEvents => this.(events := rows)
      case MetricSamples => this.(samples := rows)
      case MetricRollups => this.(rollups := rows)
    }
  }

  // ---------------------------------------------------------------- cutoff

  function FloorDay(instant: int): int {
    instant - instant % MICROSECONDS_PER_DAY
  }

  /** The conversion to UTC overflows outside the calendar. */
  predicate InCalendar(instant: int) {
    0 <= instant < CALENDAR_DAYS * MICROSECONDS_PER_DAY
  }

  function NormalizeCutoff(value: Timestamp): (r: Result<Timestamp, SealError>) {
    match value
    case Zoned(wall, offset) =>
      if InCalendar(wall - offset) then Success(Zoned(FloorDay(wall - offset), 0)) else Failure(CutoffOutOfRange)
    case _ => Failure(CutoffInvalid)
  }

  /** The normalized cutoff is the UTC midnight at or before the given instant; normalizing again changes nothing. */
  lemma CutoffIsTheUtcMidnightBefore(value: Timestamp)
    ensures NormalizeCutoff(value).Success? <==> value.Zoned? && InCalendar(value.wall - value.offset)
    ensures NormalizeCutoff(value) == Failure(CutoffInvalid) <==> !value.Zoned?
    ensures NormalizeCutoff(value).Success? ==>
              var cutoff := NormalizeCutoff(value).value;
              && cutoff.Zoned? && cutoff.offset == 0 && cutoff.wall % MICROSECONDS_PER_DAY == 0
              && InCalendar(cutoff.wall)
              && cutoff.wall <= value.wall - value.offset < cutoff.wall + MICROSECONDS_PER_DAY
              && NormalizeCutoff(cutoff) == Success(cutoff)
  {
    if NormalizeCutoff(value).Success? {
      var instant := value.wall - value.offset;
      var day := instant / MICROSECONDS_PER_DAY;
      assert FloorDay(instant) == MICROSECONDS_PER_DAY * day;
      assert MICROSECONDS_PER_DAY * day % MICROSECONDS_PER_DAY == 0;
    }
  }

  // ---------------------------------------------------------------- deletes

  /** `julianday(stamp) < julianday(cutoff)` in SQL's three-valued logic. */
  function Before(julian: Julian, row: Row, cutoff: Timestamp): Option<bool> {
    if row.stamp.Some? && julian(row.stamp.value).Some? && julian(cutoff).Some? then
      Some(julian(row.stamp.value).value < julian(cutoff).value)
    else
      None
  }

  /**
   `DELETE ... WHERE julianday(stamp) < julianday(cutoff)` when `before`, else the delete with `>=`:
   a row goes only when the comparison is true, so a NULL deletes nothing.
   */
  function Delete(julian: Julian, rows: seq<Row>, cutoff: Timestamp, before: bool): (kept: seq<Row>) {
    if rows == [] then []
    else if Before(julian, rows[0], cutoff) == Some(before) then Delete(julian, rows[1..], cutoff, before)
    else [rows[0]] + Delete(julian, rows[1..], cutoff, before)
  }

  /** The rows a sealed segment keeps. */
  function SegmentRows(julian: Julian, rows: seq<Row>, cutoff: Timestamp): seq<Row> {
    Delete(julian, rows, cutoff, false)
  }

  /** The rows the staged hot database keeps. */
  function HotRows(julian: Julian, rows: seq<Row>, cutoff: Timestamp): seq<Row> {
    Delete(julian, rows, cutoff, true)
  }

  function SegmentOf(julian: Julian, db: Database, cutoff: Timestamp): Database {
    Database(SegmentRows(julian, db.events, cutoff), SegmentRows(julian, db.samples, cutoff),
             SegmentRows(julian, db.rollups, cutoff), map[])
  }

  function HotOf(julian: Julian, db: Database, cutoff: Timestamp): Database {
    Database(HotRows(julian, db.events, cutoff), HotRows(julian, db.samples, cutoff),
             HotRows(julian, db.rollups, cutoff), db.current)
  }

  /** The rows SQL cannot place on either side of the cutoff. */
  function Unplaced(julian: Julian, rows: seq<Row>, cutoff: Timestamp): seq<Row> {
    if rows == [] then []
    else (if Before(julian, rows[0], cutoff).None? then [rows[0]] else []) + Unplaced(julian, rows[1..], cutoff)
  }

  lemma AddToBothSides(x: multiset<Row>, a: multiset<Row>, b: multiset<Row>, c: multiset<Row>, d: multiset<Row>)
    requires a + b == c + d
    ensures (x + a) + b == (x + c) + d && a + (x + b) == (x + c) + d
    ensures (x + a) + (x + b) == (x + c) + (x + d)
  {
    assert (x + a) + b == x + (a + b) == (x + c) + d;
    assert (x + a) + (x + b) == (x + x) + (a + b) == (x + c) + (x + d);
  }

  /** No row is lost; the rows without a readable timestamp, and only those, are kept twice. */
  lemma {:induction false} DeletesPartition(julian: Julian, rows: seq<Row>, cutoff: Timestamp)
    ensures multiset(SegmentRows(julian, rows, cutoff)) + multiset(HotRows(julian, rows, cutoff))
         == multiset(rows) + multiset(Unplaced(julian, rows, cutoff))
  {
    if rows != [] {
      var rest := rows[1..];
      DeletesPartition(julian, rest, cutoff);
      assert rows == [rows[0]] + rest;
      var kept, hot := SegmentRows(julian, rest, cutoff), HotRows(julian, rest, cutoff);
      var unplaced := Unplaced(julian, rest, cutoff);
      AddToBothSides(multiset{rows[0]}, multiset(kept), multiset(hot), multiset(rest), multiset(unplaced));
      match Before(julian, rows[0], cutoff)
      case Some(true) =>
        assert SegmentRows(julian, rows, cutoff) == [rows[0]] + kept;
        assert HotRows(julian, rows, cutoff) == hot && Unplaced(julian, rows, cutoff) == unplaced;
      case Some(false) =>
        assert HotRows(julian, rows, cutoff) == [rows[0]] + hot;
        assert SegmentRows(julian, rows, cutoff) == kept && Unplaced(julian, rows, cutoff) == unplaced;
      case None =>
        assert SegmentRows(julian, rows, cutoff) == [rows[0]] + kept;
        assert HotRows(julian, rows, cutoff) == [rows[0]] + hot;
        assert Unplaced(julian, rows, cutoff) == [rows[0]] + unplaced;
    }
  }

  lemma {:induction false} DeletedRows(julian: Julian, rows: seq<Row>, cutoff: Timestamp, before: bool)
    ensures forall row :: row in Delete(julian, rows, cutoff, before)
                     <==> row in rows && Before(julian, row, cutoff) != Some(before)
  {
    if rows != [] {
      DeletedRows(julian, rows[1..], cutoff, before);
      assert rows == [rows[0]] + rows[1..];
    }
  }

  lemma {:induction false} UnplacedRows(julian: Julian, rows: seq<Row>, cutoff: Timestamp)
    ensures Unplaced(julian, rows, cutoff) == [] <==> forall row <- rows :: Before(julian, row, cutoff).Some?
  {
    if rows != [] {
      UnplacedRows(julian, rows[1..], cutoff);
      assert rows == [rows[0]] + rows[1..];
    }
  }

  /** Segment and hot together hold exactly the original rows, and the current slot state stays hot only. */
  ghost predicate Conserves(original: Database, segment: Database, hot: Database) {
    && (forall table: Table ::
          multiset(segment.Rows(table)) + multiset(hot.Rows(table)) == multiset(original.Rows(table)))
    && segment.current == map[]
    && hot.current == original.current
  }

  ghost predicate Placed(julian: Julian, db: Database, cutoff: Timestamp) {
    forall table: Table, row | row in db.Rows(table) :: Before(julian, row, cutoff).Some?
  }

  lemma TableSides(julian: Julian, db: Database, cutoff: Timestamp, table: Table)
    ensures SegmentOf(julian, db, cutoff).Rows(table) == SegmentRows(julian, db.Rows(table), cutoff)
    ensures HotOf(julian, db, cutoff).Rows(table) == HotRows(julian, db.Rows(table), cutoff)
  {
  }

  /** Sealing and staging partition a database exactly when SQL can read every row's timestamp and the cutoff. */
  lemma SealingPartitionsExactlyWhenPlaced(julian: Julian, db: Database, cutoff: Timestamp)
    ensures Conserves(db, SegmentOf(julian, db, cutoff), HotOf(julian, db, cutoff)) <==> Placed(julian, db, cutoff)
  {
    var segment, hot := SegmentOf(julian, db, cutoff), HotOf(julian, db, cutoff);
    forall table: Table
      ensures (multiset(segment.Rows(table)) + multiset(hot.Rows(table)) == multiset(db.Rows(table)))
         <==> forall row <- db.Rows(table) :: Before(julian, row, cutoff).Some?
    {
      var rows := db.Rows(table);
      var unplaced := Unplaced(julian, rows, cutoff);
      DeletesPartition(julian, rows, cutoff);
      UnplacedRows(julian, rows, cutoff);
      TableSides(julian, db, cutoff, table);
      if unplaced != [] {
        assert |multiset(rows) + multiset(unplaced)| == |rows| + |unplaced|;
        assert |multiset(rows)| == |rows|;
      }
    }
  }

  /** A placed row lands on exactly one side, by the cutoff; the row counts of the two sides add up. */
  lemma PlacedRowsLandOnOneSide(julian: Julian, db: Database, cutoff: Timestamp, table: Table)
    requires Placed(julian, db, cutoff)
    ensures forall row :: row in SegmentOf(julian, db, cutoff).Rows(table)
                     <==> row in db.Rows(table) && Before(julian, row, cutoff) == Some(true)
    ensures forall row :: row in HotOf(julian, db, cutoff).Rows(table)
                     <==> row in db.Rows(table) && Before(julian, row, cutoff) == Some(false)
    ensures |SegmentOf(julian, db, cutoff).Rows(table)| + |HotOf(julian, db, cutoff).Rows(table)| == |db.Rows(table)|
  {
    var rows := db.Rows(table);
    TableSides(julian, db, cutoff, table);
    assert forall row <- rows :: Before(julian, row, cutoff).Some?;
    DeletedRows(julian, rows, cutoff, false);
    DeletedRows(julian, rows, cutoff, true);
    SideCounts(julian, rows, cutoff);
  }

  lemma {:induction false} SideCounts(julian: Julian, rows: seq<Row>, cutoff: Timestamp)
    requires forall row <- rows :: Before(julian, row, cutoff).Some?
    ensures |SegmentRows(julian, rows, cutoff)| + |HotRows(julian, rows, cutoff)| == |rows|
  {
    if rows != [] {
      SideCounts(julian, rows[1..], cutoff);
    }
  }

  // ---------------------------------------------------------------- coverage

  function Instant(stamp: Timestamp): int
    requires stamp.Zoned?
  {
    stamp.wall - stamp.offset
  }

  predicate Readable(julian: Julian, stamp: Timestamp) {
    stamp.Zoned? && julian(stamp).Some?
  }

  /** The non-null timestamps of some rows, in row order. */
  function Stamps(rows: seq<Row>): seq<Timestamp> {
    if rows == [] then []
    else
      var last := rows[|rows| - 1].stamp;
      Stamps(rows[..|rows| - 1]) + (if last.Some? then [last.value] else [])
  }

  function AllStamps(db: Database): seq<Timestamp> {
    Stamps(db.events) + Stamps(db.samples) + Stamps(db.rollups)
  }

  /** Position `i` is the first whose instant no other one precedes. */
  ghost predicate FirstEarliest(stamps: seq<Timestamp>, i: int)
    requires forall other <- stamps :: other.Zoned?
  {
    && 0 <= i < |stamps|
    && (forall j | 0 <= j < |stamps| :: Instant(stamps[i]) <= Instant(stamps[j]))
    && (forall j | 0 <= j < i :: Instant(stamps[i]) < Instant(stamps[j]))
  }

  ghost predicate FirstLatest(stamps: seq<Timestamp>, i: int)
    requires forall other <- stamps :: other.Zoned?
  {
    && 0 <= i < |stamps|
    && (forall j | 0 <= j < |stamps| :: Instant(stamps[j]) <= Instant(stamps[i]))
    && (forall j | 0 <= j < i :: Instant(stamps[j]) < Instant(stamps[i]))
  }

  ghost predicate IsEarliest(stamps: seq<Timestamp>, stamp: Timestamp)
    requires forall other <- stamps :: other.Zoned?
  {
    exists i :: FirstEarliest(stamps, i) && stamps[i] == stamp
  }

  ghost predicate IsLatest(stamps: seq<Timestamp>, stamp: Timestamp)
    requires forall other <- stamps :: other.Zoned?
  {
    exists i :: FirstLatest(stamps, i) && stamps[i] == stamp
  }

  datatype Coverage = Coverage(earliest: Timestamp, latest: Timestamp)

  ghost predicate Covers(stamps: seq<Timestamp>, coverage: Option<Coverage>) {
    && (forall stamp <- stamps :: stamp.Zoned?)
    && (coverage.None? <==> stamps == [])
    && (coverage.Some? ==>
          && coverage.value.earliest.Zoned? && coverage.value.latest.Zoned?
          && IsEarliest(stamps, coverage.value.earliest) && IsLatest(stamps, coverage.value.latest))
  }

  /** One step of the running minimum and maximum. */
  function Extend(coverage: Option<Coverage>, stamp: Timestamp): Option<Coverage>
    requires stamp.Zoned? && (coverage.Some? ==> coverage.value.earliest.Zoned? && coverage.value.latest.Zoned?)
  {
    if coverage.None? then Some(Coverage(stamp, stamp))
    else Some(Coverage(
                if Instant(stamp) < Instant(coverage.value.earliest) then stamp else coverage.value.earliest,
                if Instant(stamp) > Instant(coverage.value.latest) then stamp else coverage.value.latest))
  }

  lemma ExtendCovers(stamps: seq<Timestamp>, coverage: Option<Coverage>, stamp: Timestamp)
    requires Covers(stamps, coverage) && stamp.Zoned?
    ensures Covers(stamps + [stamp], Extend(coverage, stamp))
  {
    var more := stamps + [stamp];
    if coverage.None? {
      assert FirstEarliest(more, 0) && FirstLatest(more, 0);
    } else {
      ExtendEarliest(stamps, coverage.value.earliest, stamp);
      ExtendLatest(stamps, coverage.value.latest, stamp);
    }
  }

  lemma ExtendEarliest(stamps: seq<Timestamp>, earliest: Timestamp, stamp: Timestamp)
    requires (forall other <- stamps :: other.Zoned?) && earliest.Zoned? && stamp.Zoned?
    requires IsEarliest(stamps, earliest)
    ensures IsEarliest(stamps + [stamp], if Instant(stamp) < Instant(earliest) then stamp else earliest)
  {
    var i :| FirstEarliest(stamps, i) && stamps[i] == earliest;
    var j := if Instant(stamp) < Instant(earliest) then |stamps| else i;
    assert FirstEarliest(stamps + [stamp], j);
  }

  lemma ExtendLatest(stamps: seq<Timestamp>, latest: Timestamp, stamp: Timestamp)
    requires (forall other <- stamps :: other.Zoned?) && latest.Zoned? && stamp.Zoned?
    requires IsLatest(stamps, latest)
    ensures IsLatest(stamps + [stamp], if Instant(stamp) > Instant(latest) then stamp else latest)
  {
    var i :| FirstLatest(stamps, i) && stamps[i] == latest;
    var j := if Instant(stamp) > Instant(latest) then |stamps| else i;
    assert FirstLatest(stamps + [stamp], j);
  }

  /** The error the scan raises at a timestamp. */
  function ReadError(julian: Julian, stamp: Timestamp): Option<SealError> {
    if !stamp.Zoned? then Some(RowTimestampInvalid)
    else if julian(stamp).None? then Some(RowTimestampUnsupported)
    else None
  }

  /** The error of the first unreadable timestamp. */
  function FirstError(julian: Julian, stamps: seq<Timestamp>): Option<SealError> {
    if stamps == [] then None
    else
      var before := FirstError(julian, stamps[..|stamps| - 1]);
      if before.Some? then before else ReadError(julian, stamps[|stamps| - 1])
  }

  lemma {:induction false} NoErrorMeansReadable(julian: Julian, stamps: seq<Timestamp>)
    ensures FirstError(julian, stamps).None? <==> forall stamp <- stamps :: Readable(julian, stamp)
  {
    if stamps != [] {
      var rest, last := stamps[..|stamps| - 1], stamps[|stamps| - 1];
      NoErrorMeansReadable(julian, rest);
      assert stamps == rest + [last] && last in stamps && forall stamp <- rest :: stamp in stamps;
      assert ReadError(julian, last).None? <==> Readable(julian, last);
    }
  }

  lemma {:induction false} FirstErrorOfConcat(julian: Julian, a: seq<Timestamp>, b: seq<Timestamp>)
    ensures FirstError(julian, a + b)
         == if FirstError(julian, a).Some? then FirstError(julian, a) else FirstError(julian, b)
  {
    if b == [] {
      assert a + b == a;
    } else {
      assert (a + b)[..|a + b| - 1] == a + b[..|b| - 1];
      FirstErrorOfConcat(julian, a, b[..|b| - 1]);
    }
  }

  /** The scan of one table, continuing from the coverage of the stamps already seen. */
  method TableCoverage(julian: Julian, rows: seq<Row>, start: Option<Coverage>, ghost seen: seq<Timestamp>)
    returns (r: Result<Option<Coverage>, SealError>)
    requires Covers(seen, start)
    ensures match FirstError(julian, Stamps(rows))
            case Some(error) => r == Failure(error)
            case None => r.Success? && Covers(seen + Stamps(rows), r.value)
  {
    var coverage := start;
    assert seen + [] == seen;
    for i := 0 to |rows|
      invariant Covers(seen + Stamps(rows[..i]), coverage) && FirstError(julian, Stamps(rows[..i])).None?
    {
      assert rows[..i + 1][..i] == rows[..i];
      if rows[i].stamp.Some? {
        var stamp := rows[i].stamp.value;
        NextStamp(julian, rows, i);
        var error := ReadError(julian, stamp);
        if error.Some? {
          ErrorStays(julian, rows, i + 1);
          return Failure(error.value);
        }
        NextCoverage(seen, Stamps(rows[..i]), coverage, stamp);
        coverage := Extend(coverage, stamp);
      } else {
        assert Stamps(rows[..i + 1]) == Stamps(rows[..i]);
      }
    }
    assert rows[..|rows|] == rows;
    return Success(coverage);
  }

  lemma NextCoverage(seen: seq<Timestamp>, before: seq<Timestamp>, coverage: Option<Coverage>, stamp: Timestamp)
    requires Covers(seen + before, coverage) && stamp.Zoned?
    ensures Covers(seen + (before + [stamp]), Extend(coverage, stamp))
  {
    ExtendCovers(seen + before, coverage, stamp);
    assert seen + (before + [stamp]) == (seen + before) + [stamp];
  }

  lemma NextStamp(julian: Julian, rows: seq<Row>, i: nat)
    requires i < |rows| && rows[i].stamp.Some? && FirstError(julian, Stamps(rows[..i])).None?
    ensures Stamps(rows[..i + 1]) == Stamps(rows[..i]) + [rows[i].stamp.value]
    ensures FirstError(julian, Stamps(rows[..i + 1])) == ReadError(julian, rows[i].stamp.value)
  {
    assert rows[..i + 1][..i] == rows[..i];
    var before, stamp := Stamps(rows[..i]), rows[i].stamp.value;
    assert (before + [stamp])[..|before|] == before;
  }

  lemma {:induction false} ErrorStays(julian: Julian, rows: seq<Row>, n: nat)
    requires n <= |rows| && FirstError(julian, Stamps(rows[..n])).Some?
    ensures FirstError(julian, Stamps(rows)) == FirstError(julian, Stamps(rows[..n]))
    decreases |rows| - n
  {
    if n == |rows| {
      assert rows[..n] == rows;
    } else {
      assert rows[..n + 1][..n] == rows[..n];
      var before, added := Stamps(rows[..n]), if rows[n].stamp.Some? then [rows[n].stamp.value] else [];
      assert Stamps(rows[..n + 1]) == before + added;
      FirstErrorOfConcat(julian, before, added);
      ErrorStays(julian, rows, n + 1);
    }
  }

  /** `_history_coverage`: the running scan over all tables finds the extreme instants, or the first unreadable row. */
  method HistoryCoverage(julian: Julian, db: Database) returns (r: Result<Option<Coverage>, SealError>)
    ensures match FirstError(julian, AllStamps(db))
            case Some(error) => r == Failure(error)
            case None => r.Success? && Covers(AllStamps(db), r.value)
  {
    r := TableCoverage(julian, db.events, None, []);
    assert [] + Stamps(db.events) == Stamps(db.events);
    FirstErrorOfConcat(julian, Stamps(db.events), Stamps(db.samples));
    FirstErrorOfConcat(julian, Stamps(db.events) + Stamps(db.samples), Stamps(db.rollups));
    if r.Success? {
      r := TableCoverage(julian, db.samples, r.value, Stamps(db.events));
      if r.Success? {
        r := TableCoverage(julian, db.rollups, r.value, Stamps(db.events) + Stamps(db.samples));
      }
    }
  }

  // ---------------------------------------------------------------- sealing

  datatype SealedCopy = SealedCopy(db: Database, coverage: Coverage, rowCounts: map<Table, nat>)

  /** What a successful seal of `source` at `cutoff` hands to publication. */
  ghost predicate SealOf(julian: Julian, source: Database, cutoff: Timestamp, sealed: SealedCopy) {
    && sealed.db == SegmentOf(julian, source, cutoff)
    && sealed.rowCounts.Keys == {SlotEvents, MetricSamples, MetricRollups}
    && (forall table <- sealed.rowCounts.Keys :: sealed.rowCounts[table] == |sealed.db.Rows(table)|)
    && Covers(AllStamps(sealed.db), Some(sealed.coverage))
  }

  /**
   `_copy_and_prune` followed by `_segment_coverage`: copy everything, refuse unreadable timestamps,
   delete table by table, drop the current slot state, count, and refuse an empty segment.
   */
  method SealCopy(julian: Julian, source: Database, cutoff: Timestamp) returns (r: Result<SealedCopy, SealError>)
    ensures r.Success? ==> SealOf(julian, source, cutoff, r.value)
    ensures r.Success? <==>
              && (forall stamp <- AllStamps(source) :: Readable(julian, stamp))
              && AllStamps(SegmentOf(julian, source, cutoff)) != []
    ensures FirstError(julian, AllStamps(source)).Some? ==> r == Failure(FirstError(julian, AllStamps(source)).value)
    ensures FirstError(julian, AllStamps(source)).None? && r.Failure? ==> r.error == NothingBeforeCutoff
  {
    var copy := source;
    var readable := HistoryCoverage(julian, copy);
    NoErrorMeansReadable(julian, AllStamps(source));
    if readable.Failure? { return Failure(readable.error); }
    copy := PruneSegment(julian, copy, cutoff);
    var counts := CountRows(copy);
    KeptStamps(julian, source, cutoff);
    NoErrorMeansReadable(julian, AllStamps(copy));
    var coverage := HistoryCoverage(julian, copy);
    if coverage.value.None? { return Failure(NothingBeforeCutoff); }
    return Success(SealedCopy(copy, coverage.value.value, counts));
  }

  method PruneSegment(julian: Julian, db: Database, cutoff: Timestamp) returns (copy: Database)
    ensures copy == SegmentOf(julian, db, cutoff)
  {
    copy := db;
    for t := 0 to |HISTORY_TABLES|
      invariant copy.current == db.current
      invariant copy.events == if t > 0 then SegmentRows(julian, db.events, cutoff) else db.events
      invariant copy.samples == if t > 1 then SegmentRows(julian, db.samples, cutoff) else db.samples
      invariant copy.rollups == if t > 2 then SegmentRows(julian, db.rollups, cutoff) else db.rollups
    {
      var table := HISTORY_TABLES[t];
      copy := copy.With(table, SegmentRows(julian, copy.Rows(table), cutoff));
    }
    copy := copy.(current := map[]);
  }

  /** The deletes of `_stage_hot_replacement`. */
  method PruneHot(julian: Julian, db: Database, cutoff: Timestamp) returns (copy: Database)
    ensures copy == HotOf(julian, db, cutoff)
  {
    copy := db;
    for t := 0 to |HISTORY_TABLES|
      invariant copy.current == db.current
      invariant copy.events == if t > 0 then HotRows(julian, db.events, cutoff) else db.events
      invariant copy.samples == if t > 1 then HotRows(julian, db.samples, cutoff) else db.samples
      invariant copy.rollups == if t > 2 then HotRows(julian, db.rollups, cutoff) else db.rollups
    {
      var table := HISTORY_TABLES[t];
      copy := copy.With(table, HotRows(julian, copy.Rows(table), cutoff));
    }
  }

  method CountRows(db: Database) returns (counts: map<Table, nat>)
    ensures counts.Keys == {SlotEvents, MetricSamples, MetricRollups}
    ensures forall table <- counts.Keys :: counts[table] == |db.Rows(table)|
  {
    counts := map[];
    for t := 0 to |HISTORY_TABLES|
      invariant counts.Keys == (if t > 0 then {SlotEvents} else {}) + (if t > 1 then {MetricSamples} else {})
                               + (if t > 2 then {MetricRollups} else {})
      invariant forall table <- counts.Keys :: counts[table] == |db.Rows(table)|
    {
      counts := counts[HISTORY_TABLES[t] := |db.Rows(HISTORY_TABLES[t])|];
    }
  }

  lemma {:induction false} StampsAreRowStamps(rows: seq<Row>)
    ensures forall stamp :: stamp in Stamps(rows) <==> exists row :: row in rows && row.stamp == Some(stamp)
  {
    if rows != [] {
      var n := |rows| - 1;
      StampsAreRowStamps(rows[..n]);
      assert rows == rows[..n] + [rows[n]];
    }
  }

  lemma KeptStamps(julian: Julian, db: Database, cutoff: Timestamp)
    ensures forall stamp <- AllStamps(SegmentOf(julian, db, cutoff)) :: stamp in AllStamps(db)
  {
    forall table: Table
      ensures forall stamp <- Stamps(SegmentOf(julian, db, cutoff).Rows(table)) :: stamp in Stamps(db.Rows(table))
    {
      DeletedRows(julian, db.Rows(table), cutoff, false);
      StampsAreRowStamps(db.Rows(table));
      StampsAreRowStamps(SegmentOf(julian, db, cutoff).Rows(table));
    }
    var segment := SegmentOf(julian, db, cutoff);
    assert segment.Rows(SlotEvents) == segment.events && db.Rows(SlotEvents) == db.events;
    assert segment.Rows(MetricSamples) == segment.samples && db.Rows(MetricSamples) == db.samples;
    assert segment.Rows(MetricRollups) == segment.rollups && db.Rows(MetricRollups) == db.rollups;
  }

  /** The schema's NOT NULL constraint on every history timestamp. */
  ghost predicate NoNullStamps(db: Database) {
    forall table: Table, row | row in db.Rows(table) :: row.stamp.Some?
  }

  /** A successful seal of a schema-conforming database, with a cutoff SQLite can read, loses and duplicates nothing. */
  lemma SuccessfulSealConserves(julian: Julian, source: Database, cutoff: Timestamp)
    requires NoNullStamps(source)
    requires forall stamp <- AllStamps(source) :: Readable(julian, stamp)
    requires julian(cutoff).Some?
    ensures Conserves(source, SegmentOf(julian, source, cutoff), HotOf(julian, source, cutoff))
  {
    forall table: Table, row | row in source.Rows(table)
      ensures Before(julian, row, cutoff).Some?
    {
      StampsAreRowStamps(source.Rows(table));
      assert row.stamp.value in Stamps(source.Rows(table));
      assert row.stamp.value in AllStamps(source);
    }
    SealingPartitionsExactlyWhenPlaced(julian, source, cutoff);
  }

  // ---------------------------------------------------------------- the seal and the calendar

  /** SQLite never reads a later instant as an earlier one; it may round instants together. */
  ghost predicate KeepsOrder(julian: Julian) {
    forall a, b | Readable(julian, a) && Readable(julian, b) && Instant(a) <= Instant(b) ::
      julian(a).value <= julian(b).value
  }

  lemma {:induction false} SideStamps(julian: Julian, rows: seq<Row>, cutoff: Timestamp, before: bool)
    requires julian(cutoff).Some? && forall stamp <- Stamps(rows) :: Readable(julian, stamp)
    ensures forall stamp <- Stamps(Delete(julian, rows, cutoff, before)) ::
              Readable(julian, stamp) && (julian(stamp).value < julian(cutoff).value) == !before
  {
    DeletedRows(julian, rows, cutoff, before);
    StampsAreRowStamps(rows);
    StampsAreRowStamps(Delete(julian, rows, cutoff, before));
  }

  /**
   What the two deletes mean in time: everything in the segment, its coverage included, happened before the cutoff
   and before everything that stays hot.
   */
  lemma SegmentEndsBeforeTheHotRows(julian: Julian, source: Database, cutoff: Timestamp, sealed: SealedCopy)
    requires KeepsOrder(julian) && Readable(julian, cutoff) && SealOf(julian, source, cutoff, sealed)
    requires forall stamp <- AllStamps(source) :: Readable(julian, stamp)
    ensures forall stamp <- AllStamps(sealed.db) :: stamp.Zoned? && Instant(stamp) < Instant(cutoff)
    ensures Instant(sealed.coverage.latest) < Instant(cutoff)
    ensures forall past, kept | past in AllStamps(sealed.db) && kept in AllStamps(HotOf(julian, source, cutoff)) ::
              past.Zoned? && kept.Zoned? && Instant(past) < Instant(kept)
  {
    AllSides(julian, source, cutoff);
    forall stamp | stamp in AllStamps(sealed.db)
      ensures stamp.Zoned? && Instant(stamp) < Instant(cutoff)
    {
      assert Readable(julian, stamp) && julian(stamp).value < julian(cutoff).value;
    }
    var i :| FirstLatest(AllStamps(sealed.db), i) && AllStamps(sealed.db)[i] == sealed.coverage.latest;
    assert sealed.coverage.latest in AllStamps(sealed.db);
  }

  lemma AllSides(julian: Julian, source: Database, cutoff: Timestamp)
    requires julian(cutoff).Some? && forall stamp <- AllStamps(source) :: Readable(julian, stamp)
    ensures forall stamp <- AllStamps(SegmentOf(julian, source, cutoff)) ::
              Readable(julian, stamp) && julian(stamp).value < julian(cutoff).value
    ensures forall stamp <- AllStamps(HotOf(julian, source, cutoff)) ::
              Readable(julian, stamp) && julian(stamp).value >= julian(cutoff).value
  {
    SideStamps(julian, source.events, cutoff, false);
    SideStamps(julian, source.samples, cutoff, false);
    SideStamps(julian, source.rollups, cutoff, false);
    SideStamps(julian, source.events, cutoff, true);
    SideStamps(julian, source.samples, cutoff, true);
    SideStamps(julian, source.rollups, cutoff, true);
  }
}
