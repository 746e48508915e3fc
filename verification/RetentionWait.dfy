/**
 The backup guard of unsegmented retention. Without a usable backup pruning waits for a bounded window, counted
 from an anchor row in the database, so restarts do not restart the wait.

 Times and durations are integers in one unit.
 */
module RetentionWait {
  import opened Wrappers

  const ONE_DAY: nat := 86_400

  datatype Settings = Settings(rawRetentionDays: int, skipMaxSeconds: int)

  /** What one pass of the guard finds, and which of its database operations fail. */
  datatype Attempt = Attempt(
    settings: Settings,
    now: int,
    backupSucceeded: bool,
    latestBackup: Option<int>,
    fullBackup: bool,
    clearFails: bool,
    readFails: bool,
    startFails: bool)

  datatype Reason = AnchorUnavailable | WaitingForBackup | RanWithoutBackup

  /** The anchor is durable; the rest is what this process last published. */
  datatype State = State(anchor: Option<int>, reason: Option<Reason>, skipUntil: Option<int>, ranWithoutBackup: bool)

  const FRESH := State(None, None, None, false)

  function MaxAge(settings: Settings): (r: nat)
    ensures r >= ONE_DAY
  {
    if settings.rawRetentionDays > 0 then ONE_DAY * settings.rawRetentionDays else ONE_DAY
  }

  function Window(settings: Settings): nat {
    if settings.skipMaxSeconds > 0 then settings.skipMaxSeconds else 0
  }

  predicate SidecarUsable(a: Attempt) {
    !a.backupSucceeded && a.latestBackup.Some? && 0 <= a.now - a.latestBackup.value <= MaxAge(a.settings)
  }

  predicate Usable(a: Attempt) {
    a.backupSucceeded || SidecarUsable(a) || a.fullBackup
  }

  /** `_retention_wait_started_at`: when the newest backup went stale, and never later than this pass. */
  function WaitStartedAt(a: Attempt): (r: int)
    ensures r <= a.now
  {
    if a.latestBackup.None? then a.now
    else
      var stale := a.latestBackup.value + MaxAge(a.settings);
      if stale < a.now then stale else a.now
  }

  class RetentionGuard {
    var anchor: Option<int>
    var reason: Option<Reason>
    var skipUntil: Option<int>
    var ranWithoutBackup: bool

    /** A new process over a database that may hold an anchor. */
    constructor (stored: Option<int>)
      ensures Now() == FRESH.(anchor := stored)
    {
      anchor, reason, skipUntil, ranWithoutBackup := stored, None, None, false;
    }

    function Now(): State
      reads this
    {
      State(anchor, reason, skipUntil, ranWithoutBackup)
    }

    method Refuse() returns (allowed: bool)
      modifies this`reason, this`skipUntil, this`ranWithoutBackup
      ensures !allowed && Now() == State(old(anchor), Some(AnchorUnavailable), None, false)
    {
      reason, skipUntil, ranWithoutBackup := Some(AnchorUnavailable), None, false;
      allowed := false;
    }

    /** `start_retention_wait`: the first writer wins. */
    method StartWait(candidate: int) returns (effective: int)
      modifies this`anchor
      ensures anchor == Some(effective)
      ensures effective == if old(anchor).Some? then old(anchor).value else candidate
    {
      if anchor.Some? { return anchor.value; }
      anchor := Some(candidate);
      return candidate;
    }

    /** `_retention_backup_guard_allows`. */
    method Allows(a: Attempt) returns (allowed: bool)
      modifies this
      ensures allowed == Guard(old(anchor), a).allowed && Now() == Guard(old(anchor), a).state
    {
      if Usable(a) {
        if a.clearFails {
          allowed := Refuse();
          return;
        }
        anchor := None;
        reason, skipUntil, ranWithoutBackup := None, None, false;
        return true;
      }
      if a.readFails {
        allowed := Refuse();
        return;
      }
      var started := anchor;
      if started.None? {
        if a.startFails {
          allowed := Refuse();
          return;
        }
        var effective := StartWait(WaitStartedAt(a));
        started := Some(effective);
      }
      var deadline := started.value + Window(a.settings);
      if a.now < deadline {
        reason, skipUntil, ranWithoutBackup := Some(WaitingForBackup), Some(deadline), false;
        return false;
      }
      reason, skipUntil, ranWithoutBackup := Some(RanWithoutBackup), None, true;
      return true;
    }
  }

  // ---------------------------------------------------------------- runs of passes and restarts

  datatype Outcome = Outcome(state: State, allowed: bool)

  function Refused(anchor: Option<int>): Outcome {
    Outcome(State(anchor, Some(AnchorUnavailable), None, false), false)
  }

  function Guard(anchor: Option<int>, a: Attempt): Outcome {
    if Usable(a) then
      if a.clearFails then Refused(anchor) else Outcome(FRESH, true)
    else if a.readFails || (anchor.None? && a.startFails) then Refused(anchor)
    else
      var started := if anchor.Some? then anchor.value else WaitStartedAt(a);
      var deadline := started + Window(a.settings);
      if a.now < deadline then Outcome(State(Some(started), Some(WaitingForBackup), Some(deadline), false), false)
      else Outcome(State(Some(started), Some(RanWithoutBackup), None, true), true)
  }

  datatype Event = Pass(attempt: Attempt) | Restart

  function Next(state: State, event: Event): State {
    match event
    case Pass(attempt) => Guard(state.anchor, attempt).state
    case Restart => FRESH.(anchor := state.anchor)
  }

  function Run(events: seq<Event>): State {
    if events == [] then FRESH else Next(Run(events[..|events| - 1]), events[|events| - 1])
  }

  /** The pass recorded that a usable backup exists. */
  predicate Clears(event: Event) {
    event.Pass? && Usable(event.attempt) && !event.attempt.clearFails
  }

  /** The pass found no usable backup and could read and write the anchor. */
  predicate Waits(event: Event) {
    event.Pass? && !Usable(event.attempt) && !event.attempt.readFails && !event.attempt.startFails
  }

  predicate ClearedAfter(events: seq<Event>, j: nat) {
    exists k | j < k < |events| :: Clears(events[k])
  }

  /** Some waiting pass has seen no cleared one since. */
  predicate Waiting(events: seq<Event>) {
    exists j: nat | j < |events| :: Waits(events[j]) && !ClearedAfter(events, j)
  }

  /** Event `i` opened the wait that is still going on. */
  predicate OpensWait(events: seq<Event>, i: nat) {
    i < |events| && Waits(events[i]) && !ClearedAfter(events, i) && !Waiting(events[..i])
  }

  lemma WaitingStep(events: seq<Event>, last: Event)
    ensures Waiting(events + [last]) <==> !Clears(last) && (Waiting(events) || Waits(last))
    ensures forall i: nat | i < |events| :: OpensWait(events + [last], i) <==> OpensWait(events, i) && !Clears(last)
  {
    var more := events + [last];
    assert forall j | 0 <= j < |events| :: more[j] == events[j];
    forall j: nat | j < |events|
      ensures ClearedAfter(more, j) <==> ClearedAfter(events, j) || Clears(last)
    {
      if Clears(last) {
        assert Clears(more[|events|]);
      }
    }
    assert forall i: nat | i < |events| :: more[..i] == events[..i];
    assert !ClearedAfter(more, |events|) && more[|events|] == last;
  }

  /** The durable anchor, told from the history of passes alone, whatever restarts and failures lie between. */
  ghost predicate AnchorOf(events: seq<Event>, anchor: Option<int>) {
    && (anchor.Some? <==> Waiting(events))
    && (Waiting(events) ==> exists i: nat :: OpensWait(events, i))
    && (forall i: nat | OpensWait(events, i) :: anchor == Some(WaitStartedAt(events[i].attempt)))
  }

  /** The anchor never moves: it is the moment the first pass of the current wait wrote down. */
  lemma {:induction false} AnchorIsTheOpenWait(events: seq<Event>)
    ensures AnchorOf(events, Run(events).anchor)
  {
    if events != [] {
      var n := |events| - 1;
      var rest, last := events[..n], events[n];
      AnchorIsTheOpenWait(rest);
      WaitingStep(rest, last);
      assert events == rest + [last];
      if Waiting(rest) && !Clears(last) {
        var i: nat :| OpensWait(rest, i);
        assert OpensWait(events, i);
      } else if Waits(last) {
        assert OpensWait(events, n);
      }
    }
  }

  /**
   The bounded wait, over any run with restarts and failing database operations. Without a usable backup a pass
   may prune exactly when the anchor can be read, or first written, and the window after it is over.
   */
  lemma PrunesExactlyAfterTheWindow(events: seq<Event>, a: Attempt)
    requires !Usable(a)
    ensures var allowed := Guard(Run(events).anchor, a).allowed;
            if Waiting(events) then
              && (exists i: nat :: OpensWait(events, i))
              && forall i: nat | OpensWait(events, i) ::
                   allowed <==> !a.readFails && WaitStartedAt(events[i].attempt) + Window(a.settings) <= a.now
            else
              allowed <==> !a.readFails && !a.startFails && WaitStartedAt(a) + Window(a.settings) <= a.now
  {
    AnchorIsTheOpenWait(events);
  }

  /** With a usable backup a pass prunes exactly when it could forget the wait, and then none is left. */
  lemma UsableBackupClearsFirst(events: seq<Event>, a: Attempt)
    requires Usable(a)
    ensures Guard(Run(events).anchor, a).allowed <==> !a.clearFails
    ensures Guard(Run(events).anchor, a).allowed ==>
              !Waiting(events + [Pass(a)]) && Run(events + [Pass(a)]).anchor.None?
  {
    AnchorIsTheOpenWait(events + [Pass(a)]);
    WaitingStep(events, Pass(a));
  }

  /** A restart changes nothing about the wait, and neither does a pass whose database operations fail. */
  lemma RestartsDoNotExtendTheWait(events: seq<Event>, event: Event)
    requires Waiting(events) && !Clears(event)
    ensures Run(events + [event]).anchor == Run(events).anchor && Run(events).anchor.Some?
  {
    AnchorIsTheOpenWait(events);
    assert (events + [event])[..|events|] == events;
  }
}
