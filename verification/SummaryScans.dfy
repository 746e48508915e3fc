/**
 Shared history-summary scans: callers join the scan in flight unless the history changed since it was created.

 The event loop is a sequence of steps. A scan waits for the semaphore, reads the store in a worker thread, and is
 done; its done callback runs later.
 */
module SummaryScans {
  import opened Wrappers

  datatype Phase = Queued | Reading | Done

  /**
   A scan task. `epoch` counts the adoptions of an event loop, each with a semaphore of its own; `began` is how many
   changes of the history there had been when the store read began.
   */
  datatype Scan = Scan(generation: nat, loop: nat, epoch: nat, phase: Phase, began: Option<nat>)

  /** A caller: the scan it joined, and how many changes of the history preceded the call. */
  datatype Call = Call(scan: nat, changes: nat)

  datatype State = State(
    concurrency: nat,
    generation: nat,
    loop: Option<nat>,
    inflight: Option<(nat, nat)>,
    permits: seq<int>,
    scans: seq<Scan>,
    calls: seq<Call>)

  datatype Step =
    | HistoryChanged
    | ScanCalled(loop: nat)
    | ReadBegins(scan: nat)
    | ReadEnds(scan: nat)
    | DoneCallback(scan: nat)

  function Fresh(concurrency: nat): State {
    State(concurrency, 0, None, None, [], [], [])
  }

  /** A call from another event loop than before drops the scan in flight and takes a new semaphore. */
  function Adopted(s: State, loop: nat): State {
    if s.loop == Some(loop) then s
    else s.(loop := Some(loop), inflight := None, permits := s.permits + [s.concurrency])
  }

  predicate Joinable(s: State) {
    && s.inflight.Some? && s.inflight.value.0 == s.generation
    && s.inflight.value.1 < |s.scans| && !s.scans[s.inflight.value.1].phase.Done?
  }

  function Joined(s: State, loop: nat): State {
    if Joinable(s) then s.(calls := s.calls + [Call(s.inflight.value.1, s.generation)])
    else
      var id := |s.scans|;
      s.(scans := s.scans + [Scan(s.generation, loop, |s.permits|, Queued, None)],
         inflight := Some((s.generation, id)),
         calls := s.calls + [Call(id, s.generation)])
  }

  /** The semaphore of a scan's epoch. */
  predicate HasPermit(s: State, scan: Scan) {
    1 <= scan.epoch <= |s.permits| && s.permits[scan.epoch - 1] > 0
  }

  function WithPermits(s: State, epoch: nat, change: int): seq<int> {
    if 1 <= epoch <= |s.permits| then s.permits[epoch - 1 := s.permits[epoch - 1] + change] else s.permits
  }

  /** Steps that are not possible change nothing. */
  function Next(s: State, step: Step): State {
    match step
    case HistoryChanged => s.(generation := s.generation + 1)
    case ScanCalled(loop) => Joined(Adopted(s, loop), loop)
    case ReadBegins(i) =>
      if i < |s.scans| && s.scans[i].phase.Queued? && HasPermit(s, s.scans[i]) then
        s.(scans := s.scans[i := s.scans[i].(phase := Reading, began := Some(s.generation))],
           permits := WithPermits(s, s.scans[i].epoch, -1))
      else s
    case ReadEnds(i) =>
      if i < |s.scans| && s.scans[i].phase.Reading? then
        s.(scans := s.scans[i := s.scans[i].(phase := Done)], permits := WithPermits(s, s.scans[i].epoch, 1))
      else s
    case DoneCallback(i) =>
      if i < |s.scans| && s.scans[i].phase.Done? && s.inflight.Some? && s.inflight.value.1 == i then
        s.(inflight := None)
      else s
  }

  class HistorySummaryScans {
    const concurrency: nat
    var generation: nat
    var loop: Option<nat>
    var inflight: Option<(nat, nat)>
    var permits: seq<int>
    var scans: seq<Scan>
    ghost var calls: seq<Call>

    constructor (concurrency: nat)
      ensures Now() == Fresh(concurrency)
    {
      this.concurrency := concurrency;
      generation, loop, inflight, permits, scans, calls := 0, None, None, [], [], [];
    }

    ghost function Now(): State
      reads this
    {
      State(concurrency, generation, loop, inflight, permits, scans, calls)
    }

    /** `history_changed`. */
    method NoteChange()
      modifies this`generation
      ensures Now() == Next(old(Now()), HistoryChanged)
    {
      generation := generation + 1;
    }

    /** `scan` up to its await; the result is the scan the caller waits for. */
    method Join(running: nat) returns (joined: nat)
      requires inflight.Some? ==> inflight.value.1 < |scans|
      modifies this
      ensures Now() == Next(old(Now()), ScanCalled(running))
      ensures joined < |scans| && calls == old(calls) + [Call(joined, generation)]
    {
      if loop != Some(running) {
        loop, inflight := Some(running), None;
        permits := permits + [concurrency];
      }
      if inflight.None? || inflight.value.0 != generation || scans[inflight.value.1].phase.Done? {
        var entry := (generation, |scans|);
        scans := scans + [Scan(generation, running, |permits|, Queued, None)];
        inflight := Some(entry);
      }
      joined := inflight.value.1;
      calls := calls + [Call(joined, generation)];
    }

    /** `run_scan` enters the semaphore and hands the store read to a worker thread. */
    method BeginRead(i: nat)
      requires i < |scans| && scans[i].phase.Queued? && HasPermit(Now(), scans[i])
      modifies this
      ensures Now() == Next(old(Now()), ReadBegins(i))
    {
      var scan := scans[i];
      permits := permits[scan.epoch - 1 := permits[scan.epoch - 1] - 1];
      scans := scans[i := scan.(phase := Reading, began := Some(generation))];
    }

    /** The read returned or raised: the semaphore is left and the scan is done. */
    method EndRead(i: nat)
      requires i < |scans| && scans[i].phase.Reading? && 1 <= scans[i].epoch <= |permits|
      modifies this
      ensures Now() == Next(old(Now()), ReadEnds(i))
    {
      var scan := scans[i];
      permits := permits[scan.epoch - 1 := permits[scan.epoch - 1] + 1];
      scans := scans[i := scan.(phase := Done)];
    }

    /** The done callback, which leaves a newer scan in flight alone. */
    method Clear(i: nat)
      requires i < |scans| && scans[i].phase.Done?
      modifies this
      ensures Now() == Next(old(Now()), DoneCallback(i))
    {
      if inflight.Some? && inflight.value.1 == i {
        inflight := None;
      }
    }
  }

  // ---------------------------------------------------------------- runs

  function Run(s: State, steps: seq<Step>): State {
    if steps == [] then s else Next(Run(s, steps[..|steps| - 1]), steps[|steps| - 1])
  }

  function Changes(steps: seq<Step>): nat {
    if steps == [] then 0
    else Changes(steps[..|steps| - 1]) + if steps[|steps| - 1].HistoryChanged? then 1 else 0
  }

  function ReadingIn(scans: seq<Scan>, epoch: nat): nat {
    if scans == [] then 0
    else
      var last := scans[|scans| - 1];
      ReadingIn(scans[..|scans| - 1], epoch) + if last.phase.Reading? && last.epoch == epoch then 1 else 0
  }

  lemma {:induction false} ReadingChanges(scans: seq<Scan>, i: nat, scan: Scan, epoch: nat)
    requires i < |scans|
    ensures ReadingIn(scans[i := scan], epoch) - ReadingIn(scans, epoch)
         == (if scan.phase.Reading? && scan.epoch == epoch then 1 else 0)
          - (if scans[i].phase.Reading? && scans[i].epoch == epoch then 1 else 0)
  {
    var n := |scans| - 1;
    if i == n {
      assert scans[i := scan][..n] == scans[..n];
    } else {
      assert scans[i := scan][..n] == scans[..n][i := scan];
      ReadingChanges(scans[..n], i, scan, epoch);
    }
  }

  /** A scan was created after the changes its generation counts, and so began to read after them. */
  predicate SoundScan(s: State, scan: Scan) {
    && scan.generation <= s.generation && 1 <= scan.epoch <= |s.permits|
    && (scan.phase.Queued? <==> scan.began.None?)
    && (scan.began.Some? ==> scan.generation <= scan.began.value <= s.generation)
  }

  predicate SoundCall(s: State, call: Call) {
    call.scan < |s.scans| && s.scans[call.scan].generation == call.changes
  }

  /** The scan in flight is of the current epoch, and the only unfinished one of this epoch and generation. */
  predicate SoundInflight(s: State) {
    && (s.inflight.Some? ==>
          && s.inflight.value.1 < |s.scans|
          && var scan := s.scans[s.inflight.value.1];
             scan.generation == s.inflight.value.0 && scan.epoch == |s.permits|)
    && forall i | 0 <= i < |s.scans| && !s.scans[i].phase.Done?
                  && s.scans[i].epoch == |s.permits| && s.scans[i].generation == s.generation ::
         s.inflight.Some? && s.inflight.value.1 == i
  }

  predicate OneUnfinished(s: State) {
    forall i, j | 0 <= i < j < |s.scans| && !s.scans[i].phase.Done? && !s.scans[j].phase.Done?
                  && s.scans[i].epoch == s.scans[j].epoch ::
      s.scans[i].generation != s.scans[j].generation
  }

  ghost predicate PermitsBalance(s: State) {
    && (forall e | 0 <= e < |s.permits| ::
          s.permits[e] >= 0 && s.permits[e] + ReadingIn(s.scans, e + 1) == s.concurrency)
    && (forall e: nat | e > |s.permits| :: ReadingIn(s.scans, e) == 0)
  }

  ghost predicate Inv(s: State) {
    && (forall scan <- s.scans :: SoundScan(s, scan)) && (forall call <- s.calls :: SoundCall(s, call))
    && SoundInflight(s) && OneUnfinished(s) && PermitsBalance(s)
    && (s.loop.None? <==> s.permits == [])
  }

  lemma AdoptKeepsInv(s: State, loop: nat)
    requires Inv(s)
    ensures Inv(Adopted(s, loop)) && Adopted(s, loop).permits != []
  {
    var after := Adopted(s, loop);
    if after != s {
      assert forall i | 0 <= i < |s.scans| :: SoundScan(s, s.scans[i]);
    }
  }

  lemma JoinKeepsInv(s: State, loop: nat)
    requires Inv(s) && s.permits != []
    ensures Inv(Joined(s, loop))
  {
    var after := Joined(s, loop);
    if !Joinable(s) {
      assert after.scans[..|s.scans|] == s.scans;
      assert forall i | 0 <= i < |s.scans| :: after.scans[i] == s.scans[i] && SoundScan(s, s.scans[i]);
      assert forall e: nat :: ReadingIn(after.scans, e) == ReadingIn(s.scans, e);
    }
  }

  lemma ReadKeepsBalance(s: State, step: Step)
    requires PermitsBalance(s) && (forall scan <- s.scans :: SoundScan(s, scan)) && (step.ReadBegins? || step.ReadEnds?)
    ensures PermitsBalance(Next(s, step))
  {
    var after := Next(s, step);
    if after != s {
      var i := step.scan;
      assert SoundScan(s, s.scans[i]);
      forall e: nat
        ensures ReadingIn(after.scans, e) - ReadingIn(s.scans, e)
             == if e != s.scans[i].epoch then 0 else if step.ReadBegins? then 1 else -1
      {
        ReadingChanges(s.scans, i, after.scans[i], e);
      }
    }
  }

  lemma ReadKeepsInv(s: State, step: Step)
    requires Inv(s) && (step.ReadBegins? || step.ReadEnds?)
    ensures Inv(Next(s, step))
  {
    var after := Next(s, step);
    ReadKeepsBalance(s, step);
    if after != s {
      var i := step.scan;
      assert SoundScan(s, s.scans[i]);
      assert forall k | 0 <= k < |s.scans| && k != i :: after.scans[k] == s.scans[k] && SoundScan(s, s.scans[k]);
    }
  }

  lemma StepKeepsInv(s: State, step: Step)
    requires Inv(s)
    ensures Inv(Next(s, step))
  {
    match step
    case HistoryChanged =>
      assert forall i | 0 <= i < |s.scans| :: SoundScan(s, s.scans[i]);
    case ScanCalled(loop) =>
      AdoptKeepsInv(s, loop);
      JoinKeepsInv(Adopted(s, loop), loop);
    case DoneCallback(i) =>
      assert forall k | 0 <= k < |s.scans| :: SoundScan(s, s.scans[k]);
    case _ =>
      ReadKeepsInv(s, step);
  }

  lemma {:induction false} RunKeepsInv(concurrency: nat, steps: seq<Step>)
    ensures Inv(Run(Fresh(concurrency), steps))
    ensures Run(Fresh(concurrency), steps).generation == Changes(steps)
    ensures Run(Fresh(concurrency), steps).concurrency == concurrency
  {
    if steps != [] {
      RunKeepsInv(concurrency, steps[..|steps| - 1]);
      StepKeepsInv(Run(Fresh(concurrency), steps[..|steps| - 1]), steps[|steps| - 1]);
    }
  }

  /**
   Joined scans are fresh. After any run, a caller joins a scan that begins its store read after every change of the
   history that preceded the call; a scan that is reading or done, and so what it returns, has begun like that.
   */
  lemma JoinedScansAreFresh(concurrency: nat, steps: seq<Step>, loop: nat, later: seq<Step>)
    ensures var called := Run(Fresh(concurrency), steps + [ScanCalled(loop)]);
            var call := called.calls[|called.calls| - 1];
            var after := Run(Fresh(concurrency), steps + [ScanCalled(loop)] + later);
            && called.calls != [] && call.changes == Changes(steps) && call.scan < |after.scans|
            && (after.scans[call.scan].began.Some? <==> !after.scans[call.scan].phase.Queued?)
            && (after.scans[call.scan].began.Some? ==> after.scans[call.scan].began.value >= Changes(steps))
  {
    var all := steps + [ScanCalled(loop)];
    assert all[..|steps|] == steps;
    RunKeepsInv(concurrency, steps);
    RunKeepsInv(concurrency, all);
    RunKeepsInv(concurrency, all + later);
    CallsStay(concurrency, all, later);
    var called := Run(Fresh(concurrency), all);
    var call := called.calls[|called.calls| - 1];
    var after := Run(Fresh(concurrency), all + later);
    assert call in after.calls && SoundCall(after, call);
    assert SoundScan(after, after.scans[call.scan]);
  }

  lemma {:induction false} CallsStay(concurrency: nat, steps: seq<Step>, later: seq<Step>)
    ensures Run(Fresh(concurrency), steps).calls <= Run(Fresh(concurrency), steps + later).calls
  {
    if later == [] {
      assert steps + later == steps;
    } else {
      var rest := later[..|later| - 1];
      assert (steps + later)[..|steps + later| - 1] == steps + rest;
      CallsStay(concurrency, steps, rest);
    }
  }

  /** After any run: per epoch, at most one unfinished scan of a generation, and at most `concurrency` store reads. */
  lemma ScansAreShared(concurrency: nat, steps: seq<Step>, epoch: nat)
    ensures OneUnfinished(Run(Fresh(concurrency), steps))
    ensures ReadingIn(Run(Fresh(concurrency), steps).scans, epoch) <= concurrency
  {
    RunKeepsInv(concurrency, steps);
    var s := Run(Fresh(concurrency), steps);
    if 1 <= epoch <= |s.permits| {
      assert s.permits[epoch - 1] >= 0;
    } else if epoch == 0 {
      NoneReading(s, s.scans);
    }
  }

  lemma {:induction false} NoneReading(s: State, scans: seq<Scan>)
    requires forall scan <- scans :: scan.epoch >= 1
    ensures ReadingIn(scans, 0) == 0
  {
    if scans != [] {
      NoneReading(s, scans[..|scans| - 1]);
      assert scans[|scans| - 1] in scans;
    }
  }
}
