/**
 What the sharing of scans means for event loops. Every adoption of a loop has a semaphore and a scan in flight of
 its own, so the promises hold per loop exactly for callers that never return to a loop they have left.
 */
module ScanLoops {
  import opened Wrappers
  import opened SummaryScans

  /** The event loops the scans of a run were called from, in order. */
  function CalledLoops(steps: seq<Step>): seq<nat> {
    if steps == [] then []
    else
      var last := steps[|steps| - 1];
      CalledLoops(steps[..|steps| - 1]) + if last.ScanCalled? then [last.loop] else []
  }

  /** No loop is called from, left for another, and called from again. */
  predicate NeverReturns(loops: seq<nat>) {
    forall i, j, k | 0 <= i < j < k < |loops| :: loops[i] == loops[k] ==> loops[j] == loops[k]
  }

  /** On one event loop, two unfinished scans are of different generations. */
  predicate OnePerLoop(s: State) {
    forall i, j | 0 <= i < j < |s.scans| && !s.scans[i].phase.Done? && !s.scans[j].phase.Done?
                  && s.scans[i].loop == s.scans[j].loop ::
      s.scans[i].generation != s.scans[j].generation
  }

  function ReadingOn(scans: seq<Scan>, loop: nat): nat {
    if scans == [] then 0
    else
      var last := scans[|scans| - 1];
      ReadingOn(scans[..|scans| - 1], loop) + if last.phase.Reading? && last.loop == loop then 1 else 0
  }

  function Reading(scans: seq<Scan>): nat {
    if scans == [] then 0
    else Reading(scans[..|scans| - 1]) + if scans[|scans| - 1].phase.Reading? then 1 else 0
  }

  // ---------------------------------------------------------------- adoptions

  /** The loop of each adoption: consecutive calls from one loop are one adoption. */
  function Adoptions(loops: seq<nat>): seq<nat> {
    if loops == [] then []
    else Adopt(Adoptions(loops[..|loops| - 1]), loops[|loops| - 1])
  }

  function Adopt(adoptions: seq<nat>, loop: nat): seq<nat> {
    if adoptions != [] && adoptions[|adoptions| - 1] == loop then adoptions else adoptions + [loop]
  }

  predicate Distinct(loops: seq<nat>) {
    forall i, j | 0 <= i < j < |loops| :: loops[i] != loops[j]
  }

  lemma {:induction false} AdoptedLoops(loops: seq<nat>)
    ensures forall loop :: loop in Adoptions(loops) <==> loop in loops
    ensures loops != [] ==> Adoptions(loops) != [] && Adoptions(loops)[|Adoptions(loops)| - 1] == loops[|loops| - 1]
  {
    if loops != [] {
      AdoptedLoops(loops[..|loops| - 1]);
      assert loops == loops[..|loops| - 1] + [loops[|loops| - 1]];
    }
  }

  /** Callers never return to a loop exactly when no loop is adopted twice. */
  lemma {:induction false} NeverReturnsMeansDistinct(loops: seq<nat>)
    ensures NeverReturns(loops) <==> Distinct(Adoptions(loops))
  {
    if loops != [] {
      var n := |loops| - 1;
      var rest, last := loops[..n], loops[n];
      assert loops == rest + [last];
      NeverReturnsMeansDistinct(rest);
      AdoptedLoops(rest);
      if n > 0 && rest[n - 1] == last {
        StayingReturnsNowhere(rest, last);
      } else {
        LeavingReturnsIfKnown(rest, last);
        OneMoreDistinct(Adoptions(rest), last);
        assert Adoptions(loops) == Adoptions(rest) + [last];
      }
    }
  }

  lemma OneMoreDistinct(loops: seq<nat>, last: nat)
    ensures Distinct(loops + [last]) <==> Distinct(loops) && last !in loops
  {
    var all := loops + [last];
    assert forall i | 0 <= i < |loops| :: all[i] == loops[i];
    assert all[|loops|] == last;
  }

  lemma StayingReturnsNowhere(rest: seq<nat>, last: nat)
    requires rest != [] && rest[|rest| - 1] == last
    ensures NeverReturns(rest + [last]) <==> NeverReturns(rest)
  {
    var n, all := |rest|, rest + [last];
    assert forall i | 0 <= i < n :: all[i] == rest[i];
    if NeverReturns(rest) {
      forall i, j, k | 0 <= i < j < k < |all| && all[i] == all[k]
        ensures all[j] == all[k]
      {
        if k == n && j < n - 1 {
          assert rest[i] == rest[n - 1] ==> rest[j] == rest[n - 1];
        }
      }
    }
  }

  lemma LeavingReturnsIfKnown(rest: seq<nat>, last: nat)
    requires rest != [] ==> rest[|rest| - 1] != last
    ensures NeverReturns(rest + [last]) <==> NeverReturns(rest) && last !in rest
  {
    var n, all := |rest|, rest + [last];
    assert forall i | 0 <= i < n :: all[i] == rest[i];
    if NeverReturns(all) {
      forall i | 0 <= i < n
        ensures rest[i] != last
      {
        var first, left, back := all[i], all[n - 1], all[n];
        assert i < n - 1 ==> (first == back ==> left == back);
      }
    }
  }

  // ---------------------------------------------------------------- epochs are adoptions

  /** Every epoch has one loop, and every scan is on the loop of its epoch. */
  ghost predicate OnLoops(s: State, adoptions: seq<nat>) {
    && |s.permits| == |adoptions|
    && s.loop == (if adoptions == [] then None else Some(adoptions[|adoptions| - 1]))
    && forall i | 0 <= i < |s.scans| ::
         1 <= s.scans[i].epoch <= |adoptions| && s.scans[i].loop == adoptions[s.scans[i].epoch - 1]
  }

  lemma {:induction false} ScansAreOnLoops(concurrency: nat, steps: seq<Step>)
    ensures OnLoops(Run(Fresh(concurrency), steps), Adoptions(CalledLoops(steps)))
  {
    if steps != [] {
      var rest, last := steps[..|steps| - 1], steps[|steps| - 1];
      ScansAreOnLoops(concurrency, rest);
      if last.ScanCalled? {
        var loops := CalledLoops(rest);
        assert (loops + [last.loop])[..|loops|] == loops;
        CallStaysOnLoops(Run(Fresh(concurrency), rest), Adoptions(loops), last.loop);
      } else {
        assert CalledLoops(steps) == CalledLoops(rest);
        StepStaysOnLoops(Run(Fresh(concurrency), rest), Adoptions(CalledLoops(rest)), last);
      }
    }
  }

  lemma CallStaysOnLoops(s: State, adoptions: seq<nat>, loop: nat)
    requires OnLoops(s, adoptions)
    ensures OnLoops(Next(s, ScanCalled(loop)), Adopt(adoptions, loop))
  {
  }

  lemma StepStaysOnLoops(s: State, adoptions: seq<nat>, step: Step)
    requires OnLoops(s, adoptions) && !step.ScanCalled?
    ensures OnLoops(Next(s, step), adoptions)
  {
  }

  /** A run of calls only: every adoption has one scan, and none has begun. */
  function Calls(loops: seq<nat>): seq<Step> {
    if loops == [] then [] else Calls(loops[..|loops| - 1]) + [ScanCalled(loops[|loops| - 1])]
  }

  ghost predicate OneScanEach(s: State, adoptions: seq<nat>) {
    && s.generation == 0 && |s.scans| == |adoptions|
    && s.loop == (if adoptions == [] then None else Some(adoptions[|adoptions| - 1]))
    && s.inflight == (if adoptions == [] then None else Some((0, |adoptions| - 1)))
    && forall i | 0 <= i < |s.scans| ::
         s.scans[i].phase.Queued? && s.scans[i].generation == 0 && s.scans[i].loop == adoptions[i]
  }

  lemma {:induction false} CallsAreFrom(loops: seq<nat>)
    ensures CalledLoops(Calls(loops)) == loops
  {
    if loops != [] {
      var rest, last := loops[..|loops| - 1], loops[|loops| - 1];
      CallsAreFrom(rest);
      assert Calls(loops)[..|Calls(rest)|] == Calls(rest) && loops == rest + [last];
    }
  }

  lemma {:induction false} CallsOnly(concurrency: nat, loops: seq<nat>)
    ensures OneScanEach(Run(Fresh(concurrency), Calls(loops)), Adoptions(loops))
  {
    if loops != [] {
      var rest, last := loops[..|loops| - 1], loops[|loops| - 1];
      CallsOnly(concurrency, rest);
      assert Calls(loops)[..|Calls(rest)|] == Calls(rest);
      OneMoreCall(Run(Fresh(concurrency), Calls(rest)), Adoptions(rest), last);
    }
  }

  lemma OneMoreCall(s: State, adoptions: seq<nat>, loop: nat)
    requires OneScanEach(s, adoptions)
    ensures OneScanEach(Next(s, ScanCalled(loop)), Adopt(adoptions, loop))
  {
    if s.loop == Some(loop) {
      assert Joinable(s);
    } else {
      var adopted := Adopted(s, loop);
      assert !Joinable(adopted) && adopted.scans == s.scans;
    }
  }

  // ---------------------------------------------------------------- the exact condition

  /** Every run whose scans are called from these loops has one unfinished scan of a generation on each loop. */
  ghost predicate SharesPerLoop(concurrency: nat, loops: seq<nat>) {
    forall steps | CalledLoops(steps) == loops :: OnePerLoop(Run(Fresh(concurrency), steps))
  }

  lemma SharedIfNeverReturning(concurrency: nat, steps: seq<Step>)
    requires NeverReturns(CalledLoops(steps))
    ensures OnePerLoop(Run(Fresh(concurrency), steps))
  {
    RunKeepsInv(concurrency, steps);
    ScansAreOnLoops(concurrency, steps);
    NeverReturnsMeansDistinct(CalledLoops(steps));
    SameLoopSameEpoch(Run(Fresh(concurrency), steps), Adoptions(CalledLoops(steps)));
  }

  lemma SameLoopSameEpoch(s: State, adoptions: seq<nat>)
    requires OnLoops(s, adoptions) && Distinct(adoptions)
    ensures forall i, j | 0 <= i < |s.scans| && 0 <= j < |s.scans| && s.scans[i].loop == s.scans[j].loop ::
              s.scans[i].epoch == s.scans[j].epoch
  {
  }

  /**
   The exact condition for sharing on an event loop: whatever else happens, at most one unfinished scan of a
   generation on each loop is guaranteed if and only if the callers never return to a loop they have left.
   */
  lemma SharesPerLoopExactlyWhenNeverReturning(concurrency: nat, loops: seq<nat>)
    ensures SharesPerLoop(concurrency, loops) <==> NeverReturns(loops)
  {
    if NeverReturns(loops) {
      forall steps | CalledLoops(steps) == loops
        ensures OnePerLoop(Run(Fresh(concurrency), steps))
      {
        SharedIfNeverReturning(concurrency, steps);
      }
    } else {
      NeverReturnsMeansDistinct(loops);
      CallsAreFrom(loops);
      CallsOnly(concurrency, loops);
      TwoScansOfOneLoop(Run(Fresh(concurrency), Calls(loops)), Adoptions(loops));
    }
  }

  lemma TwoScansOfOneLoop(s: State, adoptions: seq<nat>)
    requires OneScanEach(s, adoptions) && !Distinct(adoptions)
    ensures !OnePerLoop(s)
  {
    var i, j :| 0 <= i < j < |adoptions| && adoptions[i] == adoptions[j];
    assert s.scans[i].loop == s.scans[j].loop;
  }

  /** Without returning callers at most `concurrency` store reads run at once on each loop. */
  lemma ReadsPerLoop(concurrency: nat, steps: seq<Step>, loop: nat)
    requires NeverReturns(CalledLoops(steps))
    ensures ReadingOn(Run(Fresh(concurrency), steps).scans, loop) <= concurrency
  {
    var s, adoptions := Run(Fresh(concurrency), steps), Adoptions(CalledLoops(steps));
    ScansAreOnLoops(concurrency, steps);
    NeverReturnsMeansDistinct(CalledLoops(steps));
    var epoch := if loop in adoptions then 1 + IndexOf(adoptions, loop) else 0;
    ScansAreShared(concurrency, steps, epoch);
    CountByEpoch(adoptions, s.scans, loop, epoch);
  }

  function IndexOf(adoptions: seq<nat>, loop: nat): (i: nat)
    requires loop in adoptions
    ensures i < |adoptions| && adoptions[i] == loop
  {
    if adoptions[0] == loop then 0 else 1 + IndexOf(adoptions[1..], loop)
  }

  lemma {:induction false} CountByEpoch(adoptions: seq<nat>, scans: seq<Scan>, loop: nat, epoch: nat)
    requires Distinct(adoptions)
    requires forall scan <- scans :: 1 <= scan.epoch <= |adoptions| && scan.loop == adoptions[scan.epoch - 1]
    requires if loop in adoptions then 1 <= epoch <= |adoptions| && adoptions[epoch - 1] == loop else epoch == 0
    ensures ReadingOn(scans, loop) == ReadingIn(scans, epoch)
  {
    if scans != [] {
      var rest, last := scans[..|scans| - 1], scans[|scans| - 1];
      assert last in scans && forall scan <- rest :: scan in scans;
      CountByEpoch(adoptions, rest, loop, epoch);
    }
  }

  /** All calls from one event loop: one unfinished scan of each generation and `concurrency` store reads in all. */
  lemma OneLoopShares(concurrency: nat, steps: seq<Step>, loop: nat)
    requires forall called <- CalledLoops(steps) :: called == loop
    ensures OneUnfinished(Run(Fresh(concurrency), steps)) && OnePerLoop(Run(Fresh(concurrency), steps))
    ensures Reading(Run(Fresh(concurrency), steps).scans) <= concurrency
  {
    var s := Run(Fresh(concurrency), steps);
    var loops := CalledLoops(steps);
    assert forall i | 0 <= i < |loops| :: loops[i] in loops;
    ScansAreShared(concurrency, steps, 0);
    SharedIfNeverReturning(concurrency, steps);
    ReadsPerLoop(concurrency, steps, loop);
    ScansAreOnLoops(concurrency, steps);
    AdoptedLoops(loops);
    assert forall i | 0 <= i < |Adoptions(loops)| :: Adoptions(loops)[i] in Adoptions(loops);
    AllOnLoop(s.scans, loop);
  }

  lemma {:induction false} AllOnLoop(scans: seq<Scan>, loop: nat)
    requires forall scan <- scans :: scan.loop == loop
    ensures Reading(scans) == ReadingOn(scans, loop)
  {
    if scans != [] {
      var rest := scans[..|scans| - 1];
      assert scans[|scans| - 1] in scans && forall scan <- rest :: scan in scans;
      AllOnLoop(rest, loop);
    }
  }
}
