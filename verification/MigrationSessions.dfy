/**
 Whole histories of commands: each command starts from the disk a crash, an exception or the end of the one
 before it left behind.
 */
module MigrationSessions {
  import opened MigrationDisk
  import opened MigrationSafety
  import opened MigrationRecovery
  import opened MigrationHost

  /** The disk a crash after the first `n` changes of a command leaves. */
  ghost function CrashPoint(trace: LegalTrace, n: nat): Disk
    requires n <= |trace.run|
  {
    LegalPrefix(trace.start, trace.run, n);
    After(trace.start, trace.run[..n])
  }

  ghost predicate CrashesInto(trace: LegalTrace, d: Disk) {
    exists n: nat | n <= |trace.run| :: CrashPoint(trace, n) == d
  }

  ghost predicate Sessions(traces: seq<LegalTrace>) {
    forall i | 0 < i < |traces| :: CrashesInto(traces[i - 1], traces[i].start)
  }

  lemma ForwardSession(trace: LegalTrace, n: nat, v1: Content)
    requires n <= |trace.run| && ForwardRunInv(trace.start, v1)
    requires trace.command.Migrating? || trace.command.Recovering?
    ensures ForwardRunInv(CrashPoint(trace, n), v1)
  {
    LegalPrefix(trace.start, trace.run, n);
    forall c | c in trace.run[..n]
      ensures ForwardOnly(c)
    {
      assert c in trace.run && Permits(trace.command, c);
    }
    ForwardRunsKeepRunInv(trace.start, trace.run[..n], v1);
  }

  lemma RollbackSession(trace: LegalTrace, n: nat, start: Disk)
    requires start.marker.None? && CatalogIntact(start)
    requires n <= |trace.run| && RollbackRunInv(trace.start, start, start.catalog.value.rollback)
    requires trace.command.RollingBack? || trace.command.Recovering?
    ensures RollbackRunInv(CrashPoint(trace, n), start, start.catalog.value.rollback)
  {
    LegalPrefix(trace.start, trace.run, n);
    forall c | c in trace.run[..n]
      ensures RollbackOnly(c)
    {
      assert c in trace.run && Permits(trace.command, c);
    }
    RollbackRunsKeepRunInv(trace.start, trace.run[..n], start, start.catalog.value.rollback);
  }

  /**
   Every interleaving of migrations, exceptions, crashes and recoveries of an unmigrated history keeps the
   forward guarantees for its original bytes, at every crash point of every command.
   */
  lemma {:induction false} EveryForwardSessionIsCrashSafe(traces: seq<LegalTrace>, last: nat, n: nat)
    requires last < |traces| && n <= |traces[last].run| && Sessions(traces) && Fresh(traces[0].start)
    requires forall trace <- traces :: trace.command.Migrating? || trace.command.Recovering?
    ensures ForwardRunInv(CrashPoint(traces[last], n), traces[0].start.source)
    decreases last
  {
    if last > 0 {
      assert CrashesInto(traces[last - 1], traces[last].start);
      var m: nat :| m <= |traces[last - 1].run| && CrashPoint(traces[last - 1], m) == traces[last].start;
      EveryForwardSessionIsCrashSafe(traces, last - 1, m);
    }
    ForwardSession(traces[last], n, traces[0].start.source);
  }

  /** Every interleaving of rollbacks, exceptions, crashes and recoveries of a segmented history is atomic. */
  lemma {:induction false} EveryRollbackSessionIsAtomic(traces: seq<LegalTrace>, last: nat, n: nat)
    requires last < |traces| && n <= |traces[last].run| && Sessions(traces)
    requires traces[0].start.marker.None? && CatalogIntact(traces[0].start)
    requires forall trace <- traces :: trace.command.RollingBack? || trace.command.Recovering?
    ensures RollbackRunInv(CrashPoint(traces[last], n), traces[0].start, traces[0].start.catalog.value.rollback)
    decreases last
  {
    if last > 0 {
      assert CrashesInto(traces[last - 1], traces[last].start);
      var m: nat :| m <= |traces[last - 1].run| && CrashPoint(traces[last - 1], m) == traces[last].start;
      EveryRollbackSessionIsAtomic(traces, last - 1, m);
    }
    RollbackSession(traces[last], n, traces[0].start);
  }

  /** Where each of the first `last + 1` commands was cut, if its successor found what it left there. */
  ghost predicate CutAt(traces: seq<LegalTrace>, cuts: seq<nat>, last: nat) {
    && last < |traces| == |cuts| && (forall i | 0 <= i <= last :: cuts[i] <= |traces[i].run|)
    && forall i | 0 < i <= last :: CrashPoint(traces[i - 1], cuts[i - 1]) == traces[i].start
  }

  /** The effective changes of all commands up to their cuts. */
  ghost function Effort(traces: seq<LegalTrace>, cuts: seq<nat>, last: nat): nat
    requires CutAt(traces, cuts, last)
  {
    LegalPrefix(traces[last].start, traces[last].run, cuts[last]);
    EffectiveCount(traces[last].start, traces[last].run[..cuts[last]])
    + if last == 0 then 0 else Effort(traces, cuts, last - 1)
  }

  lemma RecoverySession(trace: LegalTrace, n: nat, pending: Disk)
    requires n <= |trace.run| && pending.marker.Some? && OnCourse(trace.start, pending)
    requires trace.start.marker.Some? && trace.command == Recovering(Destiny(trace.start))
    ensures OnCourse(CrashPoint(trace, n), pending)
    ensures Legal(trace.start, trace.run[..n])
         && EffectiveCount(trace.start, trace.run[..n]) + Rank(CrashPoint(trace, n)) <= Rank(trace.start)
  {
    LegalPrefix(trace.start, trace.run, n);
    forall c | c in trace.run[..n]
      ensures RecoveryKind(c, Destiny(pending))
    {
      assert c in trace.run && Permits(trace.command, c);
    }
    RecoveryStaysOnCourse(trace.start, trace.run[..n], pending);
  }

  /**
   Every sequence of recoveries of a reachable pending state, each resumed from wherever a crash or an exception cut
   the one before it, heads for the one terminal state the first of them found decided, and all of them together
   make no more effective changes than the rank of the first state allows.
   */
  lemma {:induction false} EveryRecoverySessionConverges(traces: seq<LegalTrace>, cuts: seq<nat>, last: nat)
    requires CutAt(traces, cuts, last) && Inv(traces[0].start)
    requires forall trace <- traces :: trace.start.marker.Some? && trace.command == Recovering(Destiny(trace.start))
    ensures OnCourse(CrashPoint(traces[last], cuts[last]), traces[0].start)
    ensures Effort(traces, cuts, last) + Rank(CrashPoint(traces[last], cuts[last])) <= Rank(traces[0].start)
    decreases last
  {
    if last > 0 {
      EveryRecoverySessionConverges(traces, cuts, last - 1);
    }
    RecoverySession(traces[last], cuts[last], traces[0].start);
  }
}
