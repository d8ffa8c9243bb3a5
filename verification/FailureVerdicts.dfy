/** What a failure leads to: a retry, with the budget written out, or FAILED; and when an Unmount can try again. */
module FailureVerdicts {
  import opened MountTypes
  import opened Controller
  import opened ControllerProofs
  import opened ControllerTheorems

  // ---------------------------------------------------------------- one failure

  /** An attempt is left: below the configured maximum, or below five if none is configured. */
  predicate AttemptLeft(policy: Policy, e: Entry) {
    e.info.attempt < if policy.configuredAttempts > 0 then policy.configuredAttempts else 5
  }

  /** RETRY_WAIT with this timer, or FAILED without one; the operation lock is free. */
  predicate Verdict(e: Entry, retried: bool, timer: Thread, r: Entry) {
    && r.info == e.info.(state := if retried then RetryWait else Failed)
    && r.threads == (if retried then e.threads + [timer] else e.threads)
    && r.pendingPersists == e.pendingPersists + 1 && r.generation == e.generation
  }

  lemma WaitVerdict(e: Entry, timer: Thread)
    ensures Verdict(e, true, timer, WaitToRetry(e, timer))
  {
  }

  lemma GiveUpVerdict(e: Entry, timer: Thread)
    ensures Verdict(e, false, timer, GiveUp(e))
  {
  }

  lemma UnmountRecordVerdict(policy: Policy, e: Entry)
    ensures Verdict(e, AttemptLeft(policy, e), RetryUnmountTimer(e.generation),
                    RecordUnmountFailure(policy, e, e.generation))
  {
    var timer := RetryUnmountTimer(e.generation);
    WaitVerdict(e, timer);
    GiveUpVerdict(e, timer);
    var r := RecordUnmountFailure(policy, e, e.generation);
    assert r == if AttemptLeft(policy, e) then WaitToRetry(e, timer) else GiveUp(e);
  }

  lemma UnmountVerdict(policy: Policy, e: Entry)
    requires Enabled(e, UnmountFails) && e.operation.gen == e.generation
    ensures var r := Apply(policy, e, UnmountFails);
      Verdict(e, AttemptLeft(policy, e), RetryUnmountTimer(e.generation), r) && r.operation == Free
  {
    var e1 := Release(e);
    UnmountRecordVerdict(policy, e1);
    assert Apply(policy, e, UnmountFails) == RecordUnmountFailure(policy, e1, e.generation);
    assert e1.info == e.info && e1.threads == e.threads;
  }

  /** A failed unmount waits for a retry, with its timer, exactly when an attempt is left; otherwise it has FAILED. */
  lemma UnmountFailureIff(policy: Policy, e: Entry)
    requires Reachable(policy, e) && Enabled(e, UnmountFails)
    ensures var r := Apply(policy, e, UnmountFails);
      Verdict(e, AttemptLeft(policy, e), RetryUnmountTimer(e.generation), r) && r.operation == Free
  {
    ReachableInv(policy, e);
    UnmountVerdict(policy, e);
  }

  /** A mount failure may be retried: by its kind, the clean-up after it, the budget and the remount policy. */
  predicate MountRetried(policy: Policy, e: Entry, cleaned: bool, retryable: bool) {
    cleaned && retryable && AttemptLeft(policy, e) && (e.info.everMounted ==> policy.autoRemount)
  }

  lemma RecordVerdict(policy: Policy, e: Entry, code: FailureCode)
    requires !e.unmounting
    ensures Verdict(e, MountRetried(policy, e, true, !IsNonRetryable(code)), RetryMountTimer(e.generation),
                    RecordMountFailure(policy, e, e.generation, code))
    ensures Verdict(e, false, Done, RecordTerminalMountFailure(e, e.generation))
    ensures RecordMountFailure(policy, e, e.generation, code).operation == e.operation
    ensures RecordTerminalMountFailure(e, e.generation).operation == e.operation
  {
  }

  lemma Unclaimed(policy: Policy, e: Entry)
    requires Inv(policy, e) && (e.operation.TimeoutCleanup? || e.operation.StartFailed?)
    ensures e.operation.gen == e.generation && !e.unmounting
  {
  }

  /** After a timeout: a retry only if the mount was cleaned up, since a fresh attempt must not be stacked on it. */
  lemma TimeoutFailureIff(policy: Policy, e: Entry, cleaned: bool)
    requires Reachable(policy, e) && Enabled(e, TimeoutCleaned(cleaned))
    ensures var r := Apply(policy, e, TimeoutCleaned(cleaned));
      Verdict(e, MountRetried(policy, e, cleaned, true), RetryMountTimer(e.generation), r) && r.operation == Free
  {
    ReachableInv(policy, e);
    Unclaimed(policy, e);
    RecordVerdict(policy, Release(e), MountTimeout);
  }

  lemma StartFailureIff(policy: Policy, e: Entry)
    requires Reachable(policy, e) && Enabled(e, RecordStartFailure)
    ensures var r := Apply(policy, e, RecordStartFailure);
      Verdict(e, MountRetried(policy, e, true, true), RetryMountTimer(e.generation), r) && r.operation == Free
  {
    ReachableInv(policy, e);
    Unclaimed(policy, e);
    RecordVerdict(policy, Release(e), StartFailure);
  }

  /** After a crash of the current attempt. */
  lemma CrashFailureIff(policy: Policy, e: Entry, t: nat, cleaned: bool)
    requires Enabled(e, CrashHandled(t, cleaned)) && e.threads[t].gen == e.generation && !e.unmounting
    ensures var r := Apply(policy, e, CrashHandled(t, cleaned));
      Verdict(Become(e, t, Done), MountRetried(policy, e, cleaned, !IsNonRetryable(e.threads[t].code)),
              RetryMountTimer(e.generation), r)
  {
    RecordVerdict(policy, Become(e, t, Done), e.threads[t].code);
  }

  // ---------------------------------------------------------------- beginning an attempt

  /** An Unmount's first attempt counts as 1; asking again does not start the count over. */
  lemma UnmountCountsFromOne(policy: Policy, e: Entry)
    requires Enabled(e, UnmountRequested)
    ensures var r := Apply(policy, e, UnmountRequested);
      && r.info == e.info.(state := Unmounting, attempt := if e.unmounting then e.info.attempt else 1)
      && r.generation == e.generation + 1 && r.unmounting && r.threads == e.threads
  {
  }

  lemma RetryBegins(e: Entry, t: nat)
    requires t < |e.threads| && e.threads[t].RetryUnmountTimer? && e.threads[t].gen == e.generation && e.unmounting
    ensures var r := AfterRetryUnmountFires(e, t);
      && r.operation == Detaching(e.generation + 1) && r.generation == e.generation + 1
      && r.info == e.info.(state := Unmounting, attempt := e.info.attempt + 1)
  {
  }

  /** A retry timer of the current generation begins a new unmount attempt, and any other one nothing. */
  lemma RetryUnmountBegins(policy: Policy, e: Entry, t: nat)
    requires Reachable(policy, e) && Enabled(e, RetryUnmountFires(t))
    ensures var r := Apply(policy, e, RetryUnmountFires(t));
      if e.threads[t].gen == e.generation then
        && r.operation == Detaching(e.generation + 1) && r.generation == e.generation + 1
        && r.info == e.info.(state := Unmounting, attempt := e.info.attempt + 1)
      else
        r == Become(e, t, Done)
  {
    ReachableInv(policy, e);
    UnmountTimerMeansIt(policy, e, t);
    if e.threads[t].gen == e.generation {
      RetryBegins(e, t);
    }
  }

  lemma UnmountTimerMeansIt(policy: Policy, e: Entry, t: nat)
    requires Inv(policy, e) && t < |e.threads| && e.threads[t].RetryUnmountTimer?
    ensures e.unmounting
  {
  }

  /** A mount retry timer begins a new attempt, on a new channel and with a clean slate, exactly if it is current. */
  lemma RetryMountBegins(policy: Policy, e: Entry, t: nat)
    requires Reachable(policy, e) && Enabled(e, RetryMountFires(t))
    ensures var r := Apply(policy, e, RetryMountFires(t));
      if e.threads[t].gen == e.generation then
        && r.operation == Starting(e.generation + 1) && r.generation == e.generation + 1
        && r.info == e.info.(state := PendingMount, attempt := e.info.attempt + 1)
        && r.exitDone == e.exitDone + 1 && r.closes[r.exitDone] == 0 && !r.timedOut
      else
        r == Become(e, t, Done)
  {
    ReachableInv(policy, e);
    MountTimerIsFree(policy, e, t);
  }

  lemma MountTimerIsFree(policy: Policy, e: Entry, t: nat)
    requires Inv(policy, e) && t < |e.threads| && e.threads[t].RetryMountTimer? && e.operation.Free?
    ensures e.threads[t].gen == e.generation ==> !e.unmounting
    ensures e.closes[e.exitDone + 1] == 0
  {
  }

  // ---------------------------------------------------------------- when an accepted Unmount can try again

  /** No timer of the current generation waits to retry the unmount. */
  predicate NoUnmountTimer(e: Entry) {
    forall i :: 0 <= i < |e.threads| && e.threads[i].RetryUnmountTimer? ==> e.threads[i].gen != e.generation
  }

  /** The unmount is about to begin or under way, and can still fail. */
  predicate MayStillFail(op: Operation) {
    op.Tombstoning? || op.Detaching? || op.AwaitingExit? || op.Removing?
  }

  /** Nothing is scheduled, the mount is gone, or the attempt under way is the last. */
  predicate LastTry(policy: Policy, e: Entry) {
    && e.accepted
    && (if e.operation.Free? then NoUnmountTimer(e) else MayStillFail(e.operation) ==> !AttemptLeft(policy, e))
  }

  ghost predicate Unrequested(run: seq<Action>) {
    forall i :: 0 <= i < |run| ==> !run[i].UnmountRequested?
  }

  /** Some run without a new request begins another unmount attempt. */
  ghost predicate CanTryAgain(policy: Policy, e: Entry) {
    exists run :: Unrequested(run) && CanRun(policy, e, run) && TriesAgain(e, Run(policy, e, run))
  }

  predicate TriesAgain(e: Entry, r: Entry) {
    r.operation.Detaching? && r.generation > e.generation
  }

  lemma LastTryThread(policy: Policy, e: Entry, a: Action)
    requires Inv(policy, e) && LastTry(policy, e) && Enabled(e, a) && a.ByThread()
    ensures var r := Apply(policy, e, a); LastTry(policy, r) && r.generation == e.generation
  {
    assert Stale(e, a.t);
    StaleStep(policy, e, a);
    StaysStaleStep(policy, e, a.t, a);
    var r := Apply(policy, e, a);
    assert Core(r).info == Core(e).info && Core(r).generation == Core(e).generation;
    assert Core(r).operation == Core(e).operation && Core(r).accepted == Core(e).accepted;
  }

  /** Whatever the owner does next, no timer of this generation exists yet. */
  lemma NoTimerYet(policy: Policy, e: Entry)
    requires Inv(policy, e) && e.accepted && !e.operation.Free?
    ensures NoUnmountTimer(e)
  {
    assert AllStale(e);
  }

  lemma LastTryFails(policy: Policy, e: Entry)
    requires Inv(policy, e) && LastTry(policy, e) && Enabled(e, UnmountFails)
    ensures var r := Apply(policy, e, UnmountFails); LastTry(policy, r) && r.generation == e.generation
  {
    NoTimerYet(policy, e);
    UnmountVerdict(policy, e);
  }

  lemma LastTryTombstone(policy: Policy, e: Entry, ok: bool)
    requires Inv(policy, e) && LastTry(policy, e) && e.operation.Tombstoning?
    ensures var r := AfterTombstoneReturns(e, ok); LastTry(policy, r) && r.generation == e.generation
  {
    NoTimerYet(policy, e);
  }

  lemma LastTryProceeds(policy: Policy, e: Entry, op: Operation)
    requires LastTry(policy, e) && MayStillFail(e.operation) && UnmountOperation(op)
    ensures var r := Proceed(e, op); LastTry(policy, r) && r.generation == e.generation
  {
  }

  lemma LastTryUnregisters(policy: Policy, e: Entry)
    requires Inv(policy, e) && LastTry(policy, e) && e.operation.Unregistering?
    ensures var r := AfterUnregister(e); LastTry(policy, r) && r.generation == e.generation
  {
    NoTimerYet(policy, e);
  }

  lemma LastTryPersists(policy: Policy, e: Entry)
    requires LastTry(policy, e) && e.pendingPersists > 0
    ensures var r := AfterPersist(e); LastTry(policy, r) && r.generation == e.generation
  {
  }

  lemma AcceptedActions(policy: Policy, e: Entry, a: Action)
    requires Inv(policy, e) && e.accepted && Enabled(e, a) && !a.ByThread() && !a.UnmountRequested?
    ensures || a.TombstoneReturns? || a.UnmountFails? || a.Detached? || a.ExitSeen? || a.DeleteReturns?
            || a.Unregister? || a.PersistReturns?
  {
  }

  lemma LastTryStep(policy: Policy, e: Entry, a: Action)
    requires Inv(policy, e) && LastTry(policy, e) && Enabled(e, a) && !a.UnmountRequested?
    ensures var r := Apply(policy, e, a); LastTry(policy, r) && r.generation == e.generation
  {
    if a.ByThread() {
      LastTryThread(policy, e, a);
    } else {
      AcceptedActions(policy, e, a);
      match a
      case TombstoneReturns(ok) => LastTryTombstone(policy, e, ok);
      case UnmountFails => LastTryFails(policy, e);
      case Detached => LastTryProceeds(policy, e, AwaitingExit(e.operation.gen, e.exitDone));
      case ExitSeen => LastTryProceeds(policy, e, Removing(e.operation.gen));
      case DeleteReturns(_) => LastTryProceeds(policy, e, Unregistering(e.operation.gen));
      case Unregister => LastTryUnregisters(policy, e);
      case PersistReturns(_) => LastTryPersists(policy, e);
    }
  }

  lemma {:induction false} LastTryRun(policy: Policy, e: Entry, run: seq<Action>)
    requires Inv(policy, e) && LastTry(policy, e) && CanRun(policy, e, run) && Unrequested(run)
    ensures Run(policy, e, run).generation == e.generation
    decreases |run|
  {
    if run != [] {
      LastTryStep(policy, e, run[0]);
      InvStep(policy, e, run[0]);
      LastTryRun(policy, Apply(policy, e, run[0]), run[1..]);
    }
  }

  lemma TriedAfter(policy: Policy, e: Entry, a: Action, rest: seq<Action>)
    requires Enabled(e, a) && !a.UnmountRequested? && Unrequested(rest)
    requires CanRun(policy, Apply(policy, e, a), rest)
    requires TriesAgain(e, Run(policy, Apply(policy, e, a), rest))
    ensures CanTryAgain(policy, e)
  {
    var run := [a] + rest;
    assert run[0] == a && run[1..] == rest;
    assert Unrequested(run);
    assert CanRun(policy, e, run);
  }

  lemma TryAgainLater(policy: Policy, e: Entry, a: Action, r: Entry)
    requires Enabled(e, a) && !a.UnmountRequested? && r == Apply(policy, e, a) && r.generation >= e.generation
    requires CanTryAgain(policy, r) || TriesAgain(e, r)
    ensures CanTryAgain(policy, e)
  {
    if CanTryAgain(policy, r) {
      var rest :| Unrequested(rest) && CanRun(policy, r, rest) && TriesAgain(r, Run(policy, r, rest));
      TriedAfter(policy, e, a, rest);
    } else {
      TriedAfter(policy, e, a, []);
    }
  }

  lemma TimerTriesAgain(policy: Policy, e: Entry, t: nat)
    requires Enabled(e, RetryUnmountFires(t)) && e.threads[t].gen == e.generation && e.unmounting
    ensures CanTryAgain(policy, e)
  {
    var r := Apply(policy, e, RetryUnmountFires(t));
    assert r == AfterRetryUnmountFires(e, t);
    TryAgainLater(policy, e, RetryUnmountFires(t), r);
  }

  lemma FailureTriesAgain(policy: Policy, e: Entry)
    requires Enabled(e, UnmountFails) && e.operation.gen == e.generation && e.unmounting && AttemptLeft(policy, e)
    ensures CanTryAgain(policy, e)
  {
    UnmountVerdict(policy, e);
    var r := Apply(policy, e, UnmountFails);
    assert r == WaitToRetry(Release(e), RetryUnmountTimer(e.generation));
    assert r.threads[|e.threads|] == RetryUnmountTimer(e.generation);
    TimerTriesAgain(policy, r, |e.threads|);
    TryAgainLater(policy, e, UnmountFails, r);
  }

  lemma TombstoneTriesAgain(policy: Policy, e: Entry)
    requires e.operation.Tombstoning? && e.operation.gen == e.generation && e.unmounting && AttemptLeft(policy, e)
    ensures CanTryAgain(policy, e)
  {
    var r := Apply(policy, e, TombstoneReturns(true));
    assert r == AfterTombstoneReturns(e, true);
    FailureTriesAgain(policy, r);
    TryAgainLater(policy, e, TombstoneReturns(true), r);
  }

  /**
   * Exactly when an accepted Unmount can still try again without being asked to: its retry is scheduled, or it is
   * under way with an attempt left. A timer is left over only where no attempt holds the operation lock.
   */
  lemma TryAgainIff(policy: Policy, e: Entry)
    requires Reachable(policy, e) && e.accepted
    ensures CanTryAgain(policy, e) <==>
            if e.operation.Free?
            then exists t :: 0 <= t < |e.threads| && e.threads[t] == RetryUnmountTimer(e.generation)
            else !e.operation.Unregistering? && AttemptLeft(policy, e)
  {
    ReachableInv(policy, e);
    if LastTry(policy, e) {
      forall run | Unrequested(run) && CanRun(policy, e, run)
        ensures !TriesAgain(e, Run(policy, e, run))
      {
        LastTryRun(policy, e, run);
      }
    } else if e.operation.Free? {
      var t :| 0 <= t < |e.threads| && e.threads[t].RetryUnmountTimer? && e.threads[t].gen == e.generation;
      TimerTriesAgain(policy, e, t);
    } else if e.operation.Tombstoning? {
      TombstoneTriesAgain(policy, e);
    } else {
      FailureTriesAgain(policy, e);
    }
  }
}
