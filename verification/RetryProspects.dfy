/** What is left of a mount attempt that has started its child, and how it leads to another attempt. */
module RetryProspects {
  import opened MountTypes
  import opened Controller
  import opened ControllerProofs
  import opened RetryPolicy
  import opened MountedStability

  /** No failure would be retried any more. */
  predicate Exhausted(policy: Policy, e: Entry) {
    e.info.attempt >= MaxAttempts(policy) || (e.info.everMounted && !policy.autoRemount)
  }

  predicate Timer(e: Entry, i: nat) {
    i < |e.threads| && e.threads[i].RetryMountTimer? && e.threads[i].gen == e.generation
  }

  ghost predicate NoTimer(e: Entry) {
    forall i: nat :: !Timer(e, i)
  }

  /** No retry is due, and no timeout can make one due. */
  ghost predicate Over(policy: Policy, e: Entry) {
    || e.superseded
    || (NoTimer(e) && (Exhausted(policy, e) || (NoWatcher(e) && !e.operation.TimeoutCleanup?)))
  }

  // ---------------------------------------------------------------- how another attempt begins

  ghost predicate CanAttempt(policy: Policy, e: Entry) {
    exists run :: CanRun(policy, e, run) && Run(policy, e, run).attempts != e.attempts
  }

  lemma AttemptLater(policy: Policy, e: Entry, a: Action, r: Entry)
    requires Enabled(e, a) && r == Apply(policy, e, a) && r.attempts == e.attempts && CanAttempt(policy, r)
    ensures CanAttempt(policy, e)
  {
    var rest :| CanRun(policy, r, rest) && Run(policy, r, rest).attempts != r.attempts;
    var run := [a] + rest;
    assert run[1..] == rest;
    assert CanRun(policy, e, run) && Run(policy, e, run) == Run(policy, r, rest);
  }

  /** A retry is due and nothing holds the operation lock. */
  lemma TimerAttempts(policy: Policy, e: Entry, t: nat)
    requires Timer(e, t) && e.operation.Free? && !e.unmounting
    ensures CanAttempt(policy, e)
  {
    var a := RetryMountFires(t);
    var r := Apply(policy, e, a);
    assert |r.attempts| == |e.attempts| + 1;
    assert CanRun(policy, r, []) && Run(policy, r, []) == r;
    assert [a][1..] == [];
    assert CanRun(policy, e, [a]) && Run(policy, e, [a]) == r;
  }

  lemma CleanupAttempts(policy: Policy, e: Entry)
    requires e.operation == TimeoutCleanup(e.generation) && !e.unmounting && !Exhausted(policy, e)
    ensures CanAttempt(policy, e)
  {
    var r := Apply(policy, e, TimeoutCleaned(true));
    assert r == WaitToRetry(Release(e), RetryMountTimer(e.generation));
    assert Timer(r, |e.threads|);
    TimerAttempts(policy, r, |e.threads|);
    AttemptLater(policy, e, TimeoutCleaned(true), r);
  }

  lemma TimeoutAttempts(policy: Policy, e: Entry, t: nat)
    requires t < |e.threads| && e.threads[t] == TimingOut(e.generation) && e.operation.Free?
    requires !e.unmounting && !Exhausted(policy, e) && e.info.state != Mounted
    ensures CanAttempt(policy, e)
  {
    var r := Apply(policy, e, TimeoutFires(t));
    assert r == AfterTimeoutFires(e, t);
    CleanupAttempts(policy, r);
    AttemptLater(policy, e, TimeoutFires(t), r);
  }

  lemma WatcherAttempts(policy: Policy, e: Entry, t: nat)
    requires Watcher(e, t) && e.operation.Free? && !e.unmounting && !Exhausted(policy, e) && e.info.state != Mounted
    ensures CanAttempt(policy, e)
  {
    if e.threads[t].TimingOut? {
      TimeoutAttempts(policy, e, t);
    } else {
      var r := Apply(policy, e, DeadlinePasses(t));
      assert r == Become(e, t, TimingOut(e.generation));
      TimeoutAttempts(policy, r, t);
      AttemptLater(policy, e, DeadlinePasses(t), r);
    }
  }

  /** A retry is due, or a timeout can make one due. */
  ghost predicate Pending(policy: Policy, e: Entry) {
    && !e.unmounting
    && ((exists t: nat :: Timer(e, t))
        || (!Exhausted(policy, e) && e.info.state != Mounted && exists t: nat :: Watcher(e, t)))
  }

  lemma FreeAttempts(policy: Policy, e: Entry)
    requires e.operation.Free? && Pending(policy, e)
    ensures CanAttempt(policy, e)
  {
    if t: nat :| Timer(e, t) {
      TimerAttempts(policy, e, t);
    } else {
      var t: nat :| Watcher(e, t);
      WatcherAttempts(policy, e, t);
    }
  }

  /** Nothing that matters to a pending retry has changed. */
  predicate SameProspects(e: Entry, r: Entry) {
    && r.generation == e.generation && r.unmounting == e.unmounting && r.attempts == e.attempts
    && r.info.attempt == e.info.attempt && r.info.everMounted == e.info.everMounted
    && (r.info.state == Mounted ==> e.info.state == Mounted) && |r.threads| == |e.threads|
    && (forall i :: 0 <= i < |e.threads| && (Watcher(e, i) || Timer(e, i)) ==> r.threads[i] == e.threads[i])
  }

  lemma StillPending(policy: Policy, e: Entry, r: Entry)
    requires Pending(policy, e) && SameProspects(e, r)
    ensures Pending(policy, r)
  {
    if t: nat :| Timer(e, t) {
      assert Timer(r, t);
    } else {
      var t: nat :| Watcher(e, t);
      assert Watcher(r, t);
    }
  }

  lemma StoppedAttempts(policy: Policy, e: Entry)
    requires e.operation.AwaitingStop? && e.closes[e.operation.chan] > 0 && Pending(policy, e)
    ensures CanAttempt(policy, e)
  {
    var r := Apply(policy, e, ShutdownEnds);
    assert r == AfterShutdownEnds(e);
    StillPending(policy, e, r);
    FreeAttempts(policy, r);
    AttemptLater(policy, e, ShutdownEnds, r);
  }

  lemma AwaitAttempts(policy: Policy, e: Entry)
    requires ChannelsOk(e) && e.operation.AwaitingStop? && Pending(policy, e)
    ensures CanAttempt(policy, e)
  {
    var chan := e.operation.chan;
    if e.closes[chan] > 0 {
      StoppedAttempts(policy, e);
    } else {
      var t :| 0 <= t < |e.threads| && e.threads[t].Process? && e.threads[t].chan == chan;
      var a := ProcessExits(t, CleanExit);
      var r := Apply(policy, e, a);
      assert r == AfterProcessExit(e, t, CleanExit) && r.closes[chan] > 0;
      StillPending(policy, e, r);
      StoppedAttempts(policy, r);
      AttemptLater(policy, e, a, r);
    }
  }

  lemma StoppingAttempts(policy: Policy, e: Entry)
    requires Inv(policy, e) && e.operation.Stopping? && Pending(policy, e)
    ensures CanAttempt(policy, e)
  {
    var r := Apply(policy, e, ShutdownDetached);
    InvStep(policy, e, ShutdownDetached);
    assert r == Proceed(e, AwaitingStop(e.exitDone));
    StillPending(policy, e, r);
    AwaitAttempts(policy, r);
    AttemptLater(policy, e, ShutdownDetached, r);
  }

  lemma TimedOutAttempts(policy: Policy, e: Entry)
    requires e.operation == TimeoutCleanup(e.generation) && !e.unmounting
    requires Pending(policy, e) || !Exhausted(policy, e)
    ensures CanAttempt(policy, e)
  {
    if !Exhausted(policy, e) {
      CleanupAttempts(policy, e);
    } else {
      var r := Apply(policy, e, TimeoutCleaned(false));
      assert r == GiveUp(Release(e));
      StillPending(policy, e, r);
      FreeAttempts(policy, r);
      AttemptLater(policy, e, TimeoutCleaned(false), r);
    }
  }

  lemma NotOverAttempts(policy: Policy, e: Entry)
    requires Inv(policy, e) && Stable(e) && ChildDone(e) && !Over(policy, e)
    ensures CanAttempt(policy, e)
  {
    assert !e.unmounting;
    if e.operation.TimeoutCleanup? {
      assert Exhausted(policy, e) ==> Pending(policy, e);
      TimedOutAttempts(policy, e);
    } else {
      assert Pending(policy, e);
      assert e.operation.Free? || e.operation.Stopping? || e.operation.AwaitingStop?;
      if e.operation.Free? {
        FreeAttempts(policy, e);
      } else if e.operation.Stopping? {
        StoppingAttempts(policy, e);
      } else {
        AwaitAttempts(policy, e);
      }
    }
  }
}
