/** Invariants of the controller and its theorems over whole runs. */
module ControllerProofs {
  import opened MountTypes
  import opened Controller

  // ---------------------------------------------------------------- the invariant

  const UNMOUNT_STATES := {Unmounting, RetryWait, Failed}

  /** The owner still has to start a child, or to close exitDone itself. */
  predicate HoldsExitDone(op: Operation) {
    op.Creating? || op.Starting? || op.Expired? || op.Launching?
  }

  predicate BeforeChild(op: Operation) {
    op.Creating? || op.Starting? || op.Expired? || op.StartFailed?
  }

  predicate MountOperation(op: Operation) {
    BeforeChild(op) || op.Launching? || op.TimeoutCleanup?
  }

  predicate UnmountOperation(op: Operation) {
    op.Detaching? || op.AwaitingExit? || op.Removing? || op.Unregistering?
  }

  predicate MountThread(thread: Thread) {
    thread.Process? || thread.Crashed? || thread.Watching? || thread.TimingOut? || thread.RetryMountTimer?
  }

  /** A live waitForProcess that will close channel `chan`. */
  predicate Supervised(e: Entry, chan: nat) {
    exists i :: 0 <= i < |e.threads| && e.threads[i].Process? && e.threads[i].chan == chan
  }

  ghost predicate ChannelsOk(e: Entry) {
    && (forall c :: e.closes[c] <= 1)
    && (forall c: nat :: c > e.exitDone ==> e.closes[c] == 0)
    && (forall i :: 0 <= i < |e.threads| && e.threads[i].Process? ==>
          && e.threads[i].chan <= e.exitDone && e.closes[e.threads[i].chan] == 0
          && (e.threads[i].chan == e.exitDone ==> !HoldsExitDone(e.operation)))
    && (forall i, j :: 0 <= i < j < |e.threads| && e.threads[i].Process? && e.threads[j].Process? ==>
          e.threads[i].chan != e.threads[j].chan)
    && (HoldsExitDone(e.operation) ==> e.closes[e.exitDone] == 0)
    && (forall c: nat :: c <= e.exitDone && e.closes[c] == 0 ==>
          Supervised(e, c) || (c == e.exitDone && HoldsExitDone(e.operation)))
    && (e.operation.AwaitingExit? || e.operation.AwaitingStop? ==> e.operation.chan <= e.exitDone)
  }

  predicate OperationOk(e: Entry) {
    && (!e.operation.Free? && !e.operation.Stopping? && !e.operation.AwaitingStop? ==> e.operation.gen == e.generation)
    && (e.superseded ==> !MountOperation(e.operation))
    && (UnmountOperation(e.operation) ==> e.accepted)
  }

  predicate IntentOk(e: Entry) {
    && (e.unmounting <==> e.accepted || e.operation.Tombstoning?)
    && (e.accepted ==> e.superseded && e.info.state in UNMOUNT_STATES)
    && (e.accepted ==> !e.operation.Stopping? && !e.operation.AwaitingStop?)
    && (e.operation.Tombstoning? ==>
          && e.superseded && !e.rejected && e.info.state == Unmounting && e.operation.wasUnmounting == e.accepted
          && (e.accepted ==> e.operation.previousState in UNMOUNT_STATES))
    && (!e.registered ==> e.accepted && e.operation.Free?)
  }

  predicate ThreadsOk(policy: Policy, e: Entry) {
    forall i :: 0 <= i < |e.threads| ==>
      && Gen(e.threads[i]) <= e.generation
      && (MountThread(e.threads[i]) && e.superseded ==> Gen(e.threads[i]) < e.generation)
      && (e.threads[i].RetryUnmountTimer? ==> e.accepted)
      && (e.threads[i].RetryUnmountTimer? || e.threads[i].RetryMountTimer? ==>
            Gen(e.threads[i]) == e.generation ==> e.info.attempt < MaxAttempts(policy))
  }

  predicate BudgetOk(policy: Policy, e: Entry) {
    && |e.attempts| >= 1
    && (forall i :: 0 <= i < |e.attempts| ==> e.attempts[i] == Attempt(i, i + 1))
    && (|e.attempts| == 1 || e.restored + |e.attempts| - 1 <= MaxAttempts(policy))
    && (!e.superseded ==> e.generation == |e.attempts| && e.info.attempt == e.restored + |e.attempts| - 1)
    && |e.attempts| <= e.generation
    && (e.info.attempt <= e.restored || e.info.attempt <= MaxAttempts(policy))
    && |e.children| <= |e.attempts|
    && (BeforeChild(e.operation) ==> |e.children| < |e.attempts|)
    && (forall i :: 0 <= i < |e.children| ==> e.children[i] <= |e.attempts|)
    && (forall i :: 0 <= i < |e.children| && BeforeChild(e.operation) ==> e.children[i] < e.generation)
    && (forall i, j :: 0 <= i < j < |e.children| ==> e.children[i] < e.children[j])
  }

  predicate Scheduled(e: Entry) {
    exists i :: 0 <= i < |e.threads| && (e.threads[i].RetryMountTimer? || e.threads[i].RetryUnmountTimer?)
                && e.threads[i].gen == e.generation
  }

  /** No thread of the current generation is left: an Unmount request is at work, was rejected, or is done. */
  predicate AllStale(e: Entry) {
    e.rejected || e.operation.Tombstoning? || UnmountOperation(e.operation) || !e.registered
  }

  predicate ScheduleOk(e: Entry) {
    && (e.info.state == RetryWait && !e.rejected ==> Scheduled(e))
    && (e.rejected ==> e.superseded && (e.operation.Free? || e.operation.Stopping? || e.operation.AwaitingStop?))
    && (forall i :: 0 <= i < |e.threads| && AllStale(e) ==> Gen(e.threads[i]) < e.generation)
  }

  ghost predicate Inv(policy: Policy, e: Entry) {
    && e.generation >= 1
    && ChannelsOk(e) && OperationOk(e) && IntentOk(e) && ThreadsOk(policy, e) && BudgetOk(policy, e) && ScheduleOk(e)
  }

  // ---------------------------------------------------------------- every step keeps the invariant

  lemma KeepSupervised(e: Entry, e': Entry)
    requires |e.threads| <= |e'.threads|
    requires forall i :: 0 <= i < |e.threads| && e.threads[i].Process? ==> e'.threads[i] == e.threads[i]
    ensures forall c :: Supervised(e, c) ==> Supervised(e', c)
  {
    forall c | Supervised(e, c)
      ensures Supervised(e', c)
    {
      var i :| 0 <= i < |e.threads| && e.threads[i].Process? && e.threads[i].chan == c;
      assert e'.threads[i] == e.threads[i];
    }
  }

  predicate CurrentTimer(e: Entry, i: nat)
    requires i < |e.threads|
  {
    (e.threads[i].RetryMountTimer? || e.threads[i].RetryUnmountTimer?) && e.threads[i].gen == e.generation
  }

  lemma KeepScheduled(e: Entry, e': Entry)
    requires |e.threads| <= |e'.threads| && e.generation == e'.generation
    requires forall i :: 0 <= i < |e.threads| && CurrentTimer(e, i) ==> e'.threads[i] == e.threads[i]
    ensures Scheduled(e) ==> Scheduled(e')
  {
    if Scheduled(e) {
      var i :| 0 <= i < |e.threads| && (e.threads[i].RetryMountTimer? || e.threads[i].RetryUnmountTimer?)
               && e.threads[i].gen == e.generation;
      assert CurrentTimer(e, i) && e'.threads[i] == e.threads[i];
    }
  }

  lemma BecomeStep(policy: Policy, e: Entry, t: nat, thread: Thread)
    requires Inv(policy, e)
    requires t < |e.threads| && !e.threads[t].Process? && !e.threads[t].Done? && !CurrentTimer(e, t)
    requires thread.Done? || (thread.TimingOut? && e.threads[t].Watching? && thread.gen == e.threads[t].gen)
    ensures Inv(policy, Become(e, t, thread))
  {
    var e' := Become(e, t, thread);
    KeepSupervised(e, e');
    KeepScheduled(e, e');
  }

  lemma RetryingStep(policy: Policy, e: Entry, timer: Thread)
    requires Inv(policy, e) && e.info.attempt < MaxAttempts(policy) && !AllStale(e)
    requires || (timer == RetryMountTimer(e.generation) && !e.superseded)
             || (timer == RetryUnmountTimer(e.generation) && e.accepted)
    ensures Inv(policy, WaitToRetry(e, timer))
  {
    var e' := WaitToRetry(e, timer);
    KeepSupervised(e, e');
    assert e'.threads[|e.threads|] == timer;
  }

  lemma FailingStep(policy: Policy, e: Entry)
    requires Inv(policy, e) && !e.operation.Tombstoning?
    ensures Inv(policy, GiveUp(e))
  {
    KeepSupervised(e, GiveUp(e));
  }

  lemma MountFailureStep(policy: Policy, e: Entry, gen: nat, code: FailureCode)
    requires Inv(policy, e) && (gen == e.generation ==> !e.superseded)
    ensures Inv(policy, RecordMountFailure(policy, e, gen, code))
  {
    if gen == e.generation && !e.unmounting {
      if e.info.attempt < MaxAttempts(policy) {
        RetryingStep(policy, e, RetryMountTimer(gen));
      }
      FailingStep(policy, e);
    }
  }

  lemma TerminalFailureStep(policy: Policy, e: Entry, gen: nat)
    requires Inv(policy, e)
    ensures Inv(policy, RecordTerminalMountFailure(e, gen))
  {
    if gen == e.generation && !e.unmounting {
      FailingStep(policy, e);
    }
  }

  lemma ReleaseStep(policy: Policy, e: Entry)
    requires Inv(policy, e)
    requires e.operation.StartFailed? || e.operation.TimeoutCleanup? || UnmountOperation(e.operation)
    ensures Inv(policy, Release(e))
  {
    KeepSupervised(e, Release(e));
  }

  lemma CreateStep(policy: Policy, e: Entry, ok: bool)
    requires Inv(policy, e) && e.operation.Creating?
    ensures Inv(policy, AfterCreate(e, ok))
  {
    var e' := AfterCreate(e, ok);
    KeepSupervised(e, e');
    if ok {
      assert ChannelsOk(e');
    } else {
      assert forall c: nat :: c != e.exitDone ==> e'.closes[c] == e.closes[c];
      assert ChannelsOk(e');
    }
  }

  lemma PrepareExpiresStep(policy: Policy, e: Entry)
    requires Inv(policy, e) && e.operation.Starting?
    ensures Inv(policy, AfterPrepareExpires(e))
  {
  }

  lemma StartFailsStep(policy: Policy, e: Entry)
    requires Inv(policy, e) && (e.operation.Starting? || e.operation.Expired?)
    ensures Inv(policy, AfterStartFails(e))
  {
    KeepSupervised(e, AfterStartFails(e));
  }

  lemma ChildStep(policy: Policy, e: Entry)
    requires Inv(policy, e) && Enabled(e, StartSucceeds)
    ensures Inv(policy, AfterStartSucceeds(e))
  {
  }

  lemma LaunchStep(policy: Policy, e: Entry)
    requires Inv(policy, e) && e.operation.Launching?
    ensures Inv(policy, AfterLaunch(e))
  {
    var e' := AfterLaunch(e);
    KeepSupervised(e, e');
    KeepScheduled(e, e');
    assert e'.threads[|e.threads|] == Process(e.generation, e.exitDone);
  }

  lemma StartFailureStep(policy: Policy, e: Entry)
    requires Inv(policy, e) && e.operation.StartFailed?
    ensures Inv(policy, RecordMountFailure(policy, Release(e), e.generation, StartFailure))
  {
    ReleaseStep(policy, e);
    MountFailureStep(policy, Release(e), e.generation, StartFailure);
  }

  lemma TimeoutCleanedStep(policy: Policy, e: Entry, cleaned: bool)
    requires Inv(policy, e) && e.operation.TimeoutCleanup?
    ensures Inv(policy, AfterTimeoutCleaned(policy, e, cleaned))
  {
    ReleaseStep(policy, e);
    if cleaned {
      MountFailureStep(policy, Release(e), e.generation, MountTimeout);
    } else {
      TerminalFailureStep(policy, Release(e), e.generation);
    }
  }

  lemma ProcessExitsStep(policy: Policy, e: Entry, t: nat, exit: Exit)
    requires Inv(policy, e) && Enabled(e, ProcessExits(t, exit))
    ensures Inv(policy, AfterProcessExit(e, t, exit))
  {
    var e' := AfterProcessExit(e, t, exit);
    KeepScheduled(e, e');
    forall c: nat | c <= e'.exitDone && e'.closes[c] == 0
      ensures Supervised(e', c) || (c == e'.exitDone && HoldsExitDone(e'.operation))
    {
      if Supervised(e, c) {
        var i :| 0 <= i < |e.threads| && e.threads[i].Process? && e.threads[i].chan == c;
        assert e'.threads[i] == e.threads[i];
      }
    }
  }

  lemma ObservedStep(policy: Policy, e: Entry, t: nat)
    requires Inv(policy, e) && Enabled(e, MountObserved(t))
    ensures Inv(policy, AfterMountObserved(e, t))
  {
    BecomeStep(policy, e, t, Done);
    KeepSupervised(Become(e, t, Done), AfterMountObserved(e, t));
  }

  lemma TimeoutStep(policy: Policy, e: Entry, t: nat)
    requires Inv(policy, e) && Enabled(e, TimeoutFires(t))
    ensures Inv(policy, AfterTimeoutFires(e, t))
  {
    BecomeStep(policy, e, t, Done);
    TimeoutBeginsStep(policy, Become(e, t, Done));
  }

  lemma TimeoutBeginsStep(policy: Policy, e: Entry)
    requires Inv(policy, e) && e.operation.Free?
    ensures !e.superseded ==> Inv(policy, e.(timedOut := true, operation := TimeoutCleanup(e.generation)))
  {
    KeepSupervised(e, e.(timedOut := true, operation := TimeoutCleanup(e.generation)));
  }

  lemma RetryMountStep(policy: Policy, e: Entry, t: nat)
    requires Inv(policy, e) && Enabled(e, RetryMountFires(t))
    ensures Inv(policy, AfterRetryMountFires(e, t))
  {
    if e.threads[t].gen == e.generation {
      KeepSupervised(e, AfterRetryMountFires(e, t));
    } else {
      BecomeStep(policy, e, t, Done);
    }
  }

  lemma RetryUnmountStep(policy: Policy, e: Entry, t: nat)
    requires Inv(policy, e) && Enabled(e, RetryUnmountFires(t))
    ensures Inv(policy, AfterRetryUnmountFires(e, t))
  {
    if e.threads[t].gen == e.generation {
      KeepSupervised(e, AfterRetryUnmountFires(e, t));
    } else {
      BecomeStep(policy, e, t, Done);
    }
  }

  lemma UnmountRequestStep(policy: Policy, e: Entry)
    requires Inv(policy, e) && Enabled(e, UnmountRequested)
    ensures Inv(policy, AfterUnmountRequested(e))
  {
  }

  lemma TombstoneStep(policy: Policy, e: Entry, ok: bool)
    requires Inv(policy, e) && e.operation.Tombstoning?
    ensures Inv(policy, AfterTombstoneReturns(e, ok))
  {
    var e' := AfterTombstoneReturns(e, ok);
    KeepSupervised(e, e');
    KeepScheduled(e, e');
    if !ok {
      assert forall i :: 0 <= i < |e.threads| ==> Gen(e.threads[i]) < e.generation;
    }
  }

  lemma UnmountProgressStep(policy: Policy, e: Entry, op: Operation)
    requires Inv(policy, e) && UnmountOperation(e.operation) && UnmountOperation(op) && op.gen == e.generation
    requires op.AwaitingExit? ==> op.chan == e.exitDone
    ensures Inv(policy, Proceed(e, op))
  {
    KeepSupervised(e, Proceed(e, op));
    KeepScheduled(e, Proceed(e, op));
  }

  lemma RemovalStep(policy: Policy, e: Entry)
    requires Inv(policy, e) && e.operation.Unregistering?
    ensures Inv(policy, AfterUnregister(e))
  {
    KeepSupervised(e, AfterUnregister(e));
    KeepScheduled(e, AfterUnregister(e));
  }

  lemma ShutdownRequestStep(policy: Policy, e: Entry)
    requires Inv(policy, e) && Enabled(e, ShutdownRequested)
    ensures Inv(policy, AfterShutdownRequested(e))
  {
  }

  lemma ShutdownDetachedStep(policy: Policy, e: Entry)
    requires Inv(policy, e) && Enabled(e, ShutdownDetached)
    ensures Inv(policy, Proceed(e, AwaitingStop(e.exitDone)))
  {
  }

  lemma ShutdownEndsStep(policy: Policy, e: Entry)
    requires Inv(policy, e) && Enabled(e, ShutdownEnds)
    ensures Inv(policy, AfterShutdownEnds(e))
  {
  }

  lemma PersistStep(policy: Policy, e: Entry)
    requires Inv(policy, e) && e.pendingPersists > 0
    ensures Inv(policy, AfterPersist(e))
  {
  }

  lemma MountActionStep(policy: Policy, e: Entry, a: Action)
    requires Inv(policy, e) && Enabled(e, a) && a.Mounts()
    ensures Inv(policy, MountStep(policy, e, a))
  {
    match a
    case CreateReturns(ok) => CreateStep(policy, e, ok);
    case PrepareExpires => PrepareExpiresStep(policy, e);
    case StartFails => StartFailsStep(policy, e);
    case RecordStartFailure =>
      StartFailureStep(policy, e);
    case StartSucceeds => ChildStep(policy, e);
    case Launch => LaunchStep(policy, e);
    case TimeoutCleaned(cleaned) =>
      TimeoutCleanedStep(policy, e, cleaned);
  }

  lemma UnmountFailureStep(policy: Policy, e: Entry)
    requires Inv(policy, e) && e.accepted && !AllStale(e)
    ensures Inv(policy, RecordUnmountFailure(policy, e, e.generation))
  {
    if e.info.attempt < MaxAttempts(policy) {
      RetryingStep(policy, e, RetryUnmountTimer(e.generation));
    } else {
      FailingStep(policy, e);
    }
  }

  lemma UnmountFailsStep(policy: Policy, e: Entry)
    requires Inv(policy, e) && Enabled(e, UnmountFails)
    ensures Inv(policy, RecordUnmountFailure(policy, Release(e), e.generation))
  {
    ReleaseStep(policy, e);
    UnmountFailureStep(policy, Release(e));
  }

  lemma ProgressActionStep(policy: Policy, e: Entry, a: Action)
    requires Inv(policy, e) && Enabled(e, a) && (a.Detached? || a.ExitSeen? || a.DeleteReturns?)
    ensures Inv(policy, UnmountStep(policy, e, a))
  {
    if a.Detached? {
      UnmountProgressStep(policy, e, AwaitingExit(e.generation, e.exitDone));
    } else if a.ExitSeen? {
      UnmountProgressStep(policy, e, Removing(e.generation));
    } else {
      UnmountProgressStep(policy, e, Unregistering(e.generation));
    }
  }

  lemma ShutdownActionStep(policy: Policy, e: Entry, a: Action)
    requires Inv(policy, e) && Enabled(e, a)
    requires a.ShutdownRequested? || a.ShutdownDetached? || a.ShutdownEnds? || a.PersistReturns?
    ensures Inv(policy, UnmountStep(policy, e, a))
  {
    if a.ShutdownRequested? {
      ShutdownRequestStep(policy, e);
    } else if a.ShutdownDetached? {
      ShutdownDetachedStep(policy, e);
    } else if a.ShutdownEnds? {
      ShutdownEndsStep(policy, e);
    } else {
      PersistStep(policy, e);
    }
  }

  lemma UnmountActionStep(policy: Policy, e: Entry, a: Action)
    requires Inv(policy, e) && Enabled(e, a) && !a.Mounts() && !a.ByThread()
    ensures Inv(policy, UnmountStep(policy, e, a))
  {
    if a.UnmountRequested? {
      UnmountRequestStep(policy, e);
    } else if a.TombstoneReturns? {
      TombstoneStep(policy, e, a.ok);
    } else if a.UnmountFails? {
      UnmountFailsStep(policy, e);
    } else if a.Unregister? {
      RemovalStep(policy, e);
    } else if a.Detached? || a.ExitSeen? || a.DeleteReturns? {
      ProgressActionStep(policy, e, a);
    } else {
      ShutdownActionStep(policy, e, a);
    }
  }

  lemma ThreadActionStep(policy: Policy, e: Entry, a: Action)
    requires Inv(policy, e) && Enabled(e, a) && a.ByThread()
    ensures Inv(policy, ThreadStep(policy, e, a))
  {
    match a
    case ProcessExits(t, exit) => ProcessExitsStep(policy, e, t, exit);
    case CrashHandled(t, cleaned) =>
      BecomeStep(policy, e, t, Done);
      MountFailureStep(policy, Become(e, t, Done), e.threads[t].gen, e.threads[t].code);
      TerminalFailureStep(policy, Become(e, t, Done), e.threads[t].gen);
    case MountObserved(t) => ObservedStep(policy, e, t);
    case WatchStops(t) => BecomeStep(policy, e, t, Done);
    case DeadlinePasses(t) => BecomeStep(policy, e, t, TimingOut(e.threads[t].gen));
    case TimeoutFires(t) => TimeoutStep(policy, e, t);
    case RetryMountFires(t) => RetryMountStep(policy, e, t);
    case RetryUnmountFires(t) => RetryUnmountStep(policy, e, t);
  }

  lemma InvStep(policy: Policy, e: Entry, a: Action)
    requires Inv(policy, e) && Enabled(e, a)
    ensures Inv(policy, Apply(policy, e, a))
  {
    if a.ByThread() {
      ThreadActionStep(policy, e, a);
    } else if a.Mounts() {
      MountActionStep(policy, e, a);
    } else {
      UnmountActionStep(policy, e, a);
    }
  }

  // ---------------------------------------------------------------- what the rest of the daemon relies on

  /** The part of the invariant that links registration, intent and the owner of the operation lock. */
  predicate Summary(e: Entry) {
    && (e.unmounting <==> e.accepted || e.operation.Tombstoning?)
    && (e.accepted || e.operation.Tombstoning? ==> e.superseded)
    && (e.superseded ==> !MountOperation(e.operation))
    && (UnmountOperation(e.operation) ==> e.accepted && e.registered)
    && (!e.registered ==> e.accepted)
  }

  /** An entry whose record was never created: no goroutine, no timer, and no child to come. */
  predicate Dormant(e: Entry) {
    && e.threads == []
    && (e.operation.Creating? || e.operation.Free? || e.operation.Tombstoning?
        || e.operation.Stopping? || e.operation.AwaitingStop?)
  }

  lemma SummaryHolds(policy: Policy, e: Entry)
    requires Inv(policy, e)
    ensures Summary(e)
  {
  }

  lemma DormantStep(policy: Policy, e: Entry, a: Action)
    requires Dormant(e) && Enabled(e, a) && a != CreateReturns(true)
    ensures Dormant(Apply(policy, e, a)) || Apply(policy, e, a).accepted
  {
  }

  /** A tombstone write is in flight only after an Unmount request, and a Create only from the start. */
  lemma RequestOrigin(policy: Policy, e: Entry, a: Action)
    requires Enabled(e, a) && !a.UnmountRequested?
    ensures NoNewRequest(e, Apply(policy, e, a))
  {
  }
}
