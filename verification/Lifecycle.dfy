/** What an entry can always still reach: a mount that succeeds, an Unmount that completes, an orderly shutdown. */
module Lifecycle {
  import opened MountTypes
  import opened Controller
  import opened ControllerTheorems
  import opened FailureVerdicts

  // ---------------------------------------------------------------- single steps

  /** The step takes the entry into MOUNTED, or into the clean-up after a timeout, as told. */
  predicate Enters(e: Entry, r: Entry, mounted: bool, cleanup: bool) {
    && (e.info.state != Mounted ==> (r.info.state == Mounted <==> mounted))
    && (!e.operation.TimeoutCleanup? ==> (r.operation.TimeoutCleanup? <==> cleanup))
  }

  /** The mount point is seen by the current attempt, which is mounting. */
  predicate SeesMount(e: Entry, a: Action)
    requires Enabled(e, a)
  {
    a.MountObserved? && e.threads[a.t].gen == e.generation && e.info.state == Mounting && !e.unmounting
  }

  /** The deadline of the current attempt has passed before it was mounted. */
  predicate TimesOut(e: Entry, a: Action)
    requires Enabled(e, a)
  {
    a.TimeoutFires? && e.threads[a.t].gen == e.generation && e.info.state != Mounted && !e.unmounting
  }

  lemma GiveUpEnters(e: Entry)
    ensures Enters(e, GiveUp(e), false, false)
  {
  }

  lemma WaitEnters(e: Entry, timer: Thread)
    ensures Enters(e, WaitToRetry(e, timer), false, false)
  {
  }

  lemma FailureEnters(policy: Policy, e: Entry, gen: nat, code: FailureCode)
    ensures Enters(e, RecordMountFailure(policy, e, gen, code), false, false)
    ensures Enters(e, RecordTerminalMountFailure(e, gen), false, false)
  {
    GiveUpEnters(e);
    WaitEnters(e, RetryMountTimer(gen));
    var r := RecordMountFailure(policy, e, gen, code);
    assert r == e || r == GiveUp(e) || r == WaitToRetry(e, RetryMountTimer(gen));
  }

  lemma UnmountFailureEnters(policy: Policy, e: Entry, gen: nat)
    ensures Enters(e, RecordUnmountFailure(policy, e, gen), false, false)
  {
    GiveUpEnters(e);
    WaitEnters(e, RetryUnmountTimer(gen));
    var r := RecordUnmountFailure(policy, e, gen);
    assert r == e || r == GiveUp(e) || r == WaitToRetry(e, RetryUnmountTimer(gen));
  }

  lemma ObservedEnters(e: Entry, t: nat)
    requires Enabled(e, MountObserved(t))
    ensures Enters(e, AfterMountObserved(e, t), SeesMount(e, MountObserved(t)), false)
  {
  }

  lemma TimeoutEnters(e: Entry, t: nat)
    requires Enabled(e, TimeoutFires(t))
    ensures Enters(e, AfterTimeoutFires(e, t), false, TimesOut(e, TimeoutFires(t)))
  {
  }

  lemma RetryMountEnters(e: Entry, t: nat)
    requires t < |e.threads| && e.threads[t].RetryMountTimer?
    ensures Enters(e, AfterRetryMountFires(e, t), false, false)
  {
  }

  lemma RetryUnmountEnters(e: Entry, t: nat)
    requires t < |e.threads| && e.threads[t].RetryUnmountTimer?
    ensures Enters(e, AfterRetryUnmountFires(e, t), false, false)
  {
  }

  lemma ThreadEnters(policy: Policy, e: Entry, a: Action)
    requires Enabled(e, a) && a.ByThread()
    ensures Enters(e, ThreadStep(policy, e, a), SeesMount(e, a), TimesOut(e, a))
  {
    match a
    case ProcessExits(_, _) =>
    case CrashHandled(t, _) => FailureEnters(policy, Become(e, t, Done), e.threads[t].gen, e.threads[t].code);
    case MountObserved(t) => ObservedEnters(e, t);
    case WatchStops(_) =>
    case DeadlinePasses(_) =>
    case TimeoutFires(t) => TimeoutEnters(e, t);
    case RetryMountFires(t) => RetryMountEnters(e, t);
    case RetryUnmountFires(t) => RetryUnmountEnters(e, t);
  }

  /** Neither state nor clean-up begins. */
  lemma PlainEnters(e: Entry, r: Entry)
    requires r.info.state == e.info.state || r.info.state != Mounted
    requires !r.operation.TimeoutCleanup?
    ensures Enters(e, r, false, false)
  {
  }

  lemma StartEnters(e: Entry)
    requires e.operation.Starting? || e.operation.Expired?
    ensures Enters(e, AfterStartFails(e), false, false)
    ensures e.operation.Starting? ==> Enters(e, AfterPrepareExpires(e), false, false)
  {
    PlainEnters(e, AfterStartFails(e));
    if e.operation.Starting? {
      PlainEnters(e, AfterPrepareExpires(e));
    }
  }

  lemma CreateEnters(e: Entry, ok: bool)
    requires e.operation.Creating?
    ensures Enters(e, AfterCreate(e, ok), false, false)
  {
  }

  lemma ChildEnters(e: Entry)
    requires e.operation.Starting?
    ensures Enters(e, AfterStartSucceeds(e), false, false)
  {
  }

  lemma LaunchEnters(e: Entry)
    requires e.operation.Launching?
    ensures Enters(e, AfterLaunch(e), false, false)
  {
  }

  lemma CleanedEnters(policy: Policy, e: Entry, cleaned: bool)
    requires e.operation.TimeoutCleanup?
    ensures Enters(e, AfterTimeoutCleaned(policy, e, cleaned), false, false)
  {
    ReleasedEnters(policy, e, e.operation.gen, MountTimeout);
  }

  lemma ReleasedEnters(policy: Policy, e: Entry, gen: nat, code: FailureCode)
    ensures Enters(e, RecordMountFailure(policy, Release(e), gen, code), false, false)
    ensures Enters(e, RecordTerminalMountFailure(Release(e), gen), false, false)
  {
    FailureEnters(policy, Release(e), gen, code);
  }

  lemma MountEnters(policy: Policy, e: Entry, a: Action)
    requires Enabled(e, a) && a.Mounts()
    ensures Enters(e, MountStep(policy, e, a), false, false)
  {
    match a
    case CreateReturns(ok) => CreateEnters(e, ok);
    case PrepareExpires => StartEnters(e);
    case StartFails => StartEnters(e);
    case RecordStartFailure => ReleasedEnters(policy, e, e.operation.gen, StartFailure);
    case StartSucceeds => ChildEnters(e);
    case Launch => LaunchEnters(e);
    case TimeoutCleaned(cleaned) => CleanedEnters(policy, e, cleaned);
  }

  lemma TombstoneEnters(e: Entry, ok: bool)
    requires e.operation.Tombstoning?
    ensures Enters(e, AfterTombstoneReturns(e, ok), !ok && e.operation.previousState == Mounted, false)
  {
  }

  lemma PersistEnters(e: Entry)
    requires e.pendingPersists > 0
    ensures Enters(e, AfterPersist(e), false, false)
  {
  }

  lemma UnmountEnters(policy: Policy, e: Entry, a: Action)
    requires Enabled(e, a) && !a.Mounts() && !a.ByThread()
    ensures Enters(e, UnmountStep(policy, e, a), Restores(e, a), false)
  {
    match a
    case UnmountRequested => PlainEnters(e, AfterUnmountRequested(e));
    case TombstoneReturns(ok) => TombstoneEnters(e, ok);
    case UnmountFails => UnmountFailureEnters(policy, Release(e), e.operation.gen);
    case Detached => PlainEnters(e, Proceed(e, AwaitingExit(e.operation.gen, e.exitDone)));
    case ExitSeen => PlainEnters(e, Proceed(e, Removing(e.operation.gen)));
    case DeleteReturns(_) => PlainEnters(e, Proceed(e, Unregistering(e.operation.gen)));
    case Unregister => PlainEnters(e, AfterUnregister(e));
    case ShutdownRequested => PlainEnters(e, AfterShutdownRequested(e));
    case ShutdownDetached => PlainEnters(e, Proceed(e, AwaitingStop(e.exitDone)));
    case ShutdownEnds => PlainEnters(e, AfterShutdownEnds(e));
    case PersistReturns(_) => PersistEnters(e);
  }

  /** The tombstone of a mounted entry cannot be written. */
  predicate Restores(e: Entry, a: Action)
    requires Enabled(e, a)
  {
    a == TombstoneReturns(false) && e.operation.previousState == Mounted
  }

  /**
   * Of all the steps there are, an entry becomes MOUNTED exactly when its current attempt, still mounting, sees the
   * mount point, or when an Unmount of a mounted entry is refused; and it is cleaned up after a timeout exactly when
   * the deadline of its current attempt passes before it is mounted. An Unmount rules out both.
   */
  lemma EntersIff(policy: Policy, e: Entry, a: Action)
    requires Enabled(e, a)
    ensures Enters(e, Apply(policy, e, a), SeesMount(e, a) || Restores(e, a), TimesOut(e, a))
  {
    if a.ByThread() {
      ThreadEnters(policy, e, a);
    } else if a.Mounts() {
      MountEnters(policy, e, a);
    } else {
      UnmountEnters(policy, e, a);
    }
  }

  /** A Mount whose record cannot be created has FAILED, and its channel is closed. */
  lemma CreateVerdict(policy: Policy, e: Entry, ok: bool)
    requires Reachable(policy, e) && Enabled(e, CreateReturns(ok))
    ensures var r := Apply(policy, e, CreateReturns(ok));
      if ok then r.operation == Starting(e.generation) && r.info == e.info
      else r.operation == Free && r.info == e.info.(state := Failed) && r.closes[e.exitDone] == 1
  {
    ReachableInv(policy, e);
  }

  /** A rejected Unmount restores state and intent; only the count of attempts has started over. */
  lemma RejectedRestores(policy: Policy, e: Entry)
    requires Enabled(e, UnmountRequested)
    ensures var asked := Apply(policy, e, UnmountRequested);
      Enabled(asked, TombstoneReturns(false)) &&
      var r := Apply(policy, asked, TombstoneReturns(false));
      && r.info == e.info.(attempt := if e.unmounting then e.info.attempt else 1)
      && r.unmounting == e.unmounting && r.operation == Free && r.generation == e.generation + 1
      && r.threads == e.threads
  {
    var asked := Apply(policy, e, UnmountRequested);
    assert asked == AfterUnmountRequested(e);
    assert Apply(policy, asked, TombstoneReturns(false)) == AfterTombstoneReturns(asked, false);
  }

  // ---------------------------------------------------------------- runs to a goal

  datatype Goal = IsMounted | IsUnregistered | IsStopped

  predicate Attained(goal: Goal, e: Entry) {
    match goal
    case IsMounted => e.info.state == Mounted && e.operation.Free?
    case IsUnregistered => !e.registered
    case IsStopped => e.info.state == PendingMount && !e.unmounting && e.operation.Free? && e.pendingPersists > 0
  }

  ghost predicate CanAttain(policy: Policy, e: Entry, goal: Goal) {
    exists run :: CanRun(policy, e, run) && Attained(goal, Run(policy, e, run))
  }

  lemma AttainedNow(policy: Policy, e: Entry, goal: Goal)
    requires Attained(goal, e)
    ensures CanAttain(policy, e, goal)
  {
    assert CanRun(policy, e, []) && Run(policy, e, []) == e;
  }

  lemma AttainedLater(policy: Policy, e: Entry, a: Action, r: Entry, goal: Goal)
    requires Enabled(e, a) && r == Apply(policy, e, a) && CanAttain(policy, r, goal)
    ensures CanAttain(policy, e, goal)
  {
    var rest :| CanRun(policy, r, rest) && Attained(goal, Run(policy, r, rest));
    var run := [a] + rest;
    assert run[0] == a && run[1..] == rest;
    assert CanRun(policy, e, run);
  }

  // ---------------------------------------------------------------- mounting

  lemma LaunchMounts(policy: Policy, e: Entry)
    requires e.operation == Launching(e.generation) && e.info.state == Mounting && !e.unmounting
    ensures CanAttain(policy, e, IsMounted)
  {
    var launched := AfterLaunch(e);
    var t := |e.threads| + 1;
    assert launched.threads[t] == Watching(e.generation, e.exitDone);
    var mounted := AfterMountObserved(launched, t);
    AttainedNow(policy, mounted, IsMounted);
    AttainedLater(policy, launched, MountObserved(t), mounted, IsMounted);
    AttainedLater(policy, e, Launch, launched, IsMounted);
  }

  lemma StartMounts(policy: Policy, e: Entry)
    requires e.operation == Starting(e.generation) && e.info.config.client != Unrecognized && !e.unmounting
    ensures CanAttain(policy, e, IsMounted)
  {
    var started := AfterStartSucceeds(e);
    LaunchMounts(policy, started);
    AttainedLater(policy, e, StartSucceeds, started, IsMounted);
  }

  lemma CreateMounts(policy: Policy, e: Entry)
    requires e.operation == Creating(e.generation) && e.info.config.client != Unrecognized && !e.unmounting
    ensures CanAttain(policy, e, IsMounted)
  {
    var created := AfterCreate(e, true);
    StartMounts(policy, created);
    AttainedLater(policy, e, CreateReturns(true), created, IsMounted);
  }

  lemma RetryMounts(policy: Policy, e: Entry, t: nat)
    requires Enabled(e, RetryMountFires(t)) && e.threads[t].gen == e.generation && !e.unmounting
    requires e.info.config.client != Unrecognized
    ensures CanAttain(policy, e, IsMounted)
  {
    var retried := AfterRetryMountFires(e, t);
    assert retried.operation == Starting(retried.generation);
    StartMounts(policy, retried);
    AttainedLater(policy, e, RetryMountFires(t), retried, IsMounted);
  }

  /** An attempt is about to start: it was just created or restored, or its retry is due. */
  ghost predicate MayStart(e: Entry) {
    || e.operation.Creating? || e.operation.Starting?
    || exists t: nat :: t < |e.threads| && e.threads[t] == RetryMountTimer(e.generation) && e.operation.Free?
  }

  /** Every attempt of a known client that has still to start can end MOUNTED. */
  lemma MountCanSucceed(policy: Policy, e: Entry)
    requires Reachable(policy, e) && MayStart(e) && e.info.config.client != Unrecognized
    ensures CanAttain(policy, e, IsMounted)
  {
    ReachableInv(policy, e);
    if e.operation.Creating? {
      CreateMounts(policy, e);
    } else if e.operation.Starting? {
      StartMounts(policy, e);
    } else {
      var t: nat :| t < |e.threads| && e.threads[t] == RetryMountTimer(e.generation) && e.operation.Free?;
      MountTimerIsFree(policy, e, t);
      RetryMounts(policy, e, t);
    }
  }

  // ---------------------------------------------------------------- waiting for an exit

  /** As `e`, and its wait is over. */
  ghost predicate WaitingAs(policy: Policy, e: Entry, w: Entry) {
    Reachable(policy, w) && Enabled(w, Finish(w)) && w.operation == e.operation && w.unmounting == e.unmounting
  }

  /** A waiting owner goes on, after a child's exit if need be. */
  lemma WaiterAttains(policy: Policy, e: Entry, goal: Goal)
    requires Reachable(policy, e) && (e.operation.AwaitingExit? || e.operation.AwaitingStop?)
    requires forall w :: WaitingAs(policy, e, w) ==> CanAttain(policy, w, goal)
    ensures CanAttain(policy, e, goal)
  {
    WaiterIsServed(policy, e, CleanExit);
    if Enabled(e, Finish(e)) {
      assert WaitingAs(policy, e, e);
    } else {
      var t :| Enabled(e, ProcessExits(t, CleanExit))
               && Enabled(Apply(policy, e, ProcessExits(t, CleanExit)), Finish(e));
      var r := Extend(policy, e, ProcessExits(t, CleanExit));
      assert r == AfterProcessExit(e, t, CleanExit);
      assert WaitingAs(policy, e, r);
      AttainedLater(policy, e, ProcessExits(t, CleanExit), r, goal);
    }
  }

  // ---------------------------------------------------------------- unmounting

  lemma RemovingEnds(policy: Policy, e: Entry)
    requires e.operation.Removing? || e.operation.Unregistering?
    ensures CanAttain(policy, e, IsUnregistered)
  {
    var u := if e.operation.Removing? then Proceed(e, Unregistering(e.operation.gen)) else e;
    var gone := AfterUnregister(u);
    AttainedNow(policy, gone, IsUnregistered);
    AttainedLater(policy, u, Unregister, gone, IsUnregistered);
    if e.operation.Removing? {
      AttainedLater(policy, e, DeleteReturns(true), u, IsUnregistered);
    }
  }

  lemma AwaitingEnds(policy: Policy, e: Entry)
    requires Reachable(policy, e) && e.operation.AwaitingExit?
    ensures CanAttain(policy, e, IsUnregistered)
  {
    forall w | WaitingAs(policy, e, w)
      ensures CanAttain(policy, w, IsUnregistered)
    {
      var r := Proceed(w, Removing(w.operation.gen));
      RemovingEnds(policy, r);
      AttainedLater(policy, w, ExitSeen, r, IsUnregistered);
    }
    WaiterAttains(policy, e, IsUnregistered);
  }

  lemma DetachingEnds(policy: Policy, e: Entry)
    requires Reachable(policy, e) && e.operation.Detaching?
    ensures CanAttain(policy, e, IsUnregistered)
  {
    var r := Extend(policy, e, Detached);
    AwaitingEnds(policy, r);
    AttainedLater(policy, e, Detached, r, IsUnregistered);
  }

  lemma TombstoningEnds(policy: Policy, e: Entry)
    requires Reachable(policy, e) && e.operation.Tombstoning?
    ensures CanAttain(policy, e, IsUnregistered)
  {
    var r := Extend(policy, e, TombstoneReturns(true));
    assert r == AfterTombstoneReturns(e, true);
    DetachingEnds(policy, r);
    AttainedLater(policy, e, TombstoneReturns(true), r, IsUnregistered);
  }

  lemma FreeEnds(policy: Policy, e: Entry)
    requires Reachable(policy, e) && e.operation.Free?
    ensures CanAttain(policy, e, IsUnregistered)
  {
    if e.registered {
      var r := Extend(policy, e, UnmountRequested);
      assert r == AfterUnmountRequested(e);
      TombstoningEnds(policy, r);
      AttainedLater(policy, e, UnmountRequested, r, IsUnregistered);
    } else {
      AttainedNow(policy, e, IsUnregistered);
    }
  }

  // ---------------------------------------------------------------- releasing the operation lock

  lemma StartFailedFrees(policy: Policy, e: Entry)
    requires Reachable(policy, e) && e.operation.StartFailed?
    ensures CanAttain(policy, e, IsUnregistered)
  {
    var r := Extend(policy, e, RecordStartFailure);
    FreeEnds(policy, r);
    AttainedLater(policy, e, RecordStartFailure, r, IsUnregistered);
  }

  lemma CreatingFrees(policy: Policy, e: Entry)
    requires Reachable(policy, e) && e.operation.Creating?
    ensures CanAttain(policy, e, IsUnregistered)
  {
    var r := Extend(policy, e, CreateReturns(false));
    assert r == AfterCreate(e, false);
    FreeEnds(policy, r);
    AttainedLater(policy, e, CreateReturns(false), r, IsUnregistered);
  }

  lemma StartingFrees(policy: Policy, e: Entry)
    requires Reachable(policy, e) && (e.operation.Starting? || e.operation.Expired?)
    ensures CanAttain(policy, e, IsUnregistered)
  {
    var r := Extend(policy, e, StartFails);
    assert r == AfterStartFails(e);
    StartFailedFrees(policy, r);
    AttainedLater(policy, e, StartFails, r, IsUnregistered);
  }

  lemma LateMountFrees(policy: Policy, e: Entry)
    requires Reachable(policy, e) && (e.operation.Launching? || e.operation.TimeoutCleanup?)
    ensures CanAttain(policy, e, IsUnregistered)
  {
    var a := if e.operation.Launching? then Launch else TimeoutCleaned(false);
    var r := Extend(policy, e, a);
    FreeEnds(policy, r);
    AttainedLater(policy, e, a, r, IsUnregistered);
  }

  lemma AwaitingStopFrees(policy: Policy, e: Entry)
    requires Reachable(policy, e) && e.operation.AwaitingStop?
    ensures CanAttain(policy, e, IsUnregistered)
  {
    forall w | WaitingAs(policy, e, w)
      ensures CanAttain(policy, w, IsUnregistered)
    {
      var r := Extend(policy, w, ShutdownEnds);
      assert r == AfterShutdownEnds(w);
      FreeEnds(policy, r);
      AttainedLater(policy, w, ShutdownEnds, r, IsUnregistered);
    }
    WaiterAttains(policy, e, IsUnregistered);
  }

  lemma StoppingFrees(policy: Policy, e: Entry)
    requires Reachable(policy, e) && e.operation.Stopping?
    ensures CanAttain(policy, e, IsUnregistered)
  {
    var r := Extend(policy, e, ShutdownDetached);
    assert r == Proceed(e, AwaitingStop(e.exitDone));
    AwaitingStopFrees(policy, r);
    AttainedLater(policy, e, ShutdownDetached, r, IsUnregistered);
  }

  /** From every reachable state, whoever holds the operation lock, an Unmount can still remove the mount. */
  lemma UnmountCanComplete(policy: Policy, e: Entry)
    requires Reachable(policy, e)
    ensures CanAttain(policy, e, IsUnregistered)
  {
    if e.operation.Free? {
      FreeEnds(policy, e);
    } else if e.operation.Creating? {
      CreatingFrees(policy, e);
    } else if e.operation.Starting? || e.operation.Expired? {
      StartingFrees(policy, e);
    } else if e.operation.StartFailed? {
      StartFailedFrees(policy, e);
    } else if e.operation.Launching? || e.operation.TimeoutCleanup? {
      LateMountFrees(policy, e);
    } else if e.operation.Stopping? {
      StoppingFrees(policy, e);
    } else if e.operation.AwaitingStop? {
      AwaitingStopFrees(policy, e);
    } else if e.operation.Tombstoning? {
      TombstoningEnds(policy, e);
    } else if e.operation.Detaching? {
      DetachingEnds(policy, e);
    } else if e.operation.AwaitingExit? {
      AwaitingEnds(policy, e);
    } else {
      RemovingEnds(policy, e);
    }
  }

  // ---------------------------------------------------------------- shutting down

  lemma AwaitingStopStops(policy: Policy, e: Entry)
    requires Reachable(policy, e) && e.operation.AwaitingStop? && !e.unmounting
    ensures CanAttain(policy, e, IsStopped)
  {
    forall w | WaitingAs(policy, e, w)
      ensures CanAttain(policy, w, IsStopped)
    {
      var r := AfterShutdownEnds(w);
      AttainedNow(policy, r, IsStopped);
      AttainedLater(policy, w, ShutdownEnds, r, IsStopped);
    }
    WaiterAttains(policy, e, IsStopped);
  }

  /** A shutdown can complete, and then leaves the entry waiting to be mounted again, with that to be persisted. */
  lemma ShutdownCanComplete(policy: Policy, e: Entry)
    requires Reachable(policy, e) && Enabled(e, ShutdownRequested)
    ensures CanAttain(policy, e, IsStopped)
  {
    var asked := Extend(policy, e, ShutdownRequested);
    assert asked == AfterShutdownRequested(e);
    var waiting := Extend(policy, asked, ShutdownDetached);
    assert waiting == Proceed(asked, AwaitingStop(asked.exitDone));
    AwaitingStopStops(policy, waiting);
    AttainedLater(policy, asked, ShutdownDetached, waiting, IsStopped);
    AttainedLater(policy, e, ShutdownRequested, asked, IsStopped);
  }
}
