/** When a mount entry will begin no further attempt, exactly, for every reachable entry and over all runs. */
module AttemptsOver {
  import opened MountTypes
  import opened Controller
  import opened ControllerProofs
  import opened ControllerTheorems
  import opened RetryPolicy
  import opened MountedStability
  import opened RetryProspects

  /** The current attempt's child thread can still report a failure that is retried. */
  predicate MayFail(e: Entry, i: nat) {
    && ChildThread(e, i)
    && (if e.threads[i].Crashed? then !IsNonRetryable(e.threads[i].code) else !e.timedOut && !e.stopping)
  }

  /** The attempt has its child behind it or running, and nothing of it can lead to a retry. */
  ghost predicate Calm(e: Entry) {
    ChildDone(e) && NoWatcher(e) && !e.operation.TimeoutCleanup? && forall i: nat :: !MayFail(e, i)
  }

  /** No retry is due, and the budget is used up or nothing of the attempt can make one due. */
  ghost predicate OverAll(policy: Policy, e: Entry) {
    e.superseded || (NoTimer(e) && (Exhausted(policy, e) || Calm(e)))
  }

  // ---------------------------------------------------------------- a used-up budget

  /** No timer has been added, and the budget is no larger. */
  predicate NoTimerAdded(e: Entry, r: Entry) {
    && r.generation == e.generation && r.info.attempt == e.info.attempt && (e.info.everMounted ==> r.info.everMounted)
    && (forall i :: 0 <= i < |r.threads| && r.threads[i].RetryMountTimer? ==>
          i < |e.threads| && r.threads[i] == e.threads[i])
  }

  ghost predicate Spent(policy: Policy, e: Entry) {
    NoTimer(e) && Exhausted(policy, e)
  }

  lemma NoTimerAddedSpent(policy: Policy, e: Entry, r: Entry)
    requires Spent(policy, e) && NoTimerAdded(e, r)
    ensures Spent(policy, r)
  {
    forall i: nat
      ensures !Timer(r, i)
    {
      assert !Timer(e, i);
    }
  }

  lemma StaleAddsNone(policy: Policy, e: Entry, a: Action)
    requires Enabled(e, a) && a.ByThread() && Stale(e, a.t)
    ensures var r := Apply(policy, e, a); Untouched(e, a.t, r) && r.info == e.info && r.generation == e.generation
    ensures Apply(policy, e, a).attempts == e.attempts && Apply(policy, e, a).superseded == e.superseded
    ensures Gen(Apply(policy, e, a).threads[a.t]) < e.generation
    ensures Apply(policy, e, a).operation == e.operation
  {
    StaleStep(policy, e, a);
    var r := Apply(policy, e, a);
    assert Core(r).info == Core(e).info && Core(r).generation == Core(e).generation;
    assert Core(r).attempts == Core(e).attempts && Core(r).superseded == Core(e).superseded;
    assert Core(r).operation == Core(e).operation;
  }

  lemma SpentStale(policy: Policy, e: Entry, a: Action)
    requires Spent(policy, e) && Enabled(e, a) && a.ByThread() && Stale(e, a.t)
    ensures Spent(policy, Apply(policy, e, a)) && Apply(policy, e, a).attempts == e.attempts
  {
    StaleAddsNone(policy, e, a);
    var r := Apply(policy, e, a);
    forall i: nat
      ensures !Timer(r, i)
    {
      assert !Timer(e, i);
    }
  }

  lemma SpentExit(policy: Policy, e: Entry, t: nat, exit: Exit)
    requires Spent(policy, e) && Enabled(e, ProcessExits(t, exit))
    ensures Spent(policy, AfterProcessExit(e, t, exit)) && AfterProcessExit(e, t, exit).attempts == e.attempts
  {
    NoTimerAddedSpent(policy, e, AfterProcessExit(e, t, exit));
  }

  lemma SpentFailure(policy: Policy, e: Entry, gen: nat, code: FailureCode)
    requires Spent(policy, e)
    ensures Spent(policy, RecordMountFailure(policy, e, gen, code)) && Spent(policy, RecordTerminalMountFailure(e, gen))
  {
    NoTimerAddedSpent(policy, e, GiveUp(e));
    var r := RecordMountFailure(policy, e, gen, code);
    assert r == e || r == GiveUp(e);
    var q := RecordTerminalMountFailure(e, gen);
    assert q == e || q == GiveUp(e);
  }

  lemma SpentCrash(policy: Policy, e: Entry, t: nat, cleaned: bool)
    requires Spent(policy, e) && Enabled(e, CrashHandled(t, cleaned))
    ensures Spent(policy, ThreadStep(policy, e, CrashHandled(t, cleaned)))
  {
    var e1 := Become(e, t, Done);
    NoTimerAddedSpent(policy, e, e1);
    SpentFailure(policy, e1, e.threads[t].gen, e.threads[t].code);
  }

  lemma SpentObserved(policy: Policy, e: Entry, t: nat)
    requires Spent(policy, e) && Enabled(e, MountObserved(t))
    ensures Spent(policy, AfterMountObserved(e, t))
  {
    NoTimerAddedSpent(policy, e, AfterMountObserved(e, t));
  }

  lemma SpentTimeout(policy: Policy, e: Entry, t: nat)
    requires Spent(policy, e) && Enabled(e, TimeoutFires(t))
    ensures Spent(policy, AfterTimeoutFires(e, t))
  {
    NoTimerAddedSpent(policy, e, AfterTimeoutFires(e, t));
  }

  lemma SpentBecomes(policy: Policy, e: Entry, t: nat, thread: Thread)
    requires Spent(policy, e) && t < |e.threads| && Gen(thread) <= Gen(e.threads[t]) && !thread.RetryMountTimer?
    ensures Spent(policy, Become(e, t, thread))
  {
    NoTimerAddedSpent(policy, e, Become(e, t, thread));
  }

  lemma SpentThread(policy: Policy, e: Entry, a: Action)
    requires Spent(policy, e) && Inv(policy, e) && !e.superseded && Enabled(e, a) && a.ByThread()
    ensures Spent(policy, Apply(policy, e, a)) && Apply(policy, e, a).attempts == e.attempts
  {
    if Stale(e, a.t) {
      SpentStale(policy, e, a);
    } else {
      assert Gen(e.threads[a.t]) == e.generation && !Timer(e, a.t);
      match a
      case ProcessExits(t, exit) => SpentExit(policy, e, t, exit);
      case CrashHandled(t, cleaned) => SpentCrash(policy, e, t, cleaned);
      case MountObserved(t) => SpentObserved(policy, e, t);
      case WatchStops(t) => SpentBecomes(policy, e, t, Done);
      case DeadlinePasses(t) => SpentBecomes(policy, e, t, TimingOut(e.threads[t].gen));
      case TimeoutFires(t) => SpentTimeout(policy, e, t);
      case RetryMountFires(t) =>
      case RetryUnmountFires(t) =>
    }
  }

  lemma SpentMount(policy: Policy, e: Entry, a: Action)
    requires Spent(policy, e) && Enabled(e, a) && a.Mounts()
    ensures Spent(policy, MountStep(policy, e, a))
  {
    if RecordsFailure(a) {
      NoTimerAddedSpent(policy, e, Release(e));
      SpentFailure(policy, Release(e), e.operation.gen, if a.TimeoutCleaned? then MountTimeout else StartFailure);
    } else if a.Launch? {
      NoTimerAddedSpent(policy, e, AfterLaunch(e));
    } else {
      SpentEarly(policy, e, a);
    }
  }

  lemma SpentCreate(policy: Policy, e: Entry, ok: bool)
    requires Spent(policy, e) && e.operation.Creating?
    ensures Spent(policy, AfterCreate(e, ok))
  {
    NoTimerAddedSpent(policy, e, AfterCreate(e, ok));
  }

  lemma SpentStart(policy: Policy, e: Entry)
    requires Spent(policy, e) && (e.operation.Starting? || e.operation.Expired?)
    ensures Spent(policy, AfterStartFails(e))
    ensures e.operation.Starting? ==> Spent(policy, AfterPrepareExpires(e))
  {
    NoTimerAddedSpent(policy, e, AfterStartFails(e));
    if e.operation.Starting? {
      NoTimerAddedSpent(policy, e, AfterPrepareExpires(e));
    }
  }

  lemma SpentChild(policy: Policy, e: Entry)
    requires Spent(policy, e) && e.operation.Starting?
    ensures Spent(policy, AfterStartSucceeds(e))
  {
    NoTimerAddedSpent(policy, e, AfterStartSucceeds(e));
  }

  lemma SpentEarly(policy: Policy, e: Entry, a: Action)
    requires Spent(policy, e) && Enabled(e, a) && a.Mounts() && !RecordsFailure(a) && !a.Launch?
    ensures Spent(policy, MountStep(policy, e, a))
  {
    match a
    case CreateReturns(ok) => SpentCreate(policy, e, ok);
    case PrepareExpires => SpentStart(policy, e);
    case StartFails => SpentStart(policy, e);
    case StartSucceeds => SpentChild(policy, e);
  }

  /** What the owner of an entry that no Unmount has touched can do beside mounting. */
  predicate Calmly(a: Action) {
    a.ShutdownRequested? || a.ShutdownDetached? || a.ShutdownEnds? || a.PersistReturns?
  }

  /** Nothing that matters to a retry has changed. */
  predicate CalmChange(e: Entry, r: Entry) {
    && r.threads == e.threads && r.generation == e.generation && r.attempts == e.attempts
    && r.info.attempt == e.info.attempt && r.info.everMounted == e.info.everMounted
    && r.timedOut == e.timedOut && (e.stopping ==> r.stopping) && r.superseded == e.superseded
    && (ChildDone(e) ==> ChildDone(r)) && (r.operation.TimeoutCleanup? ==> e.operation.TimeoutCleanup?)
  }

  lemma RequestChanges(e: Entry)
    ensures CalmChange(e, AfterShutdownRequested(e))
  {
  }

  lemma EndChanges(e: Entry)
    ensures CalmChange(e, AfterShutdownEnds(e))
  {
  }

  lemma DetachedChanges(e: Entry)
    ensures CalmChange(e, Proceed(e, AwaitingStop(e.exitDone)))
  {
  }

  lemma PersistChanges(e: Entry)
    requires e.pendingPersists > 0
    ensures CalmChange(e, AfterPersist(e))
  {
  }

  lemma CalmlyChanges(policy: Policy, e: Entry, a: Action)
    requires Enabled(e, a) && Calmly(a)
    ensures CalmChange(e, Apply(policy, e, a))
  {
    match a
    case ShutdownRequested => RequestChanges(e);
    case ShutdownDetached => DetachedChanges(e);
    case ShutdownEnds => EndChanges(e);
    case PersistReturns(_) => PersistChanges(e);
  }

  lemma OwnerActions(policy: Policy, e: Entry, a: Action)
    requires OperationOk(e) && IntentOk(e) && !e.superseded && Enabled(e, a) && !a.ByThread() && !a.Mounts()
    ensures a.UnmountRequested? || Calmly(a)
  {
  }

  lemma SpentStep(policy: Policy, e: Entry, a: Action)
    requires Spent(policy, e) && Inv(policy, e) && !e.superseded && Enabled(e, a)
    ensures var r := Apply(policy, e, a); (r.superseded || Spent(policy, r)) && r.attempts == e.attempts
  {
    if a.ByThread() {
      SpentThread(policy, e, a);
    } else if a.Mounts() {
      SpentMount(policy, e, a);
    } else {
      OwnerActions(policy, e, a);
      if Calmly(a) {
        CalmlyChanges(policy, e, a);
        NoTimerAddedSpent(policy, e, Apply(policy, e, a));
      }
    }
  }

  // ---------------------------------------------------------------- an attempt that has calmed down

  /** Threads of the current generation are as they were, or done. */
  predicate Calmer(e: Entry, r: Entry) {
    && r.generation == e.generation && ChildDone(r) && !r.operation.TimeoutCleanup?
    && (e.timedOut ==> r.timedOut) && (e.stopping ==> r.stopping)
    && (forall i :: 0 <= i < |r.threads| ==>
          || Gen(r.threads[i]) < r.generation
          || (i < |e.threads| && r.threads[i] == e.threads[i]))
  }

  lemma CalmerCalm(e: Entry, r: Entry)
    requires Calm(e) && NoTimer(e) && Calmer(e, r)
    ensures Calm(r) && NoTimer(r)
  {
    forall i: nat
      ensures !Watcher(r, i) && !MayFail(r, i) && !Timer(r, i)
    {
      assert !Watcher(e, i) && !MayFail(e, i) && !Timer(e, i);
    }
  }

  lemma CalmStale(policy: Policy, e: Entry, a: Action)
    requires Calm(e) && NoTimer(e) && Enabled(e, a) && a.ByThread() && Stale(e, a.t)
    ensures var r := Apply(policy, e, a); Calm(r) && NoTimer(r) && r.attempts == e.attempts
  {
    StaleAddsNone(policy, e, a);
    var r := Apply(policy, e, a);
    assert Core(r).timedOut == Core(e).timedOut && Core(r).stopping == Core(e).stopping;
    CalmerCalm(e, r);
  }

  /** Handling the crash only ends its thread and fails the mount. */
  lemma NonRetryableFails(policy: Policy, e: Entry, t: nat, cleaned: bool)
    requires Enabled(e, CrashHandled(t, cleaned)) && e.threads[t].gen == e.generation && !e.unmounting
    requires IsNonRetryable(e.threads[t].code)
    ensures Apply(policy, e, CrashHandled(t, cleaned)) == GiveUp(Become(e, t, Done))
  {
  }

  lemma CalmCrash(policy: Policy, e: Entry, t: nat, cleaned: bool)
    requires Calm(e) && NoTimer(e) && Enabled(e, CrashHandled(t, cleaned)) && e.threads[t].gen == e.generation
    requires !e.unmounting && e.generation > 0
    ensures var r := Apply(policy, e, CrashHandled(t, cleaned)); Calm(r) && NoTimer(r) && r.attempts == e.attempts
  {
    assert ChildThread(e, t) && !MayFail(e, t);
    NonRetryableFails(policy, e, t, cleaned);
    CalmerCalm(e, GiveUp(Become(e, t, Done)));
  }

  lemma CalmExit(policy: Policy, e: Entry, t: nat, exit: Exit)
    requires Calm(e) && NoTimer(e) && Enabled(e, ProcessExits(t, exit)) && e.threads[t].gen == e.generation
    requires e.generation > 0
    ensures var r := AfterProcessExit(e, t, exit); Calm(r) && NoTimer(r) && r.attempts == e.attempts
  {
    assert ChildThread(e, t) && !MayFail(e, t);
    CalmerCalm(e, AfterProcessExit(e, t, exit));
  }

  lemma CalmThread(policy: Policy, e: Entry, a: Action)
    requires Calm(e) && NoTimer(e) && Inv(policy, e) && !e.superseded && Enabled(e, a) && a.ByThread()
    ensures var r := Apply(policy, e, a); Calm(r) && NoTimer(r) && r.attempts == e.attempts
  {
    if Stale(e, a.t) {
      CalmStale(policy, e, a);
    } else {
      OnlyChildLeft(policy, e, a);
      if a.CrashHandled? {
        CalmCrash(policy, e, a.t, a.cleaned);
      } else {
        CalmExit(policy, e, a.t, a.exit);
      }
    }
  }

  lemma OnlyChildLeft(policy: Policy, e: Entry, a: Action)
    requires Calm(e) && NoTimer(e) && Inv(policy, e) && !e.superseded && Enabled(e, a) && a.ByThread() && !Stale(e, a.t)
    ensures (a.CrashHandled? || a.ProcessExits?) && e.threads[a.t].gen == e.generation && !e.unmounting
  {
    var t := a.t;
    assert Gen(e.threads[t]) == e.generation;
    assert !Watcher(e, t) && !Timer(e, t) && !e.threads[t].RetryUnmountTimer?;
  }

  lemma CalmStep(policy: Policy, e: Entry, a: Action)
    requires Calm(e) && NoTimer(e) && Inv(policy, e) && !e.superseded && Enabled(e, a)
    ensures var r := Apply(policy, e, a); (r.superseded || (Calm(r) && NoTimer(r))) && r.attempts == e.attempts
  {
    if a.ByThread() {
      CalmThread(policy, e, a);
    } else {
      assert !a.Mounts();
      OwnerActions(policy, e, a);
      if Calmly(a) {
        CalmlyChanges(policy, e, a);
        CalmerCalm(e, Apply(policy, e, a));
      }
    }
  }

  lemma OverStep(policy: Policy, e: Entry, a: Action)
    requires OverAll(policy, e) && Inv(policy, e) && Enabled(e, a)
    ensures OverAll(policy, Apply(policy, e, a)) && Apply(policy, e, a).attempts == e.attempts
  {
    if e.superseded {
      SupersededStep(policy, e, a);
    } else if Exhausted(policy, e) {
      SpentStep(policy, e, a);
    } else {
      CalmStep(policy, e, a);
    }
  }

  lemma {:induction false} OverRun(policy: Policy, e: Entry, run: seq<Action>)
    requires OverAll(policy, e) && Inv(policy, e) && CanRun(policy, e, run)
    ensures Run(policy, e, run).attempts == e.attempts
    decreases |run|
  {
    if run != [] {
      OverStep(policy, e, run[0]);
      InvStep(policy, e, run[0]);
      OverRun(policy, Apply(policy, e, run[0]), run[1..]);
    }
  }

  // ---------------------------------------------------------------- and otherwise another attempt can begin

  /** A failure of the start, on to its retry. */
  lemma StartFailedAttempts(policy: Policy, e: Entry)
    requires e.operation == StartFailed(e.generation) && !e.unmounting && !Exhausted(policy, e)
    ensures CanAttempt(policy, e)
  {
    var r := WaitToRetry(Release(e), RetryMountTimer(e.generation));
    assert Apply(policy, e, RecordStartFailure) == r;
    assert Timer(r, |e.threads|);
    TimerAttempts(policy, r, |e.threads|);
    AttemptLater(policy, e, RecordStartFailure, r);
  }

  lemma StartingAttempts(policy: Policy, e: Entry)
    requires e.operation == Starting(e.generation) || e.operation == Expired(e.generation)
    requires !e.unmounting && !Exhausted(policy, e)
    ensures CanAttempt(policy, e)
  {
    var r := AfterStartFails(e);
    assert Apply(policy, e, StartFails) == r;
    StartFailedAttempts(policy, r);
    AttemptLater(policy, e, StartFails, r);
  }

  lemma CreatingAttempts(policy: Policy, e: Entry)
    requires e.operation == Creating(e.generation) && !e.unmounting && !Exhausted(policy, e)
    ensures CanAttempt(policy, e)
  {
    var r := AfterCreate(e, true);
    assert Apply(policy, e, CreateReturns(true)) == r;
    StartingAttempts(policy, r);
    AttemptLater(policy, e, CreateReturns(true), r);
  }

  lemma LaunchingAttempts(policy: Policy, e: Entry)
    requires e.operation == Launching(e.generation) && e.info.state == Mounting
    requires !e.unmounting && !Exhausted(policy, e)
    ensures CanAttempt(policy, e)
  {
    var r := AfterLaunch(e);
    assert Apply(policy, e, Launch) == r;
    assert Watcher(r, |e.threads| + 1);
    WatcherAttempts(policy, r, |e.threads| + 1);
    AttemptLater(policy, e, Launch, r);
  }

  lemma EarlyAttempts(policy: Policy, e: Entry)
    requires OperationOk(e) && OwnerOk(e) && !ChildDone(e) && !e.unmounting && !Exhausted(policy, e)
    ensures CanAttempt(policy, e)
  {
    if e.operation.Creating? {
      CreatingAttempts(policy, e);
    } else if e.operation.Launching? {
      LaunchingAttempts(policy, e);
    } else if e.operation.StartFailed? {
      StartFailedAttempts(policy, e);
    } else {
      StartingAttempts(policy, e);
    }
  }

  /** A crash that may be retried, on to its retry. */
  lemma CrashAttempts(policy: Policy, e: Entry, t: nat)
    requires Inv(policy, e) && Stable(e) && RemountOk(policy, e) && !e.superseded && !Exhausted(policy, e)
    requires ChildThread(e, t) && e.threads[t].Crashed? && !IsNonRetryable(e.threads[t].code)
    ensures CanAttempt(policy, e)
  {
    var a := CrashHandled(t, true);
    var r := WaitToRetry(Become(e, t, Done), RetryMountTimer(e.generation));
    assert Current(e, t) && !e.unmounting;
    assert Apply(policy, e, a) == r;
    InvStep(policy, e, a);
    StableStep(policy, e, a);
    assert Timer(r, |e.threads|) && ChildDone(r) && !r.superseded;
    NotOverAttempts(policy, r);
    AttemptLater(policy, e, a, r);
  }

  lemma ExitAttempts(policy: Policy, e: Entry, t: nat)
    requires Inv(policy, e) && Stable(e) && RemountOk(policy, e) && !e.superseded && !Exhausted(policy, e)
    requires ChildThread(e, t) && e.threads[t].Process? && !e.timedOut && !e.stopping
    ensures CanAttempt(policy, e)
  {
    var a := ProcessExits(t, ExitStatus(1));
    var r := AfterProcessExit(e, t, ExitStatus(1));
    assert Apply(policy, e, a) == r && !e.unmounting;
    InvStep(policy, e, a);
    StableStep(policy, e, a);
    RemountStep(policy, e, a);
    assert r.threads[t] == Crashed(e.generation, CommandExited) && ChildThread(r, t);
    CrashAttempts(policy, r, t);
    AttemptLater(policy, e, a, r);
  }

  lemma NotOverAllAttempts(policy: Policy, e: Entry)
    requires Inv(policy, e) && Stable(e) && RemountOk(policy, e) && !OverAll(policy, e)
    ensures CanAttempt(policy, e)
  {
    assert !e.unmounting;
    if !ChildDone(e) {
      StartedOnly(policy, e);
      EarlyAttempts(policy, e);
    } else if !Over(policy, e) {
      NotOverAttempts(policy, e);
    } else {
      var t: nat :| MayFail(e, t);
      if e.threads[t].Crashed? {
        CrashAttempts(policy, e, t);
      } else {
        ExitAttempts(policy, e, t);
      }
    }
  }

  /** Before a child there is no timer, so the budget is left. */
  lemma StartedOnly(policy: Policy, e: Entry)
    requires RemountOk(policy, e) && !ChildDone(e) && !OverAll(policy, e)
    ensures !Exhausted(policy, e)
  {
    forall i: nat
      ensures !Timer(e, i)
    {
      assert Timer(e, i) ==> Current(e, i);
    }
  }

  /**
   * For every reachable entry: no run begins a further mount attempt if and only if an Unmount has superseded it,
   * or no retry is due and either the budget is used up, or the attempt is past its start, no waitForMount of it
   * can still time out, and its child, if any, cannot report a failure that is retried.
   */
  lemma NoFurtherAttemptIff(policy: Policy, e: Entry)
    requires Reachable(policy, e)
    ensures !CanAttempt(policy, e) <==> OverAll(policy, e)
  {
    ReachableInv(policy, e);
    ReachableStable(policy, e);
    ReachableRemountOk(policy, e);
    if !OverAll(policy, e) {
      NotOverAllAttempts(policy, e);
    } else {
      forall run | CanRun(policy, e, run)
        ensures Run(policy, e, run).attempts == e.attempts
      {
        OverRun(policy, e, run);
      }
    }
  }
}
