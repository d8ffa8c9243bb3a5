/** Which exits of a child are crashes, by the configured client, and what a helper's clean exit leaves alone. */
module ExitVerdicts {
  import opened MountTypes
  import opened Controller
  import opened ControllerProofs
  import opened ControllerTheorems
  import opened RetryPolicy
  import opened MountedStability
  import opened BadExits

  // ---------------------------------------------------------------- what the flags mean

  /** A running child of the current attempt. */
  predicate Running(e: Entry, t: nat) {
    t < |e.threads| && e.threads[t].Process? && e.threads[t].gen == e.generation
  }

  /** The owner's flags: who is expecting an exit says so. */
  predicate OwnerFlags(e: Entry) {
    && (e.operation.Launching? ==> e.persistent == (e.info.config.client == Irodsfs))
    && (e.operation.Stopping? || e.operation.AwaitingStop? ==> e.stopping)
    && (e.operation.TimeoutCleanup? || e.operation.Expired? ==> e.timedOut)
  }

  /** `persistent` tells irodsfs from the mount helpers. */
  ghost predicate FlagsOk(e: Entry) {
    OwnerFlags(e) && forall t: nat :: Running(e, t) ==> e.persistent == (e.info.config.client == Irodsfs)
  }

  /** No child has come up, and the flag is as it was. */
  predicate NoneStarted(e: Entry, r: Entry) {
    && r.generation == e.generation && r.persistent == e.persistent && r.info.config == e.info.config
    && (forall t :: 0 <= t < |r.threads| && r.threads[t].Process? ==> t < |e.threads| && r.threads[t] == e.threads[t])
  }

  lemma NoneStartedKeeps(e: Entry, r: Entry)
    requires FlagsOk(e) && NoneStarted(e, r) && OwnerFlags(r)
    ensures FlagsOk(r)
  {
    forall t: nat | Running(r, t)
      ensures Running(e, t)
    {
    }
  }

  /** A new generation has no running child yet. */
  lemma BumpedKeeps(e: Entry, r: Entry)
    requires NotNewer(e) && OwnerFlags(r) && r.generation > e.generation
    requires forall t :: 0 <= t < |r.threads| ==> t < |e.threads| && Gen(r.threads[t]) <= Gen(e.threads[t])
    ensures FlagsOk(r)
  {
    forall t: nat
      ensures !Running(r, t)
    {
      if t < |r.threads| {
        assert Gen(r.threads[t]) <= Gen(e.threads[t]) <= e.generation;
      }
    }
  }

  // ---------------------------------------------------------------- goroutines and timers

  lemma BecomeFlags(e: Entry, t: nat, thread: Thread)
    requires FlagsOk(e) && t < |e.threads| && Gen(thread) <= Gen(e.threads[t]) && !thread.Process?
    ensures FlagsOk(Become(e, t, thread))
  {
    NoneStartedKeeps(e, Become(e, t, thread));
  }

  lemma SameFlags(e: Entry, r: Entry)
    requires FlagsOk(e) && r.threads == e.threads && r.generation == e.generation && r.persistent == e.persistent
    requires r.info.config == e.info.config && r.operation == e.operation
    requires (e.timedOut ==> r.timedOut) && (e.stopping ==> r.stopping)
    ensures FlagsOk(r)
  {
    NoneStartedKeeps(e, r);
  }

  lemma ExitFlags(e: Entry, t: nat, exit: Exit)
    requires FlagsOk(e) && t < |e.threads| && e.threads[t].Process?
    ensures FlagsOk(AfterProcessExit(e, t, exit))
  {
    NoneStartedKeeps(e, AfterProcessExit(e, t, exit));
  }

  lemma ObservedFlags(e: Entry, t: nat)
    requires FlagsOk(e) && t < |e.threads| && e.threads[t].Watching?
    ensures FlagsOk(AfterMountObserved(e, t))
  {
    var e1 := Become(e, t, Done);
    var r := AfterMountObserved(e, t);
    BecomeFlags(e, t, Done);
    SameFlags(e1, r);
  }

  lemma TimeoutFlags(e: Entry, t: nat)
    requires FlagsOk(e) && t < |e.threads| && e.threads[t].TimingOut?
    ensures FlagsOk(AfterTimeoutFires(e, t))
  {
    NoneStartedKeeps(e, AfterTimeoutFires(e, t));
  }

  lemma GiveUpFlags(e: Entry)
    requires FlagsOk(e)
    ensures FlagsOk(GiveUp(e))
  {
    NoneStartedKeeps(e, GiveUp(e));
  }

  lemma WaitFlags(e: Entry, timer: Thread)
    requires FlagsOk(e) && !timer.Process?
    ensures FlagsOk(WaitToRetry(e, timer))
  {
    NoneStartedKeeps(e, WaitToRetry(e, timer));
  }

  lemma FailureFlags(policy: Policy, e: Entry, gen: nat, code: FailureCode)
    requires FlagsOk(e)
    ensures FlagsOk(RecordMountFailure(policy, e, gen, code)) && FlagsOk(RecordTerminalMountFailure(e, gen))
  {
    GiveUpFlags(e);
    WaitFlags(e, RetryMountTimer(gen));
  }

  lemma CrashFlags(policy: Policy, e: Entry, t: nat, cleaned: bool)
    requires FlagsOk(e) && Enabled(e, CrashHandled(t, cleaned))
    ensures FlagsOk(ThreadStep(policy, e, CrashHandled(t, cleaned)))
  {
    BecomeFlags(e, t, Done);
    FailureFlags(policy, Become(e, t, Done), e.threads[t].gen, e.threads[t].code);
  }

  lemma RetryMountFlags(e: Entry, t: nat)
    requires FlagsOk(e) && NotNewer(e) && Enabled(e, RetryMountFires(t))
    ensures FlagsOk(AfterRetryMountFires(e, t))
  {
    var r := AfterRetryMountFires(e, t);
    BecomeFlags(e, t, Done);
    if r.generation > e.generation {
      BumpedKeeps(e, r);
    }
  }

  lemma RetryUnmountFlags(e: Entry, t: nat)
    requires FlagsOk(e) && NotNewer(e) && Enabled(e, RetryUnmountFires(t))
    ensures FlagsOk(AfterRetryUnmountFires(e, t))
  {
    var r := AfterRetryUnmountFires(e, t);
    BecomeFlags(e, t, Done);
    if r.generation > e.generation {
      BumpedKeeps(e, r);
    }
  }

  lemma ThreadFlags(policy: Policy, e: Entry, a: Action)
    requires FlagsOk(e) && NotNewer(e) && Enabled(e, a) && a.ByThread()
    ensures FlagsOk(ThreadStep(policy, e, a))
  {
    match a
    case ProcessExits(t, exit) => ExitFlags(e, t, exit);
    case CrashHandled(t, cleaned) => CrashFlags(policy, e, t, cleaned);
    case MountObserved(t) => ObservedFlags(e, t);
    case WatchStops(t) => BecomeFlags(e, t, Done);
    case DeadlinePasses(t) => BecomeFlags(e, t, TimingOut(e.threads[t].gen));
    case TimeoutFires(t) => TimeoutFlags(e, t);
    case RetryMountFires(t) => RetryMountFlags(e, t);
    case RetryUnmountFires(t) => RetryUnmountFlags(e, t);
  }

  // ---------------------------------------------------------------- mounting

  lemma EarlyFlags(e: Entry, r: Entry)
    requires FlagsOk(e) && OwnerFlags(r) && r.threads == e.threads && r.generation == e.generation
    requires r.info.config == e.info.config && r.persistent == e.persistent
    ensures FlagsOk(r)
  {
    NoneStartedKeeps(e, r);
  }

  lemma CreateFlags(e: Entry, ok: bool)
    requires FlagsOk(e) && e.operation.Creating?
    ensures FlagsOk(AfterCreate(e, ok))
  {
    EarlyFlags(e, AfterCreate(e, ok));
  }

  lemma StartFlags(e: Entry)
    requires FlagsOk(e) && (e.operation.Starting? || e.operation.Expired?)
    ensures FlagsOk(AfterStartFails(e))
    ensures e.operation.Starting? ==> FlagsOk(AfterPrepareExpires(e))
  {
    EarlyFlags(e, AfterStartFails(e));
    if e.operation.Starting? {
      EarlyFlags(e, AfterPrepareExpires(e));
    }
  }

  /** The child is started with the flag that its client gets; no other child of the attempt is running. */
  lemma ChildFlags(policy: Policy, e: Entry)
    requires FlagsOk(e) && RemountOk(policy, e) && e.operation.Starting?
    ensures FlagsOk(AfterStartSucceeds(e))
  {
    var r := AfterStartSucceeds(e);
    forall t: nat
      ensures !Running(r, t)
    {
      assert t < |e.threads| ==> !Current(e, t);
    }
  }

  lemma LaunchFlags(e: Entry)
    requires FlagsOk(e) && e.operation.Launching?
    ensures FlagsOk(AfterLaunch(e))
  {
    var r := AfterLaunch(e);
    assert r.persistent == e.persistent && r.info == e.info;
  }

  lemma RecordFlags(policy: Policy, e: Entry, a: Action)
    requires FlagsOk(e) && Enabled(e, a) && RecordsFailure(a)
    ensures FlagsOk(MountStep(policy, e, a))
  {
    NoneStartedKeeps(e, Release(e));
    FailureFlags(policy, Release(e), e.operation.gen, if a.TimeoutCleaned? then MountTimeout else StartFailure);
  }

  lemma MountFlags(policy: Policy, e: Entry, a: Action)
    requires FlagsOk(e) && RemountOk(policy, e) && Enabled(e, a) && a.Mounts()
    ensures FlagsOk(MountStep(policy, e, a))
  {
    match a
    case CreateReturns(ok) => CreateFlags(e, ok);
    case PrepareExpires => StartFlags(e);
    case StartFails => StartFlags(e);
    case RecordStartFailure => RecordFlags(policy, e, a);
    case StartSucceeds => ChildFlags(policy, e);
    case Launch => LaunchFlags(e);
    case TimeoutCleaned(_) => RecordFlags(policy, e, a);
  }

  // ---------------------------------------------------------------- unmounting and shutdown

  lemma RequestFlags(e: Entry)
    requires FlagsOk(e) && NotNewer(e)
    ensures FlagsOk(AfterUnmountRequested(e))
  {
    BumpedKeeps(e, AfterUnmountRequested(e));
  }

  lemma UnmountFailsFlags(policy: Policy, e: Entry)
    requires FlagsOk(e) && Enabled(e, UnmountFails)
    ensures FlagsOk(UnmountStep(policy, e, UnmountFails))
  {
    var e1 := Release(e);
    NoneStartedKeeps(e, e1);
    GiveUpFlags(e1);
    WaitFlags(e1, RetryUnmountTimer(e.operation.gen));
  }

  lemma ProceedFlags(e: Entry, op: Operation)
    requires FlagsOk(e) && !op.Tombstoning? && !op.Creating?
    requires OwnerFlags(e.(operation := op))
    ensures FlagsOk(Proceed(e, op))
  {
    EarlyFlags(e, Proceed(e, op));
  }

  lemma TombstoneFlags(e: Entry, ok: bool)
    requires FlagsOk(e) && e.operation.Tombstoning?
    ensures FlagsOk(AfterTombstoneReturns(e, ok))
  {
    EarlyFlags(e, AfterTombstoneReturns(e, ok));
  }

  lemma UnregisterFlags(e: Entry)
    requires FlagsOk(e)
    ensures FlagsOk(AfterUnregister(e))
  {
    EarlyFlags(e, AfterUnregister(e));
  }

  lemma ShutdownFlags(e: Entry)
    requires FlagsOk(e)
    ensures FlagsOk(AfterShutdownRequested(e)) && FlagsOk(AfterShutdownEnds(e))
  {
    EarlyFlags(e, AfterShutdownRequested(e));
    EarlyFlags(e, AfterShutdownEnds(e));
  }

  lemma PersistFlags(e: Entry)
    requires FlagsOk(e) && e.pendingPersists > 0
    ensures FlagsOk(AfterPersist(e))
  {
    SameFlags(e, AfterPersist(e));
  }

  lemma OtherFlags(policy: Policy, e: Entry, a: Action)
    requires FlagsOk(e) && Enabled(e, a) && !a.Mounts() && !a.ByThread() && !a.UnmountRequested? && !a.UnmountFails?
    ensures FlagsOk(UnmountStep(policy, e, a))
  {
    match a
    case TombstoneReturns(ok) => TombstoneFlags(e, ok);
    case Detached => ProceedFlags(e, AwaitingExit(e.operation.gen, e.exitDone));
    case ExitSeen => ProceedFlags(e, Removing(e.operation.gen));
    case DeleteReturns(_) => ProceedFlags(e, Unregistering(e.operation.gen));
    case Unregister => UnregisterFlags(e);
    case ShutdownRequested => ShutdownFlags(e);
    case ShutdownDetached => ProceedFlags(e, AwaitingStop(e.exitDone));
    case ShutdownEnds => ShutdownFlags(e);
    case PersistReturns(_) => PersistFlags(e);
  }

  lemma FlagsStep(policy: Policy, e: Entry, a: Action)
    requires Inv(policy, e) && RemountOk(policy, e) && FlagsOk(e) && Enabled(e, a)
    ensures FlagsOk(Apply(policy, e, a))
  {
    if a.ByThread() {
      ThreadFlags(policy, e, a);
    } else if a.Mounts() {
      MountFlags(policy, e, a);
    } else if a.UnmountRequested? {
      RequestFlags(e);
    } else if a.UnmountFails? {
      UnmountFailsFlags(policy, e);
    } else {
      OtherFlags(policy, e, a);
    }
  }

  lemma {:induction false} FlagsRun(policy: Policy, e: Entry, run: seq<Action>)
    requires Inv(policy, e) && RemountOk(policy, e) && FlagsOk(e) && CanRun(policy, e, run)
    ensures FlagsOk(Run(policy, e, run))
    decreases |run|
  {
    if run != [] {
      FlagsStep(policy, e, run[0]);
      RemountStep(policy, e, run[0]);
      InvStep(policy, e, run[0]);
      FlagsRun(policy, Apply(policy, e, run[0]), run[1..]);
    }
  }

  lemma InitialFlags(e: Entry)
    requires Initial(e)
    ensures FlagsOk(e) && e.threads == []
  {
  }

  lemma InitialRemount(policy: Policy, e: Entry)
    requires e.threads == []
    ensures RemountOk(policy, e)
  {
  }

  lemma ReachableFlags(policy: Policy, e: Entry)
    requires Reachable(policy, e)
    ensures FlagsOk(e)
  {
    var e0, run :| Initial(e0) && CanRun(policy, e0, run) && e == Run(policy, e0, run);
    InitialInv(policy, e0);
    InitialFlags(e0);
    InitialRemount(policy, e0);
    FlagsRun(policy, e0, run);
  }

  // ---------------------------------------------------------------- which exits are crashes

  /** The exit of thread `t` is a crash. */
  predicate IsCrash(e: Entry, t: nat, exit: Exit)
    requires t < |e.threads| && e.threads[t].Process?
  {
    && e.threads[t].gen == e.generation && !e.unmounting && !e.timedOut && !e.stopping
    && (e.info.config.client == Irodsfs || exit != CleanExit)
  }

  lemma ExitVerdict(e: Entry, t: nat, exit: Exit)
    requires FlagsOk(e) && t < |e.threads| && e.threads[t].Process?
    ensures var thread := AfterProcessExit(e, t, exit).threads[t];
      (thread.Crashed? <==> IsCrash(e, t, exit)) && (thread.Crashed? || thread.Done?)
  {
    assert e.threads[t].gen == e.generation ==> Running(e, t);
  }

  /**
   * For every reachable entry: the exit of a child is a crash if and only if the child belongs to the current
   * attempt, nobody is unmounting, timing out or stopping it, and it is irodsfs or did not exit with status 0.
   * Every other exit just ends the goroutine.
   */
  lemma ExitIsCrashIff(policy: Policy, e: Entry, t: nat, exit: Exit)
    requires Reachable(policy, e) && Enabled(e, ProcessExits(t, exit))
    ensures var thread := Apply(policy, e, ProcessExits(t, exit)).threads[t];
      (thread.Crashed? <==> IsCrash(e, t, exit)) && (thread.Crashed? || thread.Done?)
  {
    ReachableFlags(policy, e);
    ExitVerdict(e, t, exit);
  }

  /** While the entry is unmounted, shut down or cleaned up after a timeout, no exit of its child is a crash. */
  lemma ExpectedExitIsNoCrash(policy: Policy, e: Entry, t: nat, exit: Exit)
    requires Reachable(policy, e) && Enabled(e, ProcessExits(t, exit))
    requires || e.operation.Stopping? || e.operation.AwaitingStop? || e.operation.TimeoutCleanup?
             || e.operation.Tombstoning? || UnmountOperation(e.operation)
    ensures Apply(policy, e, ProcessExits(t, exit)).threads[t].Done?
  {
    ReachableFlags(policy, e);
    ReachableInv(policy, e);
    ExitIsCrashIff(policy, e, t, exit);
  }

  // ---------------------------------------------------------------- a helper's clean exit

  /** A mount helper's entry, MOUNTED, with no crash of the attempt left to handle. */
  ghost predicate Healthy(e: Entry) {
    && e.info.state == Mounted && e.info.config.client != Irodsfs
    && forall t: nat :: t < |e.threads| && e.threads[t].Crashed? ==> e.threads[t].gen < e.generation
  }

  /** Children exit with status 0, no Unmount is requested and no shutdown ends. */
  predicate Peaceful(a: Action) {
    (a.ProcessExits? ==> a.exit == CleanExit) && !a.UnmountRequested? && !a.ShutdownEnds?
  }

  lemma HealthyStep(policy: Policy, e: Entry, a: Action)
    requires Reachable(policy, e) && Healthy(e) && Enabled(e, a) && Peaceful(a)
    ensures Healthy(Apply(policy, e, a))
  {
    NoNewCrash(policy, e, a);
    if a.CrashHandled? {
      StaleStep(policy, e, a);
      assert Core(Apply(policy, e, a)).info == Core(e).info;
    } else {
      MountedIsStable(policy, e, a);
    }
  }

  /** A thread that has crashed has crashed before, or just now by its child's exit. */
  lemma CrashFromExit(policy: Policy, e: Entry, a: Action, t: nat)
    requires Enabled(e, a) && t < |Apply(policy, e, a).threads| && Apply(policy, e, a).threads[t].Crashed?
    ensures t < |e.threads|
    ensures (a.ProcessExits? && a.t == t) || Apply(policy, e, a).threads[t] == e.threads[t]
  {
    if t >= |e.threads| {
      NewThreads(policy, e, a, t);
    } else if a.ByThread() && a.t == t {
      if !a.ProcessExits? {
        OwnThread(policy, e, a);
      }
    } else {
      OthersStay(policy, e, t, a);
    }
  }

  lemma OwnThread(policy: Policy, e: Entry, a: Action)
    requires Enabled(e, a) && a.ByThread() && !a.ProcessExits?
    ensures a.t < |Apply(policy, e, a).threads| && !Apply(policy, e, a).threads[a.t].Crashed?
  {
    if a.CrashHandled? {
      var e1 := Become(e, a.t, Done);
      FailureThreads(policy, e1, a.t, e.threads[a.t].gen, e.threads[a.t].code);
      TerminalThreads(e1, a.t, e.threads[a.t].gen);
    } else {
      OwnPlainThread(policy, e, a);
    }
  }

  lemma ObservedThreads(e: Entry, t: nat)
    requires t < |e.threads| && e.threads[t].Watching?
    ensures AfterMountObserved(e, t).threads == e.threads[t := Done]
  {
  }

  lemma RetryMountThreads(e: Entry, t: nat)
    requires t < |e.threads| && e.threads[t].RetryMountTimer?
    ensures AfterRetryMountFires(e, t).threads == e.threads[t := Done]
  {
  }

  lemma RetryUnmountThreads(e: Entry, t: nat)
    requires t < |e.threads| && e.threads[t].RetryUnmountTimer?
    ensures AfterRetryUnmountFires(e, t).threads == e.threads[t := Done]
  {
  }

  lemma OwnPlainThread(policy: Policy, e: Entry, a: Action)
    requires Enabled(e, a) && a.ByThread() && !a.ProcessExits? && !a.CrashHandled?
    ensures a.t < |ThreadStep(policy, e, a).threads| && !ThreadStep(policy, e, a).threads[a.t].Crashed?
  {
    match a
    case MountObserved(t) => ObservedThreads(e, t);
    case WatchStops(t) =>
    case DeadlinePasses(t) =>
    case TimeoutFires(t) =>
    case RetryMountFires(t) => RetryMountThreads(e, t);
    case RetryUnmountFires(t) => RetryUnmountThreads(e, t);
  }

  lemma NewThreads(policy: Policy, e: Entry, a: Action, t: nat)
    requires Enabled(e, a) && |e.threads| <= t < |Apply(policy, e, a).threads|
    ensures !Apply(policy, e, a).threads[t].Crashed?
  {
    if a.ByThread() {
      NewByThread(policy, e, a, t);
    } else if a.Mounts() {
      NewByMount(policy, e, a, t);
    } else {
      NewByUnmount(policy, e, a, t);
    }
  }

  lemma PlainAddsNone(policy: Policy, e: Entry, a: Action)
    requires Enabled(e, a) && a.ByThread() && !a.CrashHandled?
    ensures |ThreadStep(policy, e, a).threads| == |e.threads|
  {
    match a
    case ProcessExits(t, exit) => ExitAddsNone(e, t, exit);
    case MountObserved(t) => ObservedThreads(e, t);
    case WatchStops(t) =>
    case DeadlinePasses(t) =>
    case TimeoutFires(t) =>
    case RetryMountFires(t) => RetryMountThreads(e, t);
    case RetryUnmountFires(t) => RetryUnmountThreads(e, t);
  }

  lemma ExitAddsNone(e: Entry, t: nat, exit: Exit)
    requires t < |e.threads| && e.threads[t].Process?
    ensures |AfterProcessExit(e, t, exit).threads| == |e.threads|
  {
  }

  lemma NewByThread(policy: Policy, e: Entry, a: Action, t: nat)
    requires Enabled(e, a) && a.ByThread() && |e.threads| <= t < |ThreadStep(policy, e, a).threads|
    ensures !ThreadStep(policy, e, a).threads[t].Crashed?
  {
    if a.CrashHandled? {
      NewByFailure(policy, Become(e, a.t, Done), t, e.threads[a.t].gen, e.threads[a.t].code);
    } else {
      PlainAddsNone(policy, e, a);
    }
  }

  lemma NewByFailure(policy: Policy, e: Entry, t: nat, gen: nat, code: FailureCode)
    requires |e.threads| <= t
    ensures var r := RecordMountFailure(policy, e, gen, code); t < |r.threads| ==> !r.threads[t].Crashed?
    ensures |RecordTerminalMountFailure(e, gen).threads| == |e.threads|
  {
    var r := RecordMountFailure(policy, e, gen, code);
    assert r == e || r == GiveUp(e) || r == WaitToRetry(e, RetryMountTimer(gen));
  }

  lemma NewByMount(policy: Policy, e: Entry, a: Action, t: nat)
    requires Enabled(e, a) && a.Mounts() && |e.threads| <= t < |MountStep(policy, e, a).threads|
    ensures !MountStep(policy, e, a).threads[t].Crashed?
  {
    if RecordsFailure(a) {
      NewByFailure(policy, Release(e), t, e.operation.gen, if a.TimeoutCleaned? then MountTimeout else StartFailure);
    }
  }

  lemma NewByUnmountFailure(policy: Policy, e: Entry, t: nat, gen: nat)
    requires |e.threads| <= t
    ensures var r := RecordUnmountFailure(policy, e, gen); t < |r.threads| ==> !r.threads[t].Crashed?
  {
    var r := RecordUnmountFailure(policy, e, gen);
    assert r == e || r == GiveUp(e) || r == WaitToRetry(e, RetryUnmountTimer(gen));
  }

  lemma NewByUnmount(policy: Policy, e: Entry, a: Action, t: nat)
    requires Enabled(e, a) && !a.ByThread() && !a.Mounts() && |e.threads| <= t < |UnmountStep(policy, e, a).threads|
    ensures !UnmountStep(policy, e, a).threads[t].Crashed?
  {
    if a.UnmountFails? {
      NewByUnmountFailure(policy, Release(e), t, e.operation.gen);
    }
  }

  /** A crash of the current generation comes only from an exit that is one. */
  lemma NoNewCrash(policy: Policy, e: Entry, a: Action)
    requires Reachable(policy, e) && Healthy(e) && Enabled(e, a) && Peaceful(a)
    ensures var r := Apply(policy, e, a);
      forall t: nat :: t < |r.threads| && r.threads[t].Crashed? ==> r.threads[t].gen < r.generation
  {
    var r := Apply(policy, e, a);
    if a.ProcessExits? {
      ExitIsCrashIff(policy, e, a.t, a.exit);
    }
    forall t: nat | t < |r.threads| && r.threads[t].Crashed?
      ensures r.threads[t].gen < r.generation
    {
      CrashFromExit(policy, e, a, t);
    }
  }

  lemma HealthyNext(policy: Policy, e: Entry, a: Action) returns (r: Entry)
    requires Reachable(policy, e) && Healthy(e) && Enabled(e, a) && Peaceful(a)
    ensures r == Apply(policy, e, a) && Reachable(policy, r) && Healthy(r)
  {
    HealthyStep(policy, e, a);
    r := Extend(policy, e, a);
  }

  /**
   * A MOUNTED entry of a mount helper stays MOUNTED through any run in which children exit with status 0: through
   * its own helper's exit, leftover goroutines and timers, and a shutdown up to its end.
   */
  lemma {:induction false} HelperExitKeepsMounted(policy: Policy, e: Entry, run: seq<Action>)
    requires Reachable(policy, e) && Healthy(e) && CanRun(policy, e, run)
    requires forall i :: 0 <= i < |run| ==> Peaceful(run[i])
    ensures Run(policy, e, run).info.state == Mounted
    decreases |run|
  {
    if run != [] {
      var r := HealthyNext(policy, e, run[0]);
      HelperExitKeepsMounted(policy, r, run[1..]);
    }
  }
}
