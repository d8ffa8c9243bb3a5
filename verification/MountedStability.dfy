/** A mounted entry is left alone by timeouts and retries: what can end the state MOUNTED, on every run. */
module MountedStability {
  import opened MountTypes
  import opened Controller
  import opened ControllerProofs
  import opened ControllerTheorems
  import opened RetryPolicy

  // ---------------------------------------------------------------- the invariant

  /** waitForMount of the current generation, polling or about to handle its timeout. */
  predicate Watcher(e: Entry, i: nat) {
    i < |e.threads| && (e.threads[i].Watching? || e.threads[i].TimingOut?) && e.threads[i].gen == e.generation
  }

  ghost predicate NoWatcher(e: Entry) {
    forall i: nat :: !Watcher(e, i)
  }

  ghost predicate OneWatcher(e: Entry) {
    forall i: nat, j: nat :: Watcher(e, i) && Watcher(e, j) ==> i == j
  }

  /** waitForProcess of the current generation, before it has handled its child's exit. */
  predicate ChildThread(e: Entry, i: nat) {
    i < |e.threads| && (e.threads[i].Process? || e.threads[i].Crashed?) && e.threads[i].gen == e.generation
  }

  ghost predicate OneChild(e: Entry) {
    forall i: nat, j: nat :: ChildThread(e, i) && ChildThread(e, j) ==> i == j
  }

  predicate TimersOk(e: Entry) {
    forall i :: 0 <= i < |e.threads| && e.threads[i].RetryMountTimer? && e.threads[i].gen == e.generation ==>
      e.info.state != Mounted
  }

  ghost predicate OwnerOk(e: Entry) {
    && (BeforeChild(e.operation) ==> e.info.state == PendingMount)
    && (e.operation.Launching? ==> e.info.state == Mounting)
    && (e.operation.TimeoutCleanup? ==> NoWatcher(e) && e.info.state != Mounted)
  }

  ghost predicate Stable(e: Entry) {
    OneWatcher(e) && OneChild(e) && TimersOk(e) && OwnerOk(e) && (e.info.state == Mounted ==> NoWatcher(e))
  }

  // ---------------------------------------------------------------- building blocks

  /** Some threads may have ended or moved on; none has become a watcher, a child's thread or a timer. */
  predicate Thinner(e: Entry, r: Entry) {
    && |r.threads| == |e.threads| && r.generation == e.generation
    && (forall i :: 0 <= i < |r.threads| ==>
          && (Watcher(r, i) ==> Watcher(e, i)) && (ChildThread(r, i) ==> ChildThread(e, i))
          && (r.threads[i].RetryMountTimer? ==> e.threads[i] == r.threads[i]))
  }

  lemma ThinnerKeeps(e: Entry, r: Entry)
    requires Stable(e) && Thinner(e, r) && OwnerOk(r) && (r.info.state == Mounted ==> e.info.state == Mounted)
    ensures Stable(r)
  {
    forall i: nat
      ensures (Watcher(r, i) ==> Watcher(e, i)) && (ChildThread(r, i) ==> ChildThread(e, i))
    {
    }
  }

  lemma ThinnerOwner(e: Entry, r: Entry)
    requires Stable(e) && Thinner(e, r) && r.operation == e.operation && r.info.state == e.info.state
    ensures Stable(r)
  {
    assert e.operation.TimeoutCleanup? ==> NoWatcher(r);
  }

  lemma BecomeThinner(e: Entry, t: nat, thread: Thread)
    requires Stable(e) && t < |e.threads| && Gen(thread) <= Gen(e.threads[t]) && !thread.RetryMountTimer?
    requires thread.Watching? || thread.TimingOut? ==> e.threads[t].Watching? && thread.gen == e.threads[t].gen
    requires !thread.Process? && !thread.Crashed?
    ensures Thinner(e, Become(e, t, thread)) && Stable(Become(e, t, thread))
  {
    ThinnerOwner(e, Become(e, t, thread));
  }

  /** No thread of the current generation is left. */
  lemma BumpKeeps(e: Entry, r: Entry)
    requires (forall i :: 0 <= i < |r.threads| ==> Gen(r.threads[i]) < r.generation) && OwnerOk(r)
    ensures Stable(r)
  {
  }

  lemma GiveUpStable(e: Entry)
    requires Stable(e) && ChildDone(e)
    ensures Stable(GiveUp(e))
  {
    var r := GiveUp(e);
    assert r.threads == e.threads && r.generation == e.generation && r.operation == e.operation;
    forall i: nat | Watcher(r, i)
      ensures Watcher(e, i)
    {
    }
    ThinnerKeeps(e, r);
  }

  lemma WaitStable(e: Entry, timer: Thread)
    requires Stable(e) && ChildDone(e) && (timer.RetryMountTimer? || timer.RetryUnmountTimer?)
    ensures Stable(WaitToRetry(e, timer))
  {
    var r := WaitToRetry(e, timer);
    forall i: nat
      ensures (Watcher(r, i) ==> Watcher(e, i)) && (ChildThread(r, i) ==> ChildThread(e, i))
    {
    }
    assert r.info.state == RetryWait && r.operation == e.operation;
  }

  lemma FailureStable(policy: Policy, e: Entry, gen: nat, code: FailureCode)
    requires Stable(e) && ChildDone(e)
    ensures Stable(RecordMountFailure(policy, e, gen, code)) && Stable(RecordTerminalMountFailure(e, gen))
  {
    GiveUpStable(e);
    WaitStable(e, RetryMountTimer(gen));
  }

  lemma ReleaseStable(e: Entry)
    requires Stable(e)
    ensures Stable(Release(e)) && ChildDone(Release(e))
  {
    ThinnerKeeps(e, Release(e));
  }

  // ---------------------------------------------------------------- goroutines and timers

  lemma ObservedStable(policy: Policy, e: Entry, t: nat)
    requires Stable(e) && RemountOk(policy, e) && t < |e.threads| && e.threads[t].Watching?
    ensures Stable(AfterMountObserved(e, t))
  {
    var e1 := Become(e, t, Done);
    var r := AfterMountObserved(e, t);
    BecomeThinner(e, t, Done);
    if e.generation == e.threads[t].gen && e.info.state == Mounting && !e.unmounting {
      assert Watcher(e, t) && Current(e, t);
      forall i: nat
        ensures !Watcher(e1, i)
      {
        assert Watcher(e1, i) ==> i != t && Watcher(e, i);
      }
      BecomeKeeps(policy, e, t, Done);
      NewlyMounted(policy, e1, r);
    }
  }

  lemma NewlyMounted(policy: Policy, e: Entry, r: Entry)
    requires Stable(e) && RemountOk(policy, e) && ChildDone(e) && e.info.state == Mounting && NoWatcher(e)
    requires !e.operation.TimeoutCleanup? && r.operation == e.operation
    requires r.threads == e.threads && r.generation == e.generation
    ensures Stable(r)
  {
    forall i | 0 <= i < |r.threads| && r.threads[i].RetryMountTimer?
      ensures r.threads[i].gen != r.generation
    {
      assert e.threads[i].gen == e.generation ==> Current(e, i);
    }
    forall i: nat
      ensures (Watcher(r, i) ==> Watcher(e, i)) && (ChildThread(r, i) ==> ChildThread(e, i))
    {
    }
  }

  lemma TimeoutStable(e: Entry, t: nat)
    requires Stable(e) && t < |e.threads| && e.threads[t].TimingOut? && e.operation.Free?
    ensures Stable(AfterTimeoutFires(e, t))
  {
    var e1 := Become(e, t, Done);
    var r := AfterTimeoutFires(e, t);
    BecomeThinner(e, t, Done);
    if e.threads[t].gen == e.generation {
      assert Watcher(e, t);
      forall i: nat
        ensures !Watcher(r, i)
      {
        assert Watcher(r, i) ==> i != t && Watcher(e, i);
      }
      if r.operation.TimeoutCleanup? {
        ThinnerKeeps(e1, r);
      }
    }
  }

  lemma CrashStable(policy: Policy, e: Entry, t: nat, cleaned: bool)
    requires Stable(e) && RemountOk(policy, e) && t < |e.threads| && e.threads[t].Crashed?
    ensures Stable(ThreadStep(policy, e, CrashHandled(t, cleaned)))
  {
    BecomeThinner(e, t, Done);
    if e.threads[t].gen == e.generation {
      assert Current(e, t);
      FailureStable(policy, Become(e, t, Done), e.threads[t].gen, e.threads[t].code);
    }
  }

  lemma ExitStable(e: Entry, t: nat, exit: Exit)
    requires Stable(e) && t < |e.threads| && e.threads[t].Process?
    ensures Stable(AfterProcessExit(e, t, exit))
  {
    var r := AfterProcessExit(e, t, exit);
    assert r.threads == e.threads[t := r.threads[t]];
    ThinnerOwner(e, r);
  }

  lemma RetryStable(e: Entry, a: Action)
    requires Stable(e) && NotNewer(e) && Enabled(e, a) && (a.RetryMountFires? || a.RetryUnmountFires?)
    ensures Stable(if a.RetryMountFires? then AfterRetryMountFires(e, a.t) else AfterRetryUnmountFires(e, a.t))
  {
    var r := if a.RetryMountFires? then AfterRetryMountFires(e, a.t) else AfterRetryUnmountFires(e, a.t);
    BecomeThinner(e, a.t, Done);
    if r.generation != e.generation {
      forall i | 0 <= i < |r.threads|
        ensures Gen(r.threads[i]) < r.generation
      {
        assert Gen(e.threads[i]) <= e.generation;
      }
      BumpKeeps(e, r);
    } else {
      assert r == Become(e, a.t, Done);
    }
  }

  lemma ThreadStable(policy: Policy, e: Entry, a: Action)
    requires Stable(e) && NotNewer(e) && RemountOk(policy, e) && Enabled(e, a) && a.ByThread()
    ensures Stable(ThreadStep(policy, e, a))
  {
    match a
    case ProcessExits(t, exit) => ExitStable(e, t, exit);
    case CrashHandled(t, cleaned) => CrashStable(policy, e, t, cleaned);
    case MountObserved(t) => ObservedStable(policy, e, t);
    case WatchStops(t) => BecomeThinner(e, t, Done);
    case DeadlinePasses(t) => BecomeThinner(e, t, TimingOut(e.threads[t].gen));
    case TimeoutFires(t) => TimeoutStable(e, t);
    case RetryMountFires(t) => RetryStable(e, a);
    case RetryUnmountFires(t) => RetryStable(e, a);
  }

  // ---------------------------------------------------------------- mounting

  /** Before and after starting a child there are no threads of the current generation. */
  lemma EarlyStable(policy: Policy, e: Entry, r: Entry)
    requires RemountOk(policy, e) && !ChildDone(e) && OwnerOk(r)
    requires r.threads == e.threads && r.generation == e.generation
    ensures Stable(r)
  {
    forall i | 0 <= i < |r.threads| && MountThread(r.threads[i])
      ensures r.threads[i].gen != r.generation
    {
      assert !Current(e, i);
    }
  }

  lemma LaunchStable(policy: Policy, e: Entry)
    requires RemountOk(policy, e) && OwnerOk(e) && e.operation.Launching?
    ensures Stable(AfterLaunch(e))
  {
    var r := AfterLaunch(e);
    assert forall i :: 0 <= i < |e.threads| ==> !Current(e, i);
    forall i: nat | Watcher(r, i)
      ensures i == |e.threads| + 1
    {
    }
    forall i: nat | ChildThread(r, i)
      ensures i == |e.threads|
    {
    }
    forall i | 0 <= i < |r.threads| && r.threads[i].RetryMountTimer?
      ensures r.threads[i].gen != r.generation
    {
    }
  }

  lemma CreateStable(policy: Policy, e: Entry, ok: bool)
    requires Stable(e) && RemountOk(policy, e) && e.operation.Creating?
    ensures Stable(AfterCreate(e, ok))
  {
    EarlyStable(policy, e, AfterCreate(e, ok));
  }

  lemma StartStable(policy: Policy, e: Entry)
    requires Stable(e) && RemountOk(policy, e) && e.operation.Starting?
    ensures Stable(AfterPrepareExpires(e)) && Stable(AfterStartSucceeds(e))
  {
    EarlyStable(policy, e, AfterPrepareExpires(e));
    EarlyStable(policy, e, AfterStartSucceeds(e));
  }

  lemma StartFailsStable(policy: Policy, e: Entry)
    requires Stable(e) && RemountOk(policy, e) && (e.operation.Starting? || e.operation.Expired?)
    ensures Stable(AfterStartFails(e))
  {
    EarlyStable(policy, e, AfterStartFails(e));
  }

  predicate RecordsFailure(a: Action) {
    a.RecordStartFailure? || a.TimeoutCleaned?
  }

  lemma FailedStable(policy: Policy, e: Entry, a: Action)
    requires Stable(e) && Enabled(e, a) && RecordsFailure(a)
    ensures Stable(MountStep(policy, e, a))
  {
    ReleaseStable(e);
    FailureStable(policy, Release(e), e.operation.gen, if a.TimeoutCleaned? then MountTimeout else StartFailure);
  }

  lemma MountStable(policy: Policy, e: Entry, a: Action)
    requires Stable(e) && RemountOk(policy, e) && Enabled(e, a) && a.Mounts()
    ensures Stable(MountStep(policy, e, a))
  {
    match a
    case CreateReturns(ok) => CreateStable(policy, e, ok);
    case PrepareExpires => StartStable(policy, e);
    case StartFails => StartFailsStable(policy, e);
    case RecordStartFailure => FailedStable(policy, e, a);
    case StartSucceeds => StartStable(policy, e);
    case Launch => LaunchStable(policy, e);
    case TimeoutCleaned(_) => FailedStable(policy, e, a);
  }

  // ---------------------------------------------------------------- unmounting and shutdown

  lemma RequestStable(policy: Policy, e: Entry, a: Action)
    requires Inv(policy, e) && Enabled(e, a) && (a.UnmountRequested? || a.TombstoneReturns?)
    ensures Stable(UnmountStep(policy, e, a))
  {
    var r := UnmountStep(policy, e, a);
    assert r.threads == e.threads;
    forall i | 0 <= i < |r.threads|
      ensures Gen(r.threads[i]) < r.generation
    {
      assert Gen(e.threads[i]) <= e.generation;
      if a.TombstoneReturns? {
        assert AllStale(e);
      }
    }
    BumpKeeps(e, r);
  }

  lemma UnmountStable(policy: Policy, e: Entry, a: Action)
    requires Inv(policy, e) && Stable(e) && Enabled(e, a) && !a.ByThread() && !a.Mounts()
    ensures Stable(UnmountStep(policy, e, a))
  {
    if a.UnmountRequested? || a.TombstoneReturns? {
      RequestStable(policy, e, a);
    } else if a.UnmountFails? {
      ReleaseStable(e);
      GiveUpStable(Release(e));
      WaitStable(Release(e), RetryUnmountTimer(e.operation.gen));
    } else if a.PersistReturns? {
      ThinnerOwner(e, UnmountStep(policy, e, a));
    } else {
      ThinnerKeeps(e, UnmountStep(policy, e, a));
    }
  }

  lemma StableStep(policy: Policy, e: Entry, a: Action)
    requires Inv(policy, e) && RemountOk(policy, e) && Stable(e) && Enabled(e, a)
    ensures Stable(Apply(policy, e, a))
  {
    if a.ByThread() {
      ThreadStable(policy, e, a);
    } else if a.Mounts() {
      MountStable(policy, e, a);
    } else {
      UnmountStable(policy, e, a);
    }
  }

  // ---------------------------------------------------------------- over runs

  lemma {:induction false} StableRun(policy: Policy, e: Entry, run: seq<Action>)
    requires Inv(policy, e) && RemountOk(policy, e) && Stable(e) && CanRun(policy, e, run)
    ensures Stable(Run(policy, e, run))
    decreases |run|
  {
    if run != [] {
      StableStep(policy, e, run[0]);
      RemountStep(policy, e, run[0]);
      InvStep(policy, e, run[0]);
      StableRun(policy, Apply(policy, e, run[0]), run[1..]);
    }
  }

  lemma ReachableStable(policy: Policy, e: Entry)
    requires Reachable(policy, e)
    ensures Stable(e)
  {
    var e0, run :| Initial(e0) && CanRun(policy, e0, run) && e == Run(policy, e0, run);
    InitialInv(policy, e0);
    assert e0.threads == [];
    StableRun(policy, e0, run);
  }

  /** What may end MOUNTED: the child's own exit, an Unmount request, or the end of a shutdown. */
  predicate Ends(a: Action) {
    a.CrashHandled? || a.UnmountRequested? || a.ShutdownEnds?
  }

  predicate Fires(a: Action) {
    a.TimeoutFires? || a.RetryMountFires? || a.RetryUnmountFires?
  }

  lemma TimerLeavesMounted(policy: Policy, e: Entry, a: Action)
    requires TimersOk(e) && IntentOk(e) && Enabled(e, a) && Fires(a) && e.info.state == Mounted
    ensures ThreadStep(policy, e, a).info.state == Mounted
  {
    if a.RetryMountFires? {
      assert e.threads[a.t].gen != e.generation;
    } else if a.RetryUnmountFires? {
      assert e.accepted || !e.unmounting || e.operation.Tombstoning?;
    }
  }

  lemma WatchLeavesMounted(policy: Policy, e: Entry, a: Action)
    requires Enabled(e, a) && (a.MountObserved? || a.WatchStops? || a.DeadlinePasses?) && e.info.state == Mounted
    ensures ThreadStep(policy, e, a).info.state == Mounted
  {
  }

  lemma ExitLeavesMounted(policy: Policy, e: Entry, t: nat, exit: Exit)
    requires Enabled(e, ProcessExits(t, exit)) && e.info.state == Mounted
    ensures ThreadStep(policy, e, ProcessExits(t, exit)).info.state == Mounted
  {
  }

  lemma OwnerLeavesMounted(policy: Policy, e: Entry, a: Action)
    requires Stable(e) && IntentOk(e) && OperationOk(e) && e.info.state == Mounted
    requires Enabled(e, a) && !a.ByThread() && !Ends(a)
    ensures !a.Mounts() && UnmountStep(policy, e, a).info.state == Mounted
  {
  }

  /**
   * No mount timeout, retry timer or leftover goroutine ever takes a mounted entry out of MOUNTED: only the
   * handling of its child's exit, an Unmount request or the end of a shutdown does.
   */
  lemma MountedIsStable(policy: Policy, e: Entry, a: Action)
    requires Reachable(policy, e) && e.info.state == Mounted && Enabled(e, a) && !Ends(a)
    ensures Apply(policy, e, a).info.state == Mounted
  {
    ReachableInv(policy, e);
    ReachableStable(policy, e);
    if Fires(a) {
      TimerLeavesMounted(policy, e, a);
    } else if a.ProcessExits? {
      ExitLeavesMounted(policy, e, a.t, a.exit);
    } else if a.ByThread() {
      WatchLeavesMounted(policy, e, a);
    } else {
      OwnerLeavesMounted(policy, e, a);
    }
  }

  // ---------------------------------------------------------------- a mount is remembered

  lemma {:induction false} RemembersRun(policy: Policy, e: Entry, run: seq<Action>)
    requires Remembers(e) && CanRun(policy, e, run)
    ensures Remembers(Run(policy, e, run))
    decreases |run|
  {
    if run != [] {
      RemembersRun(policy, Apply(policy, e, run[0]), run[1..]);
    }
  }

  /** Without automatic remounting, an entry that has reached MOUNTED begins no further attempt on any run. */
  lemma MountedIsNotRemounted(policy: Policy, e: Entry, run: seq<Action>)
    requires Reachable(policy, e) && e.info.state == Mounted && !policy.autoRemount && CanRun(policy, e, run)
    ensures Run(policy, e, run).attempts == e.attempts
  {
    var e0, before :| Initial(e0) && CanRun(policy, e0, before) && e == Run(policy, e0, before);
    RemembersRun(policy, e0, before);
    MountedOnceIsNotRemounted(policy, e, run);
  }
}
