/** When a mount retry may be due, and that a mount is made again only if the policy allows it. */
module RetryPolicy {
  import opened MountTypes
  import opened Controller
  import opened ControllerProofs
  import opened ControllerTheorems

  predicate Current(e: Entry, i: nat)
    requires i < |e.threads|
  {
    MountThread(e.threads[i]) && e.threads[i].gen == e.generation
  }

  /**
   * Threads of the current generation exist only once its child was started or failed to start, and a
   * mount retry is due only if the policy allows it, and not while mounting.
   */
  predicate RemountOk(policy: Policy, e: Entry) {
    forall i :: 0 <= i < |e.threads| && Current(e, i) ==>
      && !BeforeChild(e.operation) && !e.operation.Launching?
      && (e.threads[i].RetryMountTimer? ==> (e.info.everMounted ==> policy.autoRemount) && e.info.state != Mounting)
  }

  predicate NotNewer(e: Entry) {
    forall i :: 0 <= i < |e.threads| ==> Gen(e.threads[i]) <= e.generation
  }

  predicate ChildDone(e: Entry) {
    !BeforeChild(e.operation) && !e.operation.Launching?
  }

  lemma BecomeKeeps(policy: Policy, e: Entry, t: nat, thread: Thread)
    requires RemountOk(policy, e) && t < |e.threads| && Gen(thread) <= Gen(e.threads[t]) && !thread.RetryMountTimer?
    requires MountThread(thread) ==> MountThread(e.threads[t]) && thread.gen == e.threads[t].gen
    ensures RemountOk(policy, Become(e, t, thread))
  {
    var r := Become(e, t, thread);
    forall i | 0 <= i < |r.threads| && Current(r, i)
      ensures Current(e, i) && (r.threads[i].RetryMountTimer? ==> e.threads[i].RetryMountTimer?)
    {
    }
  }

  lemma GiveUpKeeps(policy: Policy, e: Entry)
    requires RemountOk(policy, e)
    ensures RemountOk(policy, GiveUp(e))
  {
    var r := GiveUp(e);
    assert r.threads == e.threads && r.generation == e.generation && r.operation == e.operation;
    assert r.info.state == Failed && r.info.everMounted == e.info.everMounted;
    forall i | 0 <= i < |r.threads| && Current(r, i)
      ensures Current(e, i)
    {
    }
  }

  lemma WaitKeeps(policy: Policy, e: Entry, timer: Thread)
    requires RemountOk(policy, e) && ChildDone(e)
    requires timer.RetryMountTimer? ==> e.info.everMounted ==> policy.autoRemount
    ensures RemountOk(policy, WaitToRetry(e, timer))
  {
    var r := WaitToRetry(e, timer);
    assert forall i :: 0 <= i < |e.threads| ==> r.threads[i] == e.threads[i] && (Current(r, i) <==> Current(e, i));
  }

  lemma FailureKeeps(policy: Policy, e: Entry, gen: nat, code: FailureCode)
    requires RemountOk(policy, e) && ChildDone(e)
    ensures RemountOk(policy, RecordMountFailure(policy, e, gen, code))
    ensures RemountOk(policy, RecordTerminalMountFailure(e, gen))
  {
    GiveUpKeeps(policy, e);
    if e.info.everMounted ==> policy.autoRemount {
      WaitKeeps(policy, e, RetryMountTimer(gen));
    }
  }

  lemma ObservedKeeps(policy: Policy, e: Entry, t: nat)
    requires RemountOk(policy, e) && t < |e.threads| && e.threads[t].Watching?
    ensures RemountOk(policy, AfterMountObserved(e, t))
  {
    var e1 := Become(e, t, Done);
    BecomeKeeps(policy, e, t, Done);
    var r := AfterMountObserved(e, t);
    assert r.threads == e1.threads && r.generation == e1.generation && r.operation == e1.operation;
    assert r.info == e1.info || (e1.info.state == Mounting && r.info.state == Mounted);
    forall i | 0 <= i < |r.threads| && Current(r, i)
      ensures Current(e1, i)
    {
    }
  }

  lemma CrashKeeps(policy: Policy, e: Entry, t: nat, cleaned: bool)
    requires RemountOk(policy, e) && t < |e.threads| && e.threads[t].Crashed?
    requires e.threads[t].gen == e.generation ==> ChildDone(e)
    ensures RemountOk(policy, ThreadStep(policy, e, CrashHandled(t, cleaned)))
  {
    BecomeKeeps(policy, e, t, Done);
    if e.threads[t].gen == e.generation {
      FailureKeeps(policy, Become(e, t, Done), e.threads[t].gen, e.threads[t].code);
    }
  }

  lemma ExitKeeps(policy: Policy, e: Entry, t: nat, exit: Exit)
    requires RemountOk(policy, e) && t < |e.threads| && e.threads[t].Process?
    ensures RemountOk(policy, AfterProcessExit(e, t, exit))
  {
    var next := AfterProcessExit(e, t, exit).threads[t];
    BecomeKeeps(policy, e, t, next);
  }

  lemma ThreadKeepsRemount(policy: Policy, e: Entry, a: Action)
    requires NotNewer(e) && RemountOk(policy, e) && Enabled(e, a) && a.ByThread()
    ensures RemountOk(policy, ThreadStep(policy, e, a))
  {
    match a
    case ProcessExits(t, exit) => ExitKeeps(policy, e, t, exit);
    case CrashHandled(t, cleaned) => CrashKeeps(policy, e, t, cleaned);
    case MountObserved(t) => ObservedKeeps(policy, e, t);
    case WatchStops(t) => BecomeKeeps(policy, e, t, Done);
    case DeadlinePasses(t) => BecomeKeeps(policy, e, t, TimingOut(e.threads[t].gen));
    case TimeoutFires(t) => BecomeKeeps(policy, e, t, Done);
    case RetryMountFires(t) => BecomeKeeps(policy, e, t, Done);
    case RetryUnmountFires(t) => BecomeKeeps(policy, e, t, Done);
  }

  /** Before a child, no thread of the current generation exists. */
  lemma NoneCurrent(policy: Policy, e: Entry, r: Entry)
    requires RemountOk(policy, e) && !ChildDone(e) && r.threads == e.threads && r.generation == e.generation
    ensures RemountOk(policy, r)
  {
    forall i | 0 <= i < |r.threads|
      ensures !Current(r, i)
    {
      assert !Current(e, i);
    }
  }

  lemma LaunchKeeps(policy: Policy, e: Entry)
    requires RemountOk(policy, e) && e.operation.Launching?
    ensures RemountOk(policy, AfterLaunch(e))
  {
    assert forall i :: 0 <= i < |e.threads| ==> !Current(e, i);
  }

  lemma MountKeepsRemount(policy: Policy, e: Entry, a: Action)
    requires RemountOk(policy, e) && OperationOk(e) && Enabled(e, a) && a.Mounts()
    ensures RemountOk(policy, MountStep(policy, e, a))
  {
    match a
    case CreateReturns(ok) => NoneCurrent(policy, e, AfterCreate(e, ok));
    case PrepareExpires => NoneCurrent(policy, e, AfterPrepareExpires(e));
    case StartFails => NoneCurrent(policy, e, AfterStartFails(e));
    case RecordStartFailure => FailureKeeps(policy, Release(e), e.operation.gen, StartFailure);
    case StartSucceeds => NoneCurrent(policy, e, AfterStartSucceeds(e));
    case Launch => LaunchKeeps(policy, e);
    case TimeoutCleaned(_) => FailureKeeps(policy, Release(e), e.operation.gen, MountTimeout);
  }

  /** The step leaves the current generation's threads, and puts the entry neither before a child nor to MOUNTING. */
  predicate Harmless(e: Entry, r: Entry) {
    && r.generation == e.generation && r.threads == e.threads && r.info.everMounted == e.info.everMounted
    && (ChildDone(e) ==> ChildDone(r)) && (r.info.state == Mounting ==> e.info.state == Mounting)
  }

  lemma HarmlessKeeps(policy: Policy, e: Entry, r: Entry)
    requires RemountOk(policy, e) && Harmless(e, r)
    ensures RemountOk(policy, r)
  {
    forall i | 0 <= i < |r.threads| && Current(r, i)
      ensures Current(e, i)
    {
    }
  }

  /** An Unmount request, or its rejection: no thread of the current generation is left. */
  lemma StaleKeeps(policy: Policy, e: Entry, a: Action)
    requires Inv(policy, e) && Enabled(e, a) && (a.UnmountRequested? || a.TombstoneReturns?)
    ensures RemountOk(policy, UnmountStep(policy, e, a))
  {
    var r := UnmountStep(policy, e, a);
    assert r.threads == e.threads;
    forall i | 0 <= i < |r.threads|
      ensures !Current(r, i)
    {
      assert Gen(e.threads[i]) <= e.generation;
      if a.TombstoneReturns? {
        assert AllStale(e);
      }
    }
  }

  lemma UnmountFailureKeeps(policy: Policy, e: Entry)
    requires RemountOk(policy, e) && Enabled(e, UnmountFails)
    ensures RemountOk(policy, UnmountStep(policy, e, UnmountFails))
  {
    var e1 := Release(e);
    HarmlessKeeps(policy, e, e1);
    GiveUpKeeps(policy, e1);
    WaitKeeps(policy, e1, RetryUnmountTimer(e.operation.gen));
  }

  lemma UnmountKeepsRemount(policy: Policy, e: Entry, a: Action)
    requires Inv(policy, e) && RemountOk(policy, e) && Enabled(e, a) && !a.ByThread() && !a.Mounts()
    ensures RemountOk(policy, UnmountStep(policy, e, a))
  {
    if a.UnmountRequested? || a.TombstoneReturns? {
      StaleKeeps(policy, e, a);
    } else if a.UnmountFails? {
      UnmountFailureKeeps(policy, e);
    } else {
      HarmlessKeeps(policy, e, UnmountStep(policy, e, a));
    }
  }

  lemma RemountStep(policy: Policy, e: Entry, a: Action)
    requires Inv(policy, e) && RemountOk(policy, e) && Enabled(e, a)
    ensures RemountOk(policy, Apply(policy, e, a))
  {
    if a.ByThread() {
      ThreadKeepsRemount(policy, e, a);
    } else if a.Mounts() {
      MountKeepsRemount(policy, e, a);
    } else {
      UnmountKeepsRemount(policy, e, a);
    }
  }

  // ---------------------------------------------------------------- over runs

  lemma {:induction false} RemountRun(policy: Policy, e: Entry, run: seq<Action>)
    requires Inv(policy, e) && RemountOk(policy, e) && CanRun(policy, e, run)
    ensures RemountOk(policy, Run(policy, e, run))
    decreases |run|
  {
    if run != [] {
      RemountStep(policy, e, run[0]);
      InvStep(policy, e, run[0]);
      RemountRun(policy, Apply(policy, e, run[0]), run[1..]);
    }
  }

  lemma ReachableRemountOk(policy: Policy, e: Entry)
    requires Reachable(policy, e)
    ensures RemountOk(policy, e)
  {
    var e0, run :| Initial(e0) && CanRun(policy, e0, run) && e == Run(policy, e0, run);
    InitialInv(policy, e0);
    assert e0.threads == [];
    RemountRun(policy, e0, run);
  }

  lemma NoRemountStep(policy: Policy, e: Entry, a: Action)
    requires RemountOk(policy, e) && Enabled(e, a) && e.info.everMounted && !policy.autoRemount
    ensures Apply(policy, e, a).attempts == e.attempts
  {
    assert a.RetryMountFires? ==> (Current(e, a.t) <==> e.threads[a.t].gen == e.generation);
  }

  lemma {:induction false} NoRemountRun(policy: Policy, e: Entry, run: seq<Action>)
    requires Inv(policy, e) && RemountOk(policy, e) && CanRun(policy, e, run)
    requires e.info.everMounted && !policy.autoRemount
    ensures Run(policy, e, run).attempts == e.attempts
    decreases |run|
  {
    if run != [] {
      NoRemountStep(policy, e, run[0]);
      RemountStep(policy, e, run[0]);
      InvStep(policy, e, run[0]);
      NoRemountRun(policy, Apply(policy, e, run[0]), run[1..]);
    }
  }

  /** Without automatic remounting, an entry that has once been mounted begins no further mount attempt. */
  lemma MountedOnceIsNotRemounted(policy: Policy, e: Entry, run: seq<Action>)
    requires Reachable(policy, e) && CanRun(policy, e, run) && e.info.everMounted && !policy.autoRemount
    ensures Run(policy, e, run).attempts == e.attempts
  {
    ReachableInv(policy, e);
    ReachableRemountOk(policy, e);
    NoRemountRun(policy, e, run);
  }
}
