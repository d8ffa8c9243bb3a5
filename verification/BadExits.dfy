/** Failures that must not be retried, and when they are final. */
module BadExits {
  import opened MountTypes
  import opened Controller
  import opened ControllerTheorems
  import opened RetryPolicy
  import opened MountedStability
  import opened RetryProspects
  import opened AttemptsOver

  /** The current attempt's child was started and its exit has been dealt with, or there is none to come. */
  ghost predicate Childless(e: Entry) {
    ChildDone(e) && forall i: nat :: !ChildThread(e, i)
  }

  lemma ChildlessIsOverIff(policy: Policy, e: Entry)
    requires Reachable(policy, e) && Childless(e)
    ensures !CanAttempt(policy, e) <==> Over(policy, e)
  {
    NoFurtherAttemptIff(policy, e);
    forall i: nat
      ensures !MayFail(e, i)
    {
      assert !ChildThread(e, i);
    }
  }

  // ---------------------------------------------------------------- from the exit to its handling

  /** The exit of the current attempt's child counts as a crash. */
  predicate Crashes(e: Entry, t: nat) {
    && t < |e.threads| && e.threads[t].Process? && e.threads[t].gen == e.generation
    && !e.unmounting && !e.timedOut && !e.stopping
  }

  /** The crash is remembered as not retryable exactly for irodsfs and its statuses 10 and 11. */
  lemma ExitIsClassified(policy: Policy, e: Entry, t: nat, code: int)
    requires Crashes(e, t)
    ensures var thread := Apply(policy, e, ProcessExits(t, ExitStatus(code))).threads[t];
      && thread.Crashed? && thread.gen == e.generation
      && (IsNonRetryable(thread.code) <==> e.info.config.client == Irodsfs && (code == 10 || code == 11))
  {
  }

  /** It waits to be handled as it is, whatever else happens. */
  lemma {:induction false} CrashWaits(policy: Policy, e: Entry, t: nat, run: seq<Action>)
    requires CanRun(policy, e, run) && t < |e.threads| && e.threads[t].Crashed?
    requires forall k :: 0 <= k < |run| ==> !(run[k].CrashHandled? && run[k].t == t)
    ensures t < |Run(policy, e, run).threads| && Run(policy, e, run).threads[t] == e.threads[t]
    decreases |run|
  {
    if run != [] {
      if run[0].ByThread() && run[0].t == t {
        OnlyHandled(e, t, run[0]);
      }
      OthersStay(policy, e, t, run[0]);
      CrashWaits(policy, Apply(policy, e, run[0]), t, run[1..]);
    }
  }

  lemma OnlyHandled(e: Entry, t: nat, a: Action)
    requires Enabled(e, a) && t < |e.threads| && e.threads[t].Crashed? && a.ByThread() && a.t == t
    ensures a.CrashHandled?
  {
  }

  /** No step of another changes a thread. */
  predicate Stays(e: Entry, t: nat, r: Entry)
    requires t < |e.threads|
  {
    t < |r.threads| && r.threads[t] == e.threads[t]
  }

  lemma OthersStay(policy: Policy, e: Entry, t: nat, a: Action)
    requires Enabled(e, a) && t < |e.threads| && !(a.ByThread() && a.t == t)
    ensures Stays(e, t, Apply(policy, e, a))
  {
    if a.ByThread() {
      ThreadOthersStay(policy, e, t, a);
    } else if RecordsFailure(a) {
      FailureOthersStay(policy, e, t, a);
    } else if a.Launch? {
      LaunchStays(e, t);
    } else if a.Mounts() {
      MountOthersStay(policy, e, t, a);
    } else if a.UnmountFails? {
      UnmountFailureStays(policy, e, t);
    } else {
      UnmountOthersStay(policy, e, t, a);
    }
  }

  lemma ThreadOthersStay(policy: Policy, e: Entry, t: nat, a: Action)
    requires Enabled(e, a) && a.ByThread() && t < |e.threads| && a.t != t
    ensures Stays(e, t, ThreadStep(policy, e, a))
  {
    if Acquires(a) {
      TimerOthersStay(policy, e, t, a);
    } else if a.CrashHandled? {
      var e1 := Become(e, a.t, Done);
      FailureThreads(policy, e1, t, e.threads[a.t].gen, e.threads[a.t].code);
      TerminalThreads(e1, t, e.threads[a.t].gen);
    } else {
      WatchOthersStay(policy, e, t, a);
    }
  }

  lemma TimerOthersStay(policy: Policy, e: Entry, t: nat, a: Action)
    requires Enabled(e, a) && Acquires(a) && t < |e.threads| && a.t != t
    ensures Stays(e, t, ThreadStep(policy, e, a))
  {
    assert Become(e, a.t, Done).threads[t] == e.threads[t];
  }

  lemma WatchOthersStay(policy: Policy, e: Entry, t: nat, a: Action)
    requires Enabled(e, a) && a.ByThread() && !Acquires(a) && !a.CrashHandled? && t < |e.threads| && a.t != t
    ensures Stays(e, t, ThreadStep(policy, e, a))
  {
    assert Become(e, a.t, Done).threads[t] == e.threads[t];
  }

  lemma FailureThreads(policy: Policy, e: Entry, t: nat, gen: nat, code: FailureCode)
    requires t < |e.threads|
    ensures RecordMountFailure(policy, e, gen, code).threads[t] == e.threads[t]
  {
    var r := RecordMountFailure(policy, e, gen, code);
    assert r == e || r == GiveUp(e) || r == WaitToRetry(e, RetryMountTimer(gen));
  }

  lemma TerminalThreads(e: Entry, t: nat, gen: nat)
    requires t < |e.threads|
    ensures RecordTerminalMountFailure(e, gen).threads[t] == e.threads[t]
  {
  }

  lemma UnmountFailureThreads(policy: Policy, e: Entry, t: nat, gen: nat)
    requires t < |e.threads|
    ensures RecordUnmountFailure(policy, e, gen).threads[t] == e.threads[t]
  {
    var r := RecordUnmountFailure(policy, e, gen);
    assert r == e || r == GiveUp(e) || r == WaitToRetry(e, RetryUnmountTimer(gen));
  }

  lemma FailureOthersStay(policy: Policy, e: Entry, t: nat, a: Action)
    requires Enabled(e, a) && RecordsFailure(a) && t < |e.threads|
    ensures Stays(e, t, MountStep(policy, e, a))
  {
    FailureThreads(policy, Release(e), t, e.operation.gen, if a.TimeoutCleaned? then MountTimeout else StartFailure);
    TerminalThreads(Release(e), t, e.operation.gen);
  }

  lemma LaunchStays(e: Entry, t: nat)
    requires e.operation.Launching? && t < |e.threads|
    ensures Stays(e, t, AfterLaunch(e))
  {
  }

  lemma MountOthersStay(policy: Policy, e: Entry, t: nat, a: Action)
    requires Enabled(e, a) && a.Mounts() && !RecordsFailure(a) && !a.Launch? && t < |e.threads|
    ensures Stays(e, t, MountStep(policy, e, a))
  {
    assert MountStep(policy, e, a).threads == e.threads;
  }

  lemma UnmountFailureStays(policy: Policy, e: Entry, t: nat)
    requires Enabled(e, UnmountFails) && t < |e.threads|
    ensures Stays(e, t, UnmountStep(policy, e, UnmountFails))
  {
    UnmountFailureThreads(policy, Release(e), t, e.operation.gen);
  }

  lemma UnmountOthersStay(policy: Policy, e: Entry, t: nat, a: Action)
    requires Enabled(e, a) && !a.ByThread() && !a.Mounts() && !a.UnmountFails? && t < |e.threads|
    ensures Stays(e, t, UnmountStep(policy, e, a))
  {
    assert UnmountStep(policy, e, a).threads == e.threads;
  }

  lemma HandledIsChildless(policy: Policy, e: Entry, t: nat)
    requires RemountOk(policy, e) && OneChild(e) && t < |e.threads| && e.threads[t].Crashed?
    requires e.threads[t].gen == e.generation
    ensures Childless(GiveUp(Become(e, t, Done)))
  {
    var r := GiveUp(Become(e, t, Done));
    assert Current(e, t) && ChildThread(e, t);
    forall i: nat
      ensures !ChildThread(r, i)
    {
      assert ChildThread(r, i) ==> i != t && ChildThread(e, i);
    }
  }

  lemma HandledProspects(policy: Policy, e: Entry, t: nat)
    requires t < |e.threads| && e.threads[t].Crashed?
    ensures Over(policy, GiveUp(Become(e, t, Done))) <==> Over(policy, e)
  {
    var r := GiveUp(Become(e, t, Done));
    assert r.threads == e.threads[t := Done] && r.generation == e.generation && r.operation == e.operation;
    assert forall i: nat :: Watcher(r, i) <==> Watcher(e, i);
    assert forall i: nat :: Timer(r, i) <==> Timer(e, i);
    assert Exhausted(policy, r) == Exhausted(policy, e) && r.superseded == e.superseded;
  }

  /**
   * A crash that must not be retried, once it is handled: the mount is FAILED, and this is final -- no run
   * begins another attempt -- if and only if at that moment no retry is due, and either the budget is used
   * up or neither a waitForMount of this generation nor the clean-up of its timeout is left.
   */
  lemma NonRetryableIsFinalIff(policy: Policy, e: Entry, t: nat, cleaned: bool)
    requires Reachable(policy, e) && Enabled(e, CrashHandled(t, cleaned)) && e.threads[t].gen == e.generation
    requires IsNonRetryable(e.threads[t].code) && !e.superseded
    ensures var e' := Apply(policy, e, CrashHandled(t, cleaned));
      && e'.info.state == Failed
      && (!CanAttempt(policy, e') <==>
            NoTimer(e) && (Exhausted(policy, e) || (NoWatcher(e) && !e.operation.TimeoutCleanup?)))
  {
    ReachableInv(policy, e);
    ReachableStable(policy, e);
    ReachableRemountOk(policy, e);
    NonRetryableFails(policy, e, t, cleaned);
    HandledIsChildless(policy, e, t);
    HandledProspects(policy, e, t);
    var e' := Extend(policy, e, CrashHandled(t, cleaned));
    ChildlessIsOverIff(policy, e');
  }

  lemma {:induction false} ReachableRun(policy: Policy, e: Entry, run: seq<Action>)
    requires Reachable(policy, e) && CanRun(policy, e, run)
    ensures Reachable(policy, Run(policy, e, run))
    decreases |run|
  {
    if run != [] {
      var e1 := Extend(policy, e, run[0]);
      ReachableRun(policy, e1, run[1..]);
    }
  }

  /** The thread's crash is final once it is handled, in these circumstances and no others. */
  ghost predicate FinalExactlyIfOver(policy: Policy, e: Entry, t: nat, cleaned: bool)
    requires Enabled(e, CrashHandled(t, cleaned))
  {
    var e' := Apply(policy, e, CrashHandled(t, cleaned));
    && e'.info.state == Failed
    && (!CanAttempt(policy, e') <==>
          NoTimer(e) && (Exhausted(policy, e) || (NoWatcher(e) && !e.operation.TimeoutCleanup?)))
  }

  /**
   * irodsfs exits with status 10 or 11, anything else may happen, and then the crash is handled: the mount is
   * FAILED, and finally so exactly as above, unless a new attempt or an Unmount request has come in between.
   */
  lemma BadExitIsFinalIff(policy: Policy, e: Entry, t: nat, code: int, run: seq<Action>, cleaned: bool)
    requires Reachable(policy, e) && Crashes(e, t) && e.info.config.client == Irodsfs && (code == 10 || code == 11)
    requires CanRun(policy, Apply(policy, e, ProcessExits(t, ExitStatus(code))), run)
    requires forall k :: 0 <= k < |run| ==> !(run[k].CrashHandled? && run[k].t == t)
    requires var e2 := Run(policy, Apply(policy, e, ProcessExits(t, ExitStatus(code))), run);
      e2.generation == e.generation && !e2.superseded
    ensures var e2 := Run(policy, Apply(policy, e, ProcessExits(t, ExitStatus(code))), run);
      Enabled(e2, CrashHandled(t, cleaned)) && FinalExactlyIfOver(policy, e2, t, cleaned)
  {
    ExitIsClassified(policy, e, t, code);
    var e1 := Extend(policy, e, ProcessExits(t, ExitStatus(code)));
    CrashWaits(policy, e1, t, run);
    ReachableRun(policy, e1, run);
    NonRetryableIsFinalIff(policy, Run(policy, e1, run), t, cleaned);
  }

  // ---------------------------------------------------------------- a concrete run

  /** The first attempt of a new mount that nobody has interfered with. */
  predicate First(e: Entry, config: MountConfig) {
    && e.generation == 1 && e.info.attempt == 1 && !e.info.everMounted && e.info.config == config && e.exitDone == 0
    && !e.unmounting && !e.superseded && !e.timedOut && !e.stopping
  }

  lemma Accepted(policy: Policy, id: string, config: MountConfig) returns (e: Entry)
    ensures Reachable(policy, e) && First(e, config) && e.operation == Starting(1) && e.threads == []
  {
    var e0 := NewMount(id, config);
    InitialReachable(policy, e0);
    e := Extend(policy, e0, CreateReturns(true));
    assert e == AfterCreate(e0, true);
  }

  /** irodsfs has been started. */
  lemma Started(policy: Policy, id: string, config: MountConfig) returns (e: Entry)
    requires config.client == Irodsfs
    ensures Reachable(policy, e) && First(e, config) && e.operation == Launching(1) && e.threads == []
    ensures e.info.state == Mounting
  {
    var e0 := Accepted(policy, id, config);
    e := Extend(policy, e0, StartSucceeds);
    assert e == AfterStartSucceeds(e0);
  }

  lemma Launched(policy: Policy, id: string, config: MountConfig) returns (e: Entry)
    requires config.client == Irodsfs
    ensures Reachable(policy, e) && First(e, config) && e.operation == Free && e.info.state == Mounting
    ensures e.threads == [Process(1, 0), Watching(1, 0)]
  {
    var e0 := Started(policy, id, config);
    e := Extend(policy, e0, Launch);
    assert e == AfterLaunch(e0);
  }

  /** It is running and its mount deadline has passed. */
  lemma DeadlinePassed(policy: Policy, id: string, config: MountConfig) returns (e: Entry)
    requires config.client == Irodsfs
    ensures Reachable(policy, e) && First(e, config) && e.operation == Free && e.info.state == Mounting
    ensures e.threads == [Process(1, 0), TimingOut(1)]
  {
    var e0 := Launched(policy, id, config);
    e := Extend(policy, e0, DeadlinePasses(1));
    assert e == Become(e0, 1, TimingOut(1));
  }

  /** irodsfs then exits with status 10. */
  lemma ConfigurationCrashed(policy: Policy, id: string, config: MountConfig) returns (e: Entry)
    requires config.client == Irodsfs
    ensures Reachable(policy, e) && First(e, config) && e.operation == Free && e.info.state == Mounting
    ensures e.threads == [Crashed(1, ConfigurationInvalid), TimingOut(1)]
  {
    var e0 := DeadlinePassed(policy, id, config);
    e := Extend(policy, e0, ProcessExits(0, ExitStatus(10)));
    assert e == AfterProcessExit(e0, 0, ExitStatus(10));
  }

  /** The crash is handled: the mount is FAILED. */
  lemma ConfigurationFailed(policy: Policy, id: string, config: MountConfig) returns (e: Entry)
    requires config.client == Irodsfs
    ensures Reachable(policy, e) && e.threads == [Done, TimingOut(1)] && e.operation == Free
    ensures e.generation == 1 && e.info.attempt == 1 && !e.info.everMounted && e.info.state == Failed
    ensures !e.unmounting
  {
    e := ConfigurationCrashed(policy, id, config);
    NonRetryableFails(policy, e, 0, true);
    e := Extend(policy, e, CrashHandled(0, true));
  }

  /** The timeout of an attempt that has already failed schedules a retry. */
  lemma TimeoutReschedules(policy: Policy, e: Entry)
    requires e.threads == [Done, TimingOut(1)] && e.operation == Free && e.generation == 1 && !e.unmounting
    requires e.info.state == Failed && e.info.attempt < MaxAttempts(policy) && !e.info.everMounted
    ensures AfterTimeoutFires(e, 1).operation == TimeoutCleanup(1)
    ensures var e1 := AfterTimeoutFires(e, 1);
      AfterTimeoutCleaned(policy, e1, true) == WaitToRetry(Release(e1), RetryMountTimer(1))
  {
  }

  /** A bad configuration is retried after all: the timeout of the same attempt schedules it. */
  lemma FailedIsRetried(id: string, config: MountConfig) returns (policy: Policy, e: Entry, e': Entry)
    requires config.client == Irodsfs
    ensures Reachable(policy, e) && e.info.state == Failed
    ensures Enabled(e, TimeoutFires(1)) && Enabled(Apply(policy, e, TimeoutFires(1)), TimeoutCleaned(true))
    ensures e' == Apply(policy, Apply(policy, e, TimeoutFires(1)), TimeoutCleaned(true))
    ensures e'.info.state == RetryWait && RetryMountTimer(e'.generation) in e'.threads
  {
    policy := Policy(0, true);
    e := ConfigurationFailed(policy, id, config);
    TimeoutReschedules(policy, e);
    var e1 := AfterTimeoutFires(e, 1);
    e' := WaitToRetry(Release(e1), RetryMountTimer(1));
    assert e'.threads[|e1.threads|] == RetryMountTimer(1);
  }
}
