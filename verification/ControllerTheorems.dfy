/** What holds of one mount entry over every run of its goroutines, timers and requests. */
module ControllerTheorems {
  import opened MountTypes
  import opened Controller
  import opened ControllerProofs

  // ---------------------------------------------------------------- reachable entries

  ghost predicate Reachable(policy: Policy, e: Entry) {
    exists e0, run :: Initial(e0) && CanRun(policy, e0, run) && e == Run(policy, e0, run)
  }

  lemma {:induction false} InvRun(policy: Policy, e: Entry, run: seq<Action>)
    requires Inv(policy, e) && CanRun(policy, e, run)
    ensures Inv(policy, Run(policy, e, run))
    decreases |run|
  {
    if run != [] {
      InvStep(policy, e, run[0]);
      InvRun(policy, Apply(policy, e, run[0]), run[1..]);
    }
  }

  lemma InitialInv(policy: Policy, e: Entry)
    requires Initial(e)
    ensures Inv(policy, e)
  {
    assert e.threads == [] && e.closes == multiset{} && e.exitDone == 0;
  }

  lemma ReachableInv(policy: Policy, e: Entry)
    requires Reachable(policy, e)
    ensures Inv(policy, e)
  {
    var e0, run :| Initial(e0) && CanRun(policy, e0, run) && e == Run(policy, e0, run);
    InitialInv(policy, e0);
    InvRun(policy, e0, run);
  }

  lemma InitialReachable(policy: Policy, e: Entry)
    requires Initial(e)
    ensures Reachable(policy, e)
  {
    assert CanRun(policy, e, []) && Run(policy, e, []) == e;
  }

  lemma {:induction false} RunThen(policy: Policy, e: Entry, run: seq<Action>, a: Action)
    requires CanRun(policy, e, run) && Enabled(Run(policy, e, run), a)
    ensures CanRun(policy, e, run + [a])
    ensures Run(policy, e, run + [a]) == Apply(policy, Run(policy, e, run), a)
    decreases |run|
  {
    if run == [] {
      assert CanRun(policy, Apply(policy, e, a), []);
    } else {
      RunThen(policy, Apply(policy, e, run[0]), run[1..], a);
      assert (run + [a])[1..] == run[1..] + [a];
    }
  }

  lemma Extend(policy: Policy, e: Entry, a: Action) returns (r: Entry)
    requires Reachable(policy, e) && Enabled(e, a)
    ensures r == Apply(policy, e, a) && Reachable(policy, r)
  {
    var e0, run :| Initial(e0) && CanRun(policy, e0, run) && e == Run(policy, e0, run);
    RunThen(policy, e0, run, a);
    r := Apply(policy, e, a);
  }

  // ---------------------------------------------------------------- the generation fence

  /** Everything but the thread pool and the channels: info, intent, generation, locks and history. */
  function Core(e: Entry): Entry {
    e.(threads := [], closes := multiset{})
  }

  /** Only thread `t` and the channels may have changed: in particular no timer was added. */
  predicate Untouched(e: Entry, t: nat, r: Entry) {
    && Core(r) == Core(e) && |r.threads| == |e.threads|
    && (forall i :: 0 <= i < |e.threads| && i != t ==> r.threads[i] == e.threads[i])
  }

  predicate Stale(e: Entry, t: nat) {
    t < |e.threads| && Gen(e.threads[t]) < e.generation
  }

  predicate Acquires(a: Action) {
    a.TimeoutFires? || a.RetryMountFires? || a.RetryUnmountFires?
  }

  lemma StaleOwner(policy: Policy, e: Entry, a: Action)
    requires Enabled(e, a) && Acquires(a) && Stale(e, a.t)
    ensures Untouched(e, a.t, ThreadStep(policy, e, a))
  {
    assert ThreadStep(policy, e, a) == Become(e, a.t, Done);
  }

  lemma StaleCrash(policy: Policy, e: Entry, t: nat, cleaned: bool)
    requires Enabled(e, CrashHandled(t, cleaned)) && Stale(e, t)
    ensures Untouched(e, t, ThreadStep(policy, e, CrashHandled(t, cleaned)))
  {
    var e1 := Become(e, t, Done);
    assert RecordMountFailure(policy, e1, e.threads[t].gen, e.threads[t].code) == e1;
    assert RecordTerminalMountFailure(e1, e.threads[t].gen) == e1;
  }

  lemma StaleExit(policy: Policy, e: Entry, t: nat, exit: Exit)
    requires Enabled(e, ProcessExits(t, exit)) && Stale(e, t)
    ensures Untouched(e, t, ThreadStep(policy, e, ProcessExits(t, exit)))
  {
  }

  lemma StaleWatch(policy: Policy, e: Entry, a: Action)
    requires Enabled(e, a) && (a.MountObserved? || a.WatchStops? || a.DeadlinePasses?) && Stale(e, a.t)
    ensures Untouched(e, a.t, ThreadStep(policy, e, a))
  {
  }

  lemma StaleStep(policy: Policy, e: Entry, a: Action)
    requires Enabled(e, a) && a.ByThread() && Stale(e, a.t)
    ensures Untouched(e, a.t, Apply(policy, e, a))
  {
    if Acquires(a) {
      StaleOwner(policy, e, a);
    } else if a.CrashHandled? {
      StaleCrash(policy, e, a.t, a.cleaned);
    } else if a.ProcessExits? {
      StaleExit(policy, e, a.t, a.exit);
    } else {
      StaleWatch(policy, e, a);
    }
  }

  lemma StaysStaleStep(policy: Policy, e: Entry, t: nat, a: Action)
    requires Inv(policy, e) && Enabled(e, a) && Stale(e, t)
    ensures Stale(Apply(policy, e, a), t)
  {
  }

  /**
   * A goroutine or timer whose generation is no longer current never again changes the entry's
   * info, intent, generation or pending writes, nor adds a timer, at whatever later moment of the run it acts.
   */
  lemma {:induction false} FencedForever(policy: Policy, e: Entry, run: seq<Action>, a: Action)
    requires Inv(policy, e) && CanRun(policy, e, run) && a.ByThread() && Stale(e, a.t)
    requires Enabled(Run(policy, e, run), a)
    ensures Stale(Run(policy, e, run), a.t)
    ensures Untouched(Run(policy, e, run), a.t, Apply(policy, Run(policy, e, run), a))
    decreases |run|
  {
    if run == [] {
      StaleStep(policy, e, a);
    } else {
      StaysStaleStep(policy, e, a.t, run[0]);
      InvStep(policy, e, run[0]);
      FencedForever(policy, Apply(policy, e, run[0]), run[1..], a);
    }
  }

  /** Two retries scheduled for one generation start one successor: parents and children never repeat. */
  lemma OneSuccessorPerGeneration(policy: Policy, e: Entry)
    requires Reachable(policy, e)
    ensures forall i, j :: 0 <= i < j < |e.attempts| ==> e.attempts[i].parent < e.attempts[j].parent
    ensures forall i :: 0 <= i < |e.attempts| ==> e.attempts[i].parent < e.attempts[i].gen
    ensures forall i, j :: 0 <= i < j < |e.children| ==> e.children[i] < e.children[j]
    ensures forall i :: 0 <= i < |e.children| ==> e.children[i] <= |e.attempts|
  {
    ReachableInv(policy, e);
  }

  // ---------------------------------------------------------------- unmount supersedes forever

  lemma SupersededStep(policy: Policy, e: Entry, a: Action)
    requires Inv(policy, e) && Enabled(e, a) && e.superseded
    ensures var e' := Apply(policy, e, a);
      e'.superseded && e'.attempts == e.attempts && e'.children == e.children && (e.accepted ==> e'.accepted)
  {
  }

  /**
   * Once an Unmount request has bumped the generation -- even one whose tombstone write then fails --
   * no later step begins a mount attempt or starts a child.
   */
  lemma {:induction false} SupersededStartsNothing(policy: Policy, e: Entry, run: seq<Action>)
    requires Inv(policy, e) && CanRun(policy, e, run) && e.superseded
    ensures var e' := Run(policy, e, run);
      e'.superseded && e'.attempts == e.attempts && e'.children == e.children && (e.accepted ==> e'.accepted)
    decreases |run|
  {
    if run != [] {
      SupersededStep(policy, e, run[0]);
      InvStep(policy, e, run[0]);
      SupersededStartsNothing(policy, Apply(policy, e, run[0]), run[1..]);
    }
  }

  /** After a successful tombstone write the entry only ever unmounts. */
  lemma AcceptedForever(policy: Policy, e: Entry, run: seq<Action>)
    requires Reachable(policy, e) && e.accepted && CanRun(policy, e, run)
    ensures var e' := Run(policy, e, run);
      && e'.unmounting && e'.info.state in UNMOUNT_STATES
      && e'.attempts == e.attempts && e'.children == e.children
  {
    ReachableInv(policy, e);
    InvRun(policy, e, run);
    SupersededStartsNothing(policy, e, run);
  }

  // ---------------------------------------------------------------- exitDone

  /** No channel is closed twice, and when the operation lock is free each one is closed or will be. */
  lemma ExitDoneClosedOnce(policy: Policy, e: Entry)
    requires Reachable(policy, e)
    ensures forall c :: e.closes[c] <= 1
    ensures e.operation.Free? ==> forall c: nat :: c <= e.exitDone ==> e.closes[c] == 1 || Supervised(e, c)
  {
    ReachableInv(policy, e);
  }

  lemma ExitCloses(policy: Policy, e: Entry, chan: nat, exit: Exit) returns (t: nat)
    requires Supervised(e, chan)
    ensures Enabled(e, ProcessExits(t, exit))
    ensures Apply(policy, e, ProcessExits(t, exit)).closes == e.closes + multiset{chan}
    ensures Apply(policy, e, ProcessExits(t, exit)).operation == e.operation
  {
    t :| 0 <= t < |e.threads| && e.threads[t].Process? && e.threads[t].chan == chan;
  }

  function Finish(e: Entry): Action {
    if e.operation.AwaitingExit? then ExitSeen else ShutdownEnds
  }

  /** The waiting owner can go on, or some child's exit lets it go on. */
  ghost predicate Served(policy: Policy, e: Entry, exit: Exit) {
    || Enabled(e, Finish(e))
    || exists t :: Enabled(e, ProcessExits(t, exit))
                   && Enabled(Apply(policy, e, ProcessExits(t, exit)), Finish(e))
  }

  lemma SupervisedIsServed(policy: Policy, e: Entry, exit: Exit)
    requires e.operation.AwaitingExit? || e.operation.AwaitingStop?
    requires e.closes[e.operation.chan] > 0 || Supervised(e, e.operation.chan)
    ensures Served(policy, e, exit)
  {
    if e.closes[e.operation.chan] == 0 {
      var t := ExitCloses(policy, e, e.operation.chan, exit);
    }
  }

  /** Unmount and shutdown never wait on a channel nobody owns. */
  lemma WaiterIsServed(policy: Policy, e: Entry, exit: Exit)
    requires Reachable(policy, e) && (e.operation.AwaitingExit? || e.operation.AwaitingStop?)
    ensures Served(policy, e, exit)
  {
    ReachableInv(policy, e);
    SupervisedIsServed(policy, e, exit);
  }

  // ---------------------------------------------------------------- bounded retries

  lemma {:induction false} RestoredKept(policy: Policy, e: Entry, run: seq<Action>)
    requires CanRun(policy, e, run)
    ensures Run(policy, e, run).restored == e.restored
    decreases |run|
  {
    if run != [] {
      RestoredKept(policy, Apply(policy, e, run[0]), run[1..]);
    }
  }

  function Max(a: int, b: int): int {
    if a > b then a else b
  }

  /** With the maximum as configured, or five: attempts, children and pending retries never exceed the budget. */
  lemma RetriesBounded(policy: Policy, e0: Entry, run: seq<Action>)
    requires Initial(e0) && CanRun(policy, e0, run)
    ensures var e := Run(policy, e0, run);
      var max := if policy.configuredAttempts > 0 then policy.configuredAttempts else 5;
      && e.info.attempt <= Max(max, e0.info.attempt)
      && |e.children| <= |e.attempts| <= Max(1, max + 1 - e0.info.attempt)
      && (forall i :: 0 <= i < |e.threads| && CurrentTimer(e, i) ==> e.info.attempt < max)
  {
    InitialInv(policy, e0);
    InvRun(policy, e0, run);
    RestoredKept(policy, e0, run);
  }

  /** An entry created by Mount starts at most as many children in its life as attempts are configured, or five. */
  lemma MountChildrenBounded(policy: Policy, id: string, config: MountConfig, run: seq<Action>)
    requires CanRun(policy, NewMount(id, config), run)
    ensures |Run(policy, NewMount(id, config), run).children|
            <= if policy.configuredAttempts > 0 then policy.configuredAttempts else 5
  {
    RetriesBounded(policy, NewMount(id, config), run);
  }

  // ---------------------------------------------------------------- who is waiting for a retry

  /** RETRY_WAIT has a live timer exactly when the last generation bump was not a rejected Unmount. */
  lemma RetryWaitScheduledIff(policy: Policy, e: Entry)
    requires Reachable(policy, e) && e.info.state == RetryWait
    ensures Scheduled(e) <==> !e.rejected
  {
    ReachableInv(policy, e);
  }

  predicate Request(a: Action) {
    a.UnmountRequested? || a.ShutdownRequested?
  }

  lemma RejectedStep(policy: Policy, e: Entry, a: Action)
    requires Inv(policy, e) && e.rejected && e.operation.Free? && Enabled(e, a) && !Request(a)
    ensures var e' := Apply(policy, e, a);
      e'.rejected && e'.operation.Free? && e'.info == e.info && e'.generation == e.generation
  {
    if a.ByThread() {
      StaleStep(policy, e, a);
    }
  }

  /** After a rejected Unmount nothing moves the entry until the next Unmount request or shutdown. */
  lemma {:induction false} RejectedIsStranded(policy: Policy, e: Entry, run: seq<Action>)
    requires Inv(policy, e) && e.rejected && e.operation.Free?
    requires CanRun(policy, e, run) && forall i :: 0 <= i < |run| ==> !Request(run[i])
    ensures Run(policy, e, run).info == e.info && Run(policy, e, run).generation == e.generation
    decreases |run|
  {
    if run != [] {
      RejectedStep(policy, e, run[0]);
      InvStep(policy, e, run[0]);
      RejectedIsStranded(policy, Apply(policy, e, run[0]), run[1..]);
    }
  }

  lemma FailedStartExists(policy: Policy, id: string, config: MountConfig) returns (e: Entry)
    ensures Reachable(policy, e) && e.registered && e.operation == StartFailed(1) && e.generation == 1
    ensures e.info.attempt == 1 && !e.info.everMounted && !e.unmounting
  {
    e := NewMount(id, config);
    InitialReachable(policy, e);
    e := Extend(policy, e, CreateReturns(true));
    assert e == AfterCreate(NewMount(id, config), true);
    e := Extend(policy, e, StartFails);
  }

  lemma RetryWaitExists(id: string, config: MountConfig) returns (policy: Policy, e: Entry)
    ensures Reachable(policy, e) && e.registered && e.operation.Free? && e.info.state == RetryWait && !e.unmounting
  {
    policy := Policy(0, true);
    var f := FailedStartExists(policy, id, config);
    assert Apply(policy, f, RecordStartFailure) == WaitToRetry(Release(f), RetryMountTimer(1));
    e := Extend(policy, f, RecordStartFailure);
  }

  /** The concrete failure: a retry waits, an Unmount is rejected, and no timer is left. */
  lemma StrandedRetryExists(id: string, config: MountConfig) returns (policy: Policy, e: Entry)
    ensures Reachable(policy, e) && e.registered && e.operation.Free?
    ensures e.info.state == RetryWait && !e.unmounting && !Scheduled(e)
  {
    policy, e := RetryWaitExists(id, config);
    e := Extend(policy, e, UnmountRequested);
    e := Extend(policy, e, TombstoneReturns(false));
    RetryWaitScheduledIff(policy, e);
  }
}
