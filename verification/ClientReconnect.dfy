/** That the client reconnects: what its loop and its callers restore, exactly when, and how often a request runs. */
module ClientReconnect {
  import opened Options
  import opened Client
  import opened ClientTheorems

  // ---------------------------------------------------------------- a thread on its own

  /** Only thread `t` takes steps. */
  ghost predicate Alone(run: seq<Event>, t: nat) {
    forall i :: 0 <= i < |run| ==> run[i].Take? && run[i].t == t
  }

  /** Where a run is to end: thread `t` has returned, these are the connection, the closed ones and the flag. */
  datatype Goal = Goal(installed: Option<nat>, closes: multiset<nat>, flag: bool, runs: nat)

  predicate Meets(s: State, t: nat, goal: Goal) {
    && t < |s.threads| && t < |s.runs| && s.threads[t].Done? && s.runs[t] == goal.runs
    && s.shared.installed == goal.installed && s.shared.closes == goal.closes && s.shared.flag == goal.flag
  }

  /** Some run of thread `t` alone gets there. */
  ghost predicate CanMeet(s: State, t: nat, goal: Goal) {
    exists run :: Alone(run, t) && CanRun(s, run) && Meets(Run(s, run), t, goal)
  }

  lemma MetNow(s: State, t: nat, goal: Goal)
    requires Meets(s, t, goal)
    ensures CanMeet(s, t, goal)
  {
    assert Alone([], t) && CanRun(s, []) && Run(s, []) == s;
  }

  lemma MetLater(s: State, t: nat, ok: bool, goal: Goal)
    requires CanHappen(s, Take(t, ok)) && CanMeet(Next(s, Take(t, ok)), t, goal)
    ensures CanMeet(s, t, goal)
  {
    var s1 := Next(s, Take(t, ok));
    var rest :| Alone(rest, t) && CanRun(s1, rest) && Meets(Run(s1, rest), t, goal);
    var run := [Take(t, ok)] + rest;
    assert run[0] == Take(t, ok) && run[1..] == rest;
    assert Alone(run, t);
    assert CanRun(s, run);
  }

  // ---------------------------------------------------------------- the background loop

  /** The loop still looks for a connection. */
  predicate Searching(thread: Thread) {
    || thread.LoopTop? || thread.LoopDial? || thread.LoopWait? || thread.LoopInstall? || thread.LoopPause?
    || (thread.LoopDiscard? && !thread.leaving)
  }

  /** The connection at hand, or the next one to be created. */
  function Candidate(s: Shared, thread: Thread): nat {
    if thread.LoopWait? || thread.LoopInstall? || thread.CallWait? || thread.CallInstall?
    then thread.conn else s.created
  }

  /** The loop's context lives, and the client is connected. */
  predicate CanGoOn(s: State, t: nat) {
    && |s.runs| == |s.threads| && t < |s.threads| && s.threads[t].Loops() && s.threads[t].seqno !in s.shared.cancelled
    && s.shared.connected && s.shared.installed.Some? && !s.shared.locked
  }

  /** What the loop is to bring about: the old connection, and one that was not ready, are closed. */
  function LoopGoal(s: State, t: nat): Goal
    requires t < |s.threads| && t < |s.runs| && s.threads[t].Loops() && s.shared.installed.Some?
  {
    var c := s.shared;
    var thread := s.threads[t];
    var unready := if thread.LoopDiscard? then multiset{thread.conn} else multiset{};
    Goal(Some(Candidate(c, thread)), c.closes + unready + multiset{c.installed.value},
         c.flag && c.sequence != thread.seqno, s.runs[t])
  }

  /** The deferred function: the flag goes down exactly if the sequence is still the loop's own. */
  lemma LoopLeaves(s: State, t: nat)
    requires |s.runs| == |s.threads| && t < |s.threads| && s.threads[t].LoopExit? && !s.shared.locked
    ensures CanMeet(s, t, Goal(s.shared.installed, s.shared.closes, s.shared.flag && s.shared.sequence
                               != s.threads[t].seqno, s.runs[t]))
  {
    var goal := Goal(s.shared.installed, s.shared.closes,
                     s.shared.flag && s.shared.sequence != s.threads[t].seqno, s.runs[t]);
    var s1 := Next(s, Take(t, true));
    var s2 := Next(s1, Take(t, true));
    if s.shared.sequence == s.threads[t].seqno {
      var s3 := Next(s2, Take(t, true));
      MetNow(s3, t, goal);
      MetLater(s2, t, true, goal);
    } else {
      MetNow(s2, t, goal);
    }
    MetLater(s1, t, true, goal);
    MetLater(s, t, true, goal);
  }

  lemma LoopInstalls(s: State, t: nat)
    requires CanGoOn(s, t) && s.threads[t].LoopInstall?
    ensures CanMeet(s, t, LoopGoal(s, t))
  {
    var s1 := Next(s, Take(t, true));
    var s2 := Next(s1, Take(t, true));
    LoopLeaves(s2, t);
    MetLater(s1, t, true, LoopGoal(s, t));
    MetLater(s, t, true, LoopGoal(s, t));
  }

  /** How far the loop is from installing a connection. */
  function Distance(thread: Thread): nat {
    if thread.LoopDiscard? then 5 else if thread.LoopPause? then 4 else if thread.LoopTop? then 3
    else if thread.LoopDial? then 2 else if thread.LoopWait? then 1 else 0
  }

  lemma SearchStep(s: State, t: nat)
    requires CanGoOn(s, t) && Searching(s.threads[t]) && !s.threads[t].LoopInstall?
    ensures var s1 := Next(s, Take(t, true));
      && CanGoOn(s1, t) && Searching(s1.threads[t]) && Distance(s1.threads[t]) < Distance(s.threads[t])
      && LoopGoal(s1, t) == LoopGoal(s, t)
  {
    var s1 := Next(s, Take(t, true));
    assert s1.threads[t] == LoopStep(s.shared, s.threads[t], true).next;
  }

  lemma {:induction false} LoopRestores(s: State, t: nat)
    requires CanGoOn(s, t) && Searching(s.threads[t])
    ensures CanMeet(s, t, LoopGoal(s, t))
    decreases Distance(s.threads[t])
  {
    if s.threads[t].LoopInstall? {
      LoopInstalls(s, t);
    } else {
      SearchStep(s, t);
      LoopRestores(Next(s, Take(t, true)), t);
      MetLater(s, t, true, LoopGoal(s, t));
    }
  }

  /** A connection in a thread's hands, or still to be created, is neither installed nor closed. */
  lemma CandidateIsNew(s: State, t: nat)
    requires Reachable(s) && t < |s.threads|
    ensures var n := Candidate(s.shared, s.threads[t]);
      s.shared.installed != Some(n) && s.shared.closes[n] == 0
  {
    var n := Candidate(s.shared, s.threads[t]);
    EachConnectionOnce(s, n);
    if n != s.shared.created {
      assert HeldBy(s, t, n);
    }
  }

  /** Connection `n`, new to the client, has replaced the installed one, which is closed; thread `t` has returned. */
  predicate Reconnected(s: State, t: nat, n: nat, s': State) {
    && s.shared.installed != Some(n) && s.shared.closes[n] == 0
    && s'.shared.installed == Some(n)
    && s.shared.installed.Some? && s'.shared.closes[s.shared.installed.value] == 1
    && t < |s'.threads| && s'.threads[t].Done?
  }

  /** Some run of thread `t` alone reconnects, and leaves the flag as told. */
  ghost predicate CanReconnect(s: State, t: nat, flag: bool) {
    exists n, run :: Alone(run, t) && CanRun(s, run) && Reconnected(s, t, n, Run(s, run))
                     && Run(s, run).shared.flag == flag
  }

  lemma UnlockedReconnects(s: State, t: nat)
    requires Reachable(s) && s.shared.connected && !s.shared.locked
    requires t < |s.threads| && Searching(s.threads[t]) && s.threads[t].seqno !in s.shared.cancelled
    ensures CanReconnect(s, t, s.shared.flag && s.shared.sequence != s.threads[t].seqno)
  {
    ReachableInv(s);
    var n := Candidate(s.shared, s.threads[t]);
    CandidateIsNew(s, t);
    LoopRestores(s, t);
    var goal := LoopGoal(s, t);
    var run :| Alone(run, t) && CanRun(s, run) && Meets(Run(s, run), t, goal);
    ClosedOnce(s, t);
    assert Reconnected(s, t, n, Run(s, run));
  }

  /** The installed connection is open, and no other thread's. */
  lemma ClosedOnce(s: State, t: nat)
    requires Reachable(s) && t < |s.threads| && s.shared.installed.Some?
    ensures s.shared.closes[s.shared.installed.value] == 0
    ensures HasConn(s.threads[t]) ==> s.threads[t].conn != s.shared.installed.value
  {
    EachConnectionOnce(s, s.shared.installed.value);
    assert HasConn(s.threads[t]) ==> HeldBy(s, t, s.threads[t].conn);
  }

  // ---------------------------------------------------------------- waiting for the lock

  /** Nobody holds bgCancelMu any more, and for thread `t` nothing else has changed but perhaps a cleared flag. */
  ghost predicate LockFreed(s: State, t: nat, s': State) {
    && Reachable(s') && !s'.shared.locked && t < |s.threads| == |s'.threads| && s'.threads[t] == s.threads[t]
    && s'.shared.(flag := s.shared.flag, bgCancel := s.shared.bgCancel, locked := s.shared.locked) == s.shared
    && (s'.shared.flag ==> s.shared.flag)
  }

  lemma TakeFirst(s: State, t: nat, ok: bool, rest: seq<Event>)
    requires CanHappen(s, Take(t, ok)) && Alone(rest, t) && CanRun(Next(s, Take(t, ok)), rest)
    ensures Alone([Take(t, ok)] + rest, t) && CanRun(s, [Take(t, ok)] + rest)
    ensures Run(s, [Take(t, ok)] + rest) == Run(Next(s, Take(t, ok)), rest)
  {
    var run := [Take(t, ok)] + rest;
    assert run[0] == Take(t, ok) && run[1..] == rest;
  }

  lemma StoreReturns(s: State, t: nat, u: nat) returns (first: seq<Event>)
    requires Reachable(s) && t < |s.threads| && u < |s.threads| && !Holder(s.threads[t]) && s.threads[u].LoopStore?
    ensures Alone(first, u) && CanRun(s, first) && LockFreed(s, t, Run(s, first))
  {
    ReachableInv(s);
    var s1 := Extend(s, Take(u, true));
    assert s1.shared == s.shared.(flag := false, bgCancel := None, locked := false);
    assert CanRun(s1, []) && Run(s1, []) == s1;
    TakeFirst(s, u, true, []);
    first := [Take(u, true)] + [];
  }

  lemma CompareReturns(s: State, t: nat, u: nat) returns (first: seq<Event>)
    requires Reachable(s) && t < |s.threads| && u < |s.threads| && !Holder(s.threads[t]) && s.threads[u].LoopCompare?
    ensures Alone(first, u) && CanRun(s, first) && LockFreed(s, t, Run(s, first))
  {
    ReachableInv(s);
    var s1 := Extend(s, Take(u, true));
    if s.shared.sequence == s.threads[u].seqno {
      assert s1.shared == s.shared && s1.threads[t] == s.threads[t];
      var rest := StoreReturns(s1, t, u);
      TakeFirst(s, u, true, rest);
      first := [Take(u, true)] + rest;
    } else {
      assert s1.shared == s.shared.(locked := false);
      assert CanRun(s1, []) && Run(s1, []) == s1;
      TakeFirst(s, u, true, []);
      first := [Take(u, true)] + [];
    }
  }

  /** The holder of the lock, if any, can return by itself. */
  lemma HolderReturns(s: State, t: nat) returns (u: nat, first: seq<Event>)
    requires Reachable(s) && t < |s.threads| && !Holder(s.threads[t])
    ensures Alone(first, u) && CanRun(s, first) && LockFreed(s, t, Run(s, first))
  {
    ReachableInv(s);
    if s.shared.locked {
      u :| 0 <= u < |s.threads| && Holder(s.threads[u]);
      if s.threads[u].LoopStore? {
        first := StoreReturns(s, t, u);
      } else {
        first := CompareReturns(s, t, u);
      }
    } else {
      u, first := 0, [];
    }
  }

  /**
   * From every reachable state in which the client is connected, a background loop whose context lives and which is
   * still searching reconnects on its own, once whoever holds the lock has released it: it installs a connection
   * that was never installed or closed before, closes the old one and returns, with the flag down unless a newer
   * sequence has begun.
   */
  lemma LoopReconnects(s: State, t: nat)
    requires Reachable(s) && s.shared.connected
    requires t < |s.threads| && Searching(s.threads[t]) && s.threads[t].seqno !in s.shared.cancelled
    ensures exists u, first :: Alone(first, u) && CanRun(s, first) && LockFreed(s, t, Run(s, first))
              && CanReconnect(Run(s, first), t,
                              Run(s, first).shared.flag && s.shared.sequence != s.threads[t].seqno)
  {
    var u, first := HolderReturns(s, t);
    UnlockedReconnects(Run(s, first), t);
  }

  /** A ready connection is installed exactly if the client is connected and the loop's context lives. */
  lemma LoopInstallsIff(s: State, t: nat, ok: bool)
    requires Reachable(s) && CanHappen(s, Take(t, ok)) && s.threads[t].LoopInstall?
    ensures var LoopInstall(seqno, conn) := s.threads[t];
      var c := Next(s, Take(t, ok)).shared;
      && (c.installed == Some(conn) <==> s.shared.connected && seqno !in s.shared.cancelled && ok)
      && (c.installed != Some(conn) ==>
            c == s.shared && Next(s, Take(t, ok)).threads[t] == LoopDiscard(seqno, conn, true))
  {
    CandidateIsNew(s, t);
  }

  // ---------------------------------------------------------------- a cancelled loop

  predicate Called(s: State, t: nat) {
    t < |s.threads| && (s.threads[t].Done? || (s.threads[t].Loops() && s.threads[t].seqno in s.shared.cancelled))
  }

  lemma StaysCalled(s: State, t: nat, event: Event)
    requires Called(s, t) && CanHappen(s, event)
    ensures Called(Next(s, event), t)
    ensures event.Take? && event.t == t ==> Next(s, event).shared.installed == s.shared.installed
  {
    if event.Take? {
      CancelledGrows(s.shared, s.threads[event.t], event.ok);
      if event.t == t {
        LoopStays(s.shared, s.threads[t], event.ok);
      }
    }
  }

  lemma CancelledGrows(s: Shared, thread: Thread, ok: bool)
    requires !thread.Done?
    ensures s.cancelled <= StepOf(s, thread, ok).shared.cancelled
  {
  }

  lemma LoopStays(s: Shared, thread: Thread, ok: bool)
    requires thread.Loops() && thread.seqno in s.cancelled
    ensures var m := StepOf(s, thread, ok);
      && (m.next.Done? || (m.next.Loops() && m.next.seqno == thread.seqno)) && m.shared.installed == s.installed
  {
  }

  /** A loop whose context was cancelled never installs a connection, at whatever later moment it acts. */
  lemma {:induction false} CancelledNeverInstalls(s: State, run: seq<Event>, t: nat, ok: bool)
    requires Called(s, t) && CanRun(s, run) && CanHappen(Run(s, run), Take(t, ok))
    ensures Next(Run(s, run), Take(t, ok)).shared.installed == Run(s, run).shared.installed
    decreases |run|
  {
    if run == [] {
      StaysCalled(s, t, Take(t, ok));
    } else {
      StaysCalled(s, t, run[0]);
      CancelledNeverInstalls(Next(s, run[0]), run[1..], t, ok);
    }
  }

  // ---------------------------------------------------------------- a caller

  /** How often a thread has run its request is told by where it is, until it returns. */
  ghost predicate Counted(s: State) {
    && |s.runs| == |s.threads|
    && (forall t :: 0 <= t < |s.threads| && !s.threads[t].Done? ==> s.runs[t] == Runs(s.threads[t]))
  }

  lemma StepCounts(s: Shared, thread: Thread, ok: bool)
    requires !thread.Done?
    ensures var m := StepOf(s, thread, ok); !m.next.Done? ==> Ran(thread, m.next) + Runs(thread) == Runs(m.next)
    ensures var m := StepOf(s, thread, ok); m.spawn.Some? ==> Runs(m.spawn.value) == 0
  {
  }

  lemma CountedStep(s: State, event: Event)
    requires Counted(s) && CanHappen(s, event)
    ensures Counted(Next(s, event))
  {
    if event.Take? {
      StepCounts(s.shared, s.threads[event.t], event.ok);
    }
  }

  lemma {:induction false} CountedRun(s: State, run: seq<Event>)
    requires Counted(s) && CanRun(s, run)
    ensures Counted(Run(s, run))
    decreases |run|
  {
    if run != [] {
      CountedStep(s, run[0]);
      CountedRun(Next(s, run[0]), run[1..]);
    }
  }

  lemma ReachableCounted(s: State)
    requires Reachable(s)
    ensures Counted(s)
  {
    var run :| CanRun(INITIAL, run) && s == Run(INITIAL, run);
    CountedRun(INITIAL, run);
  }

  /** The caller reconnects immediately, or may still come to: the flag is its own, or free to be claimed. */
  predicate Reconnecting(s: Shared, thread: Thread) {
    || thread.CallDial? || thread.CallWait? || thread.CallInstall?
    || ((thread.CallEnter? || thread.CallRequest? || thread.CallCheck? || thread.CallClaim?) && !s.flag)
  }

  predicate CanCall(s: State, t: nat) {
    && |s.runs| == |s.threads| && t < |s.threads| && Reconnecting(s.shared, s.threads[t])
    && s.runs[t] == Runs(s.threads[t])
    && s.shared.connected && s.shared.installed.Some?
  }

  function CallGoal(s: State, t: nat): Goal
    requires t < |s.threads| && s.shared.installed.Some?
  {
    Goal(Some(Candidate(s.shared, s.threads[t])), s.shared.closes + multiset{s.shared.installed.value}, false, 2)
  }

  function ToInstall(thread: Thread): nat {
    if thread.CallEnter? then 6 else if thread.CallRequest? then 5 else if thread.CallCheck? then 4
    else if thread.CallClaim? then 3 else if thread.CallDial? then 2 else if thread.CallWait? then 1 else 0
  }

  /** The request fails, everything after it succeeds. */
  lemma CallAdvances(s: State, t: nat)
    requires CanCall(s, t) && !s.threads[t].CallInstall?
    ensures var s1 := Next(s, Take(t, !s.threads[t].CallRequest?));
      CanCall(s1, t) && ToInstall(s1.threads[t]) < ToInstall(s.threads[t]) && CallGoal(s1, t) == CallGoal(s, t)
  {
    var s1 := Next(s, Take(t, !s.threads[t].CallRequest?));
    assert s1.threads[t] == CallStep(s.shared, s.threads[t], !s.threads[t].CallRequest?).next;
  }

  lemma CallInstalls(s: State, t: nat)
    requires CanCall(s, t) && s.threads[t].CallInstall?
    ensures CanMeet(s, t, CallGoal(s, t))
  {
    var goal := CallGoal(s, t);
    var s1 := Next(s, Take(t, true));
    var s2 := Next(s1, Take(t, true));
    var s3 := Next(s2, Take(t, true));
    var s4 := Next(s3, Take(t, true));
    MetNow(s4, t, goal);
    MetLater(s3, t, true, goal);
    MetLater(s2, t, true, goal);
    MetLater(s1, t, true, goal);
    MetLater(s, t, true, goal);
  }

  lemma {:induction false} CallRestores(s: State, t: nat)
    requires CanCall(s, t)
    ensures CanMeet(s, t, CallGoal(s, t))
    decreases ToInstall(s.threads[t])
  {
    if s.threads[t].CallInstall? {
      CallInstalls(s, t);
    } else {
      var ok := !s.threads[t].CallRequest?;
      CallAdvances(s, t);
      CallRestores(Next(s, Take(t, ok)), t);
      MetLater(s, t, ok, CallGoal(s, t));
    }
  }

  /**
   * From every reachable state in which the client is connected, a caller that reconnects, or may still claim the
   * flag, can do so by itself: it installs a new connection, closes the old one, lowers the flag, and has run its
   * request a second time when it returns.
   */
  lemma CallerReconnects(s: State, t: nat)
    requires Reachable(s) && s.shared.connected && t < |s.threads| && Reconnecting(s.shared, s.threads[t])
    ensures exists n, run :: Alone(run, t) && CanRun(s, run) && Reconnected(s, t, n, Run(s, run))
              && !Run(s, run).shared.flag && t < |Run(s, run).runs| && Run(s, run).runs[t] == 2
  {
    ReachableInv(s);
    ReachableCounted(s);
    var n := Candidate(s.shared, s.threads[t]);
    CandidateIsNew(s, t);
    ClosedOnce(s, t);
    CallRestores(s, t);
    var run :| Alone(run, t) && CanRun(s, run) && Meets(Run(s, run), t, CallGoal(s, t));
    assert Reconnected(s, t, n, Run(s, run));
  }

  // ---------------------------------------------------------------- the second run

  /** The caller has installed its connection. */
  predicate HasReconnected(thread: Thread) {
    thread.CallCloseOld? || thread.CallClear? || thread.CallRetry?
  }

  /** The caller's immediate attempt has failed. */
  predicate HasFailed(thread: Thread) {
    || thread.CallDiscard? || thread.CallDecide? || thread.CallBump? || thread.CallStart? || thread.CallGo?
    || thread.CallGiveUp?
  }

  /** A caller's ready connection is installed exactly if the client is still connected. */
  lemma CallInstallsIff(s: State, t: nat, ok: bool)
    requires Reachable(s) && CanHappen(s, Take(t, ok)) && s.threads[t].CallInstall?
    ensures var conn := s.threads[t].conn;
      var s' := Next(s, Take(t, ok));
      && (s'.shared.installed == Some(conn) <==> s.shared.connected)
      && (if s.shared.connected then HasReconnected(s'.threads[t])
          else s'.shared == s.shared && s'.threads[t] == CallDiscard(conn))
  {
    CandidateIsNew(s, t);
  }

  /** Past the reconnect or past its failure, and the number of runs when the caller returns. */
  predicate Destined(s: State, t: nat, runs: nat) {
    && t < |s.threads| && t < |s.runs|
    && (if s.threads[t].Done? then s.runs[t] == runs
        else s.runs[t] == Runs(s.threads[t]) &&
             if runs == 2 then HasReconnected(s.threads[t]) else HasFailed(s.threads[t]))
  }

  lemma DestinedStep(s: State, t: nat, runs: nat, event: Event)
    requires Destined(s, t, runs) && 1 <= runs <= 2 && CanHappen(s, event)
    ensures Destined(Next(s, event), t, runs)
  {
  }

  /** Whatever else happens, a caller that reconnected runs its request twice, and one that failed to only once. */
  lemma {:induction false} RunsOnReturn(s: State, run: seq<Event>, t: nat)
    requires Reachable(s) && t < |s.threads| && (HasReconnected(s.threads[t]) || HasFailed(s.threads[t]))
    requires CanRun(s, run) && t < |Run(s, run).threads| && t < |Run(s, run).runs| && Run(s, run).threads[t].Done?
    ensures Run(s, run).runs[t] == if HasReconnected(s.threads[t]) then 2 else 1
  {
    ReachableCounted(s);
    DestinedRun(s, run, t, if HasReconnected(s.threads[t]) then 2 else 1);
  }

  lemma {:induction false} DestinedRun(s: State, run: seq<Event>, t: nat, runs: nat)
    requires Destined(s, t, runs) && 1 <= runs <= 2 && CanRun(s, run)
    ensures Destined(Run(s, run), t, runs)
    decreases |run|
  {
    if run != [] {
      DestinedStep(s, t, runs, run[0]);
      DestinedRun(Next(s, run[0]), run[1..], t, runs);
    }
  }

  // ---------------------------------------------------------------- from the caller to the loop

  /** No context of a sequence still to come was cancelled or can be. */
  predicate Numbered(s: State) {
    && NumberedFields(s.shared)
    && (forall t :: 0 <= t < |s.threads| && s.threads[t].CallStart? ==> s.threads[t].seqno <= s.shared.sequence)
  }

  predicate NumberedFields(s: Shared) {
    && (forall c :: c in s.cancelled ==> c <= s.sequence)
    && (s.bgCancel.Some? ==> s.bgCancel.value <= s.sequence)
  }

  predicate NumberedAfter(s: Shared, m: Move) {
    && s.sequence <= m.shared.sequence && NumberedFields(m.shared)
    && (m.next.CallStart? ==> m.next.seqno <= m.shared.sequence) && (m.spawn.Some? ==> !m.spawn.value.CallStart?)
  }

  lemma CallNumbered(s: Shared, thread: Thread, ok: bool)
    requires thread.Calls() && NumberedFields(s) && (thread.CallStart? ==> thread.seqno <= s.sequence)
    ensures NumberedAfter(s, CallStep(s, thread, ok))
  {
  }

  lemma LoopNumbered(s: Shared, thread: Thread, ok: bool)
    requires thread.Loops() && NumberedFields(s)
    ensures NumberedAfter(s, LoopStep(s, thread, ok))
  {
  }

  lemma LinkNumbered(s: Shared, thread: Thread, ok: bool)
    requires !thread.Calls() && !thread.Loops() && !thread.Done? && NumberedFields(s)
    ensures NumberedAfter(s, LinkStep(s, thread, ok))
  {
  }

  lemma NumberedMove(s: Shared, thread: Thread, ok: bool)
    requires !thread.Done? && NumberedFields(s) && (thread.CallStart? ==> thread.seqno <= s.sequence)
    ensures NumberedAfter(s, StepOf(s, thread, ok))
  {
    if thread.Calls() {
      CallNumbered(s, thread, ok);
    } else if thread.Loops() {
      LoopNumbered(s, thread, ok);
    } else {
      LinkNumbered(s, thread, ok);
    }
  }

  lemma {:induction false} NumberedRun(s: State, run: seq<Event>)
    requires Numbered(s) && CanRun(s, run)
    ensures Numbered(Run(s, run))
    decreases |run|
  {
    if run != [] {
      if run[0].Take? {
        NumberedMove(s.shared, s.threads[run[0].t], run[0].ok);
      }
      NumberedRun(Next(s, run[0]), run[1..]);
    }
  }

  /** The caller has left a background loop behind, with the newest sequence and a living context. */
  ghost predicate HandedOver(s: State, t: nat, s': State) {
    && t < |s'.threads| == |s.threads| + 1 && s'.threads[t].Done? && Reachable(s')
    && s'.threads[|s.threads|] == LoopTop(s'.shared.sequence) && s'.shared.sequence !in s'.shared.cancelled
    && s'.shared.bgCancel == Some(s'.shared.sequence)
    && s'.shared.connected && s'.shared.installed == s.shared.installed && s'.shared.flag == s.shared.flag
  }

  lemma CallHandsOver(s: State, t: nat) returns (run: seq<Event>)
    requires Reachable(s) && t < |s.threads| && s.threads[t].CallDecide? && s.shared.connected && !s.shared.locked
    ensures Alone(run, t) && CanRun(s, run) && HandedOver(s, t, Run(s, run)) && !Run(s, run).shared.locked
  {
    ReachableInv(s);
    var from :| CanRun(INITIAL, from) && s == Run(INITIAL, from);
    NumberedRun(INITIAL, from);
    var s1 := Extend(s, Take(t, true));
    run := BumpHandsOver(s1, t);
    TakeFirst(s, t, true, run);
    run := [Take(t, true)] + run;
  }

  lemma BumpHandsOver(s: State, t: nat) returns (run: seq<Event>)
    requires Reachable(s) && |s.runs| == |s.threads| && Numbered(s) && t < |s.threads| && s.threads[t].CallBump?
    requires s.shared.connected && !s.shared.locked
    ensures Alone(run, t) && CanRun(s, run) && HandedOver(s, t, Run(s, run)) && !Run(s, run).shared.locked
  {
    var s1 := Extend(s, Take(t, true));
    var s2 := Extend(s1, Take(t, true));
    var s3 := Extend(s2, Take(t, true));
    assert s1.shared == s.shared.(sequence := s.shared.sequence + 1);
    assert s2.shared.sequence == s.shared.sequence + 1 && s2.shared.sequence !in s2.shared.cancelled;
    assert s3.shared == s2.shared && s3.threads[|s.threads|] == LoopTop(s2.shared.sequence);
    assert CanRun(s3, []) && Run(s3, []) == s3;
    TakeFirst(s2, t, true, []);
    TakeFirst(s1, t, true, [Take(t, true)] + []);
    TakeFirst(s, t, true, [Take(t, true)] + ([Take(t, true)] + []));
    run := [Take(t, true)] + ([Take(t, true)] + ([Take(t, true)] + []));
  }

  /** Thread `t` alone hands over to a loop, which alone reconnects and takes the flag down. */
  ghost predicate CanMend(s: State, t: nat) {
    exists run :: Alone(run, t) && CanRun(s, run) && HandedOver(s, t, Run(s, run))
                  && CanReconnect(Run(s, run), |s.threads|, false)
  }

  /**
   * A caller whose immediate attempt failed while the client stays connected hands over to a background loop, which
   * can then reconnect on its own, again once whoever holds the lock has released it.
   */
  lemma FailureIsMended(s: State, t: nat)
    requires Reachable(s) && t < |s.threads| && s.threads[t].CallDecide? && s.shared.connected
    ensures exists u, first :: Alone(first, u) && CanRun(s, first) && LockFreed(s, t, Run(s, first))
              && CanMend(Run(s, first), t)
  {
    var u, first := HolderReturns(s, t);
    var s1 := Run(s, first);
    var run := CallHandsOver(s1, t);
    UnlockedReconnects(Run(s1, run), |s1.threads|);
  }
}
