/** Connection conservation and recovery of the reconnecting flag, over every run of the client. */
module ClientTheorems {
  import opened Options
  import opened Client

  // ---------------------------------------------------------------- who holds which connection

  predicate HasConn(thread: Thread) {
    || thread.CallWait? || thread.CallInstall? || thread.CallCloseOld? || thread.CallDiscard?
    || thread.LoopWait? || thread.LoopInstall? || thread.LoopCloseOld? || thread.LoopDiscard?
    || thread.ConnectInstall? || thread.ConnectDiscard? || thread.DiscClose?
  }

  /** Whether the thread holds connection `c`, as a number. */
  function Holds(thread: Thread, c: nat): nat {
    if HasConn(thread) && thread.conn == c then 1 else 0
  }

  /** How many threads hold connection `c`. */
  function Holders(threads: seq<Thread>, c: nat): nat {
    if threads == [] then 0 else Holds(threads[0], c) + Holders(threads[1..], c)
  }

  function Installed(s: Shared, c: nat): nat {
    if s.installed == Some(c) then 1 else 0
  }

  /** In how many places connection `c` is: closed, installed, or in a thread's hands. */
  function Places(s: State, c: nat): nat {
    s.shared.closes[c] + Installed(s.shared, c) + Holders(s.threads, c)
  }

  lemma {:induction false} HoldersUpdate(threads: seq<Thread>, t: nat, next: Thread, c: nat)
    requires t < |threads|
    ensures Holders(threads[t := next], c) + Holds(threads[t], c) == Holders(threads, c) + Holds(next, c)
  {
    if t == 0 {
      assert threads[0 := next][1..] == threads[1..];
    } else {
      HoldersUpdate(threads[1..], t - 1, next, c);
      assert threads[t := next][1..] == threads[1..][t - 1 := next];
    }
  }

  lemma {:induction false} HoldersAppend(threads: seq<Thread>, thread: Thread, c: nat)
    ensures Holders(threads + [thread], c) == Holders(threads, c) + Holds(thread, c)
  {
    if threads == [] {
      assert [thread][1..] == [] && threads + [thread] == [thread];
    } else {
      HoldersAppend(threads[1..], thread, c);
      assert (threads + [thread])[1..] == threads[1..] + [thread];
    }
  }

  /** Each created connection is in exactly one place, and no other is anywhere. */
  ghost predicate Conserved(s: State) {
    forall c: nat :: Places(s, c) == if c < s.shared.created then 1 else 0
  }

  /** What a step may do to connection `c`: pass it on, or create it. */
  predicate Passes(s: Shared, thread: Thread, m: Move, c: nat) {
    && m.shared.closes[c] + Installed(m.shared, c) + Holds(m.next, c)
       == s.closes[c] + Installed(s, c) + Holds(thread, c) + (if s.created <= c < m.shared.created then 1 else 0)
    && s.created <= m.shared.created
    && (m.spawn.Some? ==> !HasConn(m.spawn.value))
  }

  lemma CallPasses(s: Shared, thread: Thread, ok: bool, c: nat)
    requires thread.Calls() && s.connected == s.installed.Some?
    ensures Passes(s, thread, CallStep(s, thread, ok), c)
  {
  }

  lemma LoopPasses(s: Shared, thread: Thread, ok: bool, c: nat)
    requires thread.Loops() && s.connected == s.installed.Some?
    ensures Passes(s, thread, LoopStep(s, thread, ok), c)
  {
  }

  lemma LinkPasses(s: Shared, thread: Thread, ok: bool, c: nat)
    requires !thread.Calls() && !thread.Loops() && !thread.Done? && s.connected == s.installed.Some?
    ensures Passes(s, thread, LinkStep(s, thread, ok), c)
  {
  }

  lemma Conservation(s: State, t: nat, m: Move, c: nat)
    requires t < |s.threads| && t < |s.runs| && Passes(s.shared, s.threads[t], m, c)
    requires Places(s, c) == if c < s.shared.created then 1 else 0
    ensures Places(After(s, t, m), c) == if c < m.shared.created then 1 else 0
  {
    HoldersUpdate(s.threads, t, m.next, c);
    if m.spawn.Some? {
      HoldersAppend(s.threads[t := m.next], m.spawn.value, c);
    }
  }

  // ---------------------------------------------------------------- who will clear the flag

  /** The thread is on its way to clearing the flag. */
  predicate Owner(s: Shared, thread: Thread) {
    || thread.CallDial? || thread.CallWait? || thread.CallInstall? || thread.CallCloseOld? || thread.CallClear?
    || thread.CallDiscard? || thread.CallDecide? || thread.CallBump? || thread.CallGiveUp?
    || thread.LoopStore? || thread.DiscCancel? || thread.DiscClear?
    || ((thread.CallStart? || thread.CallGo? || thread.Loops()) && thread.seqno == s.sequence)
  }

  ghost predicate Owned(s: State) {
    exists t :: 0 <= t < |s.threads| && Owner(s.shared, s.threads[t])
  }

  predicate Holder(thread: Thread) {
    thread.LoopCompare? || thread.LoopStore?
  }

  ghost predicate Locked(s: State) {
    exists t :: 0 <= t < |s.threads| && Holder(s.threads[t])
  }

  /** How often a thread at this point has run its request, at most. */
  function Runs(thread: Thread): nat {
    if thread.CallEnter? || !(thread.Calls() || thread.Done?) then 0
    else if thread.CallRetry? || thread.Done? then 2
    else 1
  }

  ghost predicate Inv(s: State) {
    && |s.runs| == |s.threads|
    && s.shared.connected == s.shared.installed.Some?
    && Conserved(s)
    && (s.shared.flag ==> Owned(s))
    && (s.shared.locked ==> Locked(s))
    && (forall t :: 0 <= t < |s.threads| ==> s.runs[t] <= Runs(s.threads[t]))
  }

  /** What a step does to the shared fields and to ownership, as far as the other threads can tell. */
  predicate Fair(s: Shared, thread: Thread, m: Move) {
    && m.shared.connected == m.shared.installed.Some?
    && (m.shared.sequence != s.sequence ==> Owner(m.shared, m.next))
    && (m.shared.flag ==> s.flag || Owner(m.shared, m.next))
    && (m.shared.flag && Owner(s, thread) ==>
          Owner(m.shared, m.next) || (m.spawn.Some? && Owner(m.shared, m.spawn.value)))
    && (m.shared.locked ==> Holder(m.next) || (s.locked && !Holder(thread)))
    && Ran(thread, m.next) + Runs(thread) <= Runs(m.next)
  }

  lemma CallFair(s: Shared, thread: Thread, ok: bool)
    requires thread.Calls() && s.connected == s.installed.Some?
    ensures Fair(s, thread, CallStep(s, thread, ok))
  {
  }

  predicate Leaving(thread: Thread) {
    thread.LoopExit? || thread.LoopCompare? || thread.LoopStore?
  }

  lemma LoopEndFair(s: Shared, thread: Thread, ok: bool)
    requires Leaving(thread) && s.connected == s.installed.Some?
    ensures Fair(s, thread, LoopStep(s, thread, ok))
  {
  }

  lemma LoopBodyFair(s: Shared, thread: Thread, ok: bool)
    requires thread.Loops() && !Leaving(thread) && s.connected == s.installed.Some?
    ensures Fair(s, thread, LoopStep(s, thread, ok))
  {
    var m := LoopStep(s, thread, ok);
    assert m.shared.flag == s.flag && m.shared.sequence == s.sequence && m.shared.locked == s.locked;
    assert m.next.Loops() && m.next.seqno == thread.seqno;
  }

  lemma LinkFair(s: Shared, thread: Thread, ok: bool)
    requires !thread.Calls() && !thread.Loops() && !thread.Done? && s.connected == s.installed.Some?
    ensures Fair(s, thread, LinkStep(s, thread, ok))
  {
  }

  lemma StepIsFair(s: Shared, thread: Thread, ok: bool)
    requires !thread.Done? && s.connected == s.installed.Some?
    ensures Fair(s, thread, StepOf(s, thread, ok)) && forall c: nat :: Passes(s, thread, StepOf(s, thread, ok), c)
  {
    forall c: nat
      ensures Passes(s, thread, StepOf(s, thread, ok), c)
    {
      if thread.Calls() {
        CallPasses(s, thread, ok, c);
      } else if thread.Loops() {
        LoopPasses(s, thread, ok, c);
      } else {
        LinkPasses(s, thread, ok, c);
      }
    }
    if thread.Calls() {
      CallFair(s, thread, ok);
    } else if Leaving(thread) {
      LoopEndFair(s, thread, ok);
    } else if thread.Loops() {
      LoopBodyFair(s, thread, ok);
    } else {
      LinkFair(s, thread, ok);
    }
  }

  // ---------------------------------------------------------------- every event keeps the invariant

  /** Threads other than `t` stay where they are. */
  lemma Others(s: State, t: nat, m: Move, u: nat)
    requires t < |s.threads| && |s.runs| == |s.threads|
    ensures var s' := After(s, t, m);
      && |s'.runs| == |s'.threads| == |s.threads| + (if m.spawn.Some? then 1 else 0)
      && s'.threads[t] == m.next && s'.runs[t] == s.runs[t] + Ran(s.threads[t], m.next)
      && (m.spawn.Some? ==> s'.threads[|s.threads|] == m.spawn.value && s'.runs[|s.threads|] == 0)
      && (u < |s.threads| && u != t ==> s'.threads[u] == s.threads[u] && s'.runs[u] == s.runs[u])
  {
  }

  lemma StepKeepsOwned(s: State, t: nat, m: Move)
    requires t < |s.threads| && |s.runs| == |s.threads| && Fair(s.shared, s.threads[t], m)
    requires s.shared.flag ==> Owned(s)
    ensures m.shared.flag ==> Owned(After(s, t, m))
  {
    if m.shared.flag {
      Others(s, t, m, t);
      var s' := After(s, t, m);
      if Owner(m.shared, m.next) {
        assert Owner(s'.shared, s'.threads[t]);
      } else {
        var u :| 0 <= u < |s.threads| && Owner(s.shared, s.threads[u]);
        Others(s, t, m, u);
        if u == t {
          assert Owner(s'.shared, s'.threads[|s.threads|]);
        } else {
          assert Owner(s'.shared, s'.threads[u]);
        }
      }
    }
  }

  lemma StepKeepsLocked(s: State, t: nat, m: Move)
    requires t < |s.threads| && |s.runs| == |s.threads| && Fair(s.shared, s.threads[t], m)
    requires s.shared.locked ==> Locked(s)
    ensures m.shared.locked ==> Locked(After(s, t, m))
  {
    if m.shared.locked {
      Others(s, t, m, t);
      var s' := After(s, t, m);
      if Holder(m.next) {
        assert Holder(s'.threads[t]);
      } else {
        var u :| 0 <= u < |s.threads| && Holder(s.threads[u]);
        Others(s, t, m, u);
        assert Holder(s'.threads[u]);
      }
    }
  }

  lemma StepKeepsRuns(s: State, t: nat, m: Move)
    requires t < |s.threads| && |s.runs| == |s.threads| && Fair(s.shared, s.threads[t], m)
    requires forall u :: 0 <= u < |s.threads| ==> s.runs[u] <= Runs(s.threads[u])
    ensures |After(s, t, m).runs| == |After(s, t, m).threads|
    ensures var s' := After(s, t, m); forall u :: 0 <= u < |s'.threads| ==> s'.runs[u] <= Runs(s'.threads[u])
  {
  }

  lemma BeginKeeps(s: State, thread: Thread)
    requires Inv(s) && CanHappen(s, Begin(thread))
    ensures Inv(Next(s, Begin(thread)))
  {
    var s' := Next(s, Begin(thread));
    forall c: nat
      ensures Places(s', c) == if c < s'.shared.created then 1 else 0
    {
      HoldersAppend(s.threads, thread, c);
      assert Places(s, c) == if c < s.shared.created then 1 else 0;
    }
    assert forall t :: 0 <= t < |s.threads| ==> s'.threads[t] == s.threads[t];
    if s.shared.flag {
      var t :| 0 <= t < |s.threads| && Owner(s.shared, s.threads[t]);
      assert Owner(s'.shared, s'.threads[t]);
    }
    if s.shared.locked {
      var t :| 0 <= t < |s.threads| && Holder(s.threads[t]);
      assert Holder(s'.threads[t]);
    }
  }

  lemma InvStep(s: State, event: Event)
    requires Inv(s) && CanHappen(s, event)
    ensures Inv(Next(s, event))
  {
    match event
    case Begin(thread) => BeginKeeps(s, thread);
    case Take(t, ok) =>
      var m := StepOf(s.shared, s.threads[t], ok);
      StepIsFair(s.shared, s.threads[t], ok);
      StepKeepsOwned(s, t, m);
      StepKeepsLocked(s, t, m);
      StepKeepsRuns(s, t, m);
      StepConserves(s, t, m);
  }

  lemma StepConserves(s: State, t: nat, m: Move)
    requires t < |s.threads| && t < |s.runs| && Conserved(s)
    requires forall c: nat :: Passes(s.shared, s.threads[t], m, c)
    ensures Conserved(After(s, t, m))
  {
    forall c: nat
      ensures Places(After(s, t, m), c) == if c < m.shared.created then 1 else 0
    {
      Conservation(s, t, m, c);
    }
  }

  lemma {:induction false} InvRun(s: State, run: seq<Event>)
    requires Inv(s) && CanRun(s, run)
    ensures Inv(Run(s, run))
    decreases |run|
  {
    if run != [] {
      InvStep(s, run[0]);
      InvRun(Next(s, run[0]), run[1..]);
    }
  }

  ghost predicate Reachable(s: State) {
    exists run :: CanRun(INITIAL, run) && s == Run(INITIAL, run)
  }

  lemma ReachableInv(s: State)
    requires Reachable(s)
    ensures Inv(s)
  {
    var run :| CanRun(INITIAL, run) && s == Run(INITIAL, run);
    InvRun(INITIAL, run);
  }

  lemma {:induction false} RunThen(s: State, run: seq<Event>, event: Event)
    requires CanRun(s, run) && CanHappen(Run(s, run), event)
    ensures CanRun(s, run + [event]) && Run(s, run + [event]) == Next(Run(s, run), event)
    decreases |run|
  {
    if run == [] {
      assert CanRun(Next(s, event), []);
    } else {
      RunThen(Next(s, run[0]), run[1..], event);
      assert (run + [event])[1..] == run[1..] + [event];
    }
  }

  lemma Extend(s: State, event: Event) returns (s': State)
    requires Reachable(s) && CanHappen(s, event)
    ensures s' == Next(s, event) && Reachable(s')
  {
    var run :| CanRun(INITIAL, run) && s == Run(INITIAL, run);
    RunThen(INITIAL, run, event);
    s' := Next(s, event);
  }

  // ---------------------------------------------------------------- connection conservation

  lemma {:induction false} HoldersCount(threads: seq<Thread>, c: nat, t: nat)
    requires t < |threads| && HasConn(threads[t]) && threads[t].conn == c
    ensures Holders(threads, c) >= 1
    ensures Holders(threads, c) == 1 ==>
      forall u :: 0 <= u < |threads| && u != t ==> !(HasConn(threads[u]) && threads[u].conn == c)
  {
    if t == 0 {
      if Holders(threads, c) == 1 {
        forall u | 0 < u < |threads|
          ensures !(HasConn(threads[u]) && threads[u].conn == c)
        {
          if HasConn(threads[u]) && threads[u].conn == c {
            HoldersCount(threads[1..], c, u - 1);
          }
        }
      }
    } else {
      HoldersCount(threads[1..], c, t - 1);
      forall u | 0 < u < |threads| && u != t
        ensures Holders(threads, c) == 1 ==> !(HasConn(threads[u]) && threads[u].conn == c)
      {
        assert threads[u] == threads[1..][u - 1];
      }
    }
  }

  lemma {:induction false} NoHolders(threads: seq<Thread>, c: nat)
    requires forall t :: 0 <= t < |threads| ==> !(HasConn(threads[t]) && threads[t].conn == c)
    ensures Holders(threads, c) == 0
  {
    if threads != [] {
      NoHolders(threads[1..], c);
    }
  }

  predicate HeldBy(s: State, t: nat, c: nat) {
    t < |s.threads| && HasConn(s.threads[t]) && s.threads[t].conn == c
  }

  ghost predicate SomeoneHolds(s: State, c: nat) {
    exists t :: HeldBy(s, t, c)
  }

  /**
   * Every created connection is exactly one of closed, installed, or held by a thread; it is closed
   * at most once and held by at most one thread; and one is installed exactly when connected.
   */
  lemma EachConnectionOnce(s: State, c: nat)
    requires Reachable(s)
    ensures s.shared.connected <==> s.shared.installed.Some?
    ensures s.shared.closes[c] <= 1
    ensures forall t, u :: HeldBy(s, t, c) && HeldBy(s, u, c) ==> t == u
    ensures c < s.shared.created <==> (s.shared.closes[c] == 1 || s.shared.installed == Some(c) || SomeoneHolds(s, c))
    ensures s.shared.installed == Some(c) ==> s.shared.closes[c] == 0 && !SomeoneHolds(s, c)
    ensures SomeoneHolds(s, c) ==> s.shared.closes[c] == 0
  {
    ReachableInv(s);
    assert Places(s, c) == if c < s.shared.created then 1 else 0;
    if SomeoneHolds(s, c) {
      var t :| HeldBy(s, t, c);
      HoldersCount(s.threads, c, t);
    } else {
      forall t | 0 <= t < |s.threads|
        ensures !(HasConn(s.threads[t]) && s.threads[t].conn == c)
      {
        assert !HeldBy(s, t, c);
      }
      NoHolders(s.threads, c);
    }
  }

  predicate AllDone(s: State) {
    forall t :: 0 <= t < |s.threads| ==> s.threads[t].Done?
  }

  /** The event in which Connect makes the client connected. */
  predicate Connects(s: State, event: Event) {
    event.Take? && event.t < |s.threads| && s.threads[event.t].ConnectInstall?
  }

  ghost predicate NeverConnects(s: State, run: seq<Event>)
    requires CanRun(s, run)
    decreases |run|
  {
    run == [] || (!Connects(s, run[0]) && NeverConnects(Next(s, run[0]), run[1..]))
  }

  lemma StaysDisconnected(s: Shared, thread: Thread, ok: bool)
    requires !s.connected && !thread.Done? && !thread.ConnectInstall?
    ensures !StepOf(s, thread, ok).shared.connected
  {
  }

  /** Only Connect connects, so after Disconnect no reconnect path puts a connection back. */
  lemma {:induction false} DisconnectedRun(s: State, run: seq<Event>)
    requires !s.shared.connected && CanRun(s, run) && NeverConnects(s, run)
    ensures !Run(s, run).shared.connected
    decreases |run|
  {
    if run != [] {
      if run[0].Take? {
        StaysDisconnected(s.shared, s.threads[run[0].t], run[0].ok);
      }
      DisconnectedRun(Next(s, run[0]), run[1..]);
    }
  }

  /** After Disconnect, once every thread has finished, no connection is open. */
  lemma NothingLeaks(s: State, run: seq<Event>, c: nat)
    requires Reachable(s) && !s.shared.connected && CanRun(s, run) && NeverConnects(s, run)
    requires AllDone(Run(s, run)) && c < Run(s, run).shared.created
    ensures Run(s, run).shared.closes[c] == 1
  {
    var s' := Run(s, run);
    ReachableInv(s);
    InvRun(s, run);
    DisconnectedRun(s, run);
    NoHolders(s'.threads, c);
    assert Places(s', c) == 1;
  }

  lemma RequestsAtMostTwice(s: State, t: nat)
    requires Reachable(s) && t < |s.threads|
    ensures t < |s.runs| && s.runs[t] <= 2
  {
    ReachableInv(s);
  }
}
