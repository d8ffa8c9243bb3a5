/** The client never gets stuck rejecting calls, and when only one reconnect is under way. */
module ClientRecovery {
  import opened Options
  import opened Client
  import opened ClientTheorems

  // ---------------------------------------------------------------- the flag can always be cleared

  /** How far an owner is from clearing the flag when the outside world only fails. */
  function Distance(thread: Thread): nat {
    match thread
    case CallDial => 9
    case CallWait(_) => 10
    case CallInstall(_) => 10
    case CallCloseOld(_) => 2
    case CallClear => 1
    case CallDiscard(_) => 9
    case CallDecide => 8
    case CallBump => 7
    case CallStart(_) => 6
    case CallGo(_) => 5
    case CallGiveUp => 1
    case LoopTop(_) => 4
    case LoopDial(_) => 5
    case LoopWait(_, _) => 6
    case LoopInstall(_, _) => 6
    case LoopCloseOld(_, _) => 4
    case LoopDiscard(_, _, _) => 5
    case LoopPause(_) => 4
    case LoopExit(_) => 3
    case LoopCompare(_) => 2
    case LoopStore(_) => 1
    case DiscCancel => 3
    case DiscClear => 1
    case _ => 0
  }

  /** The step clears the flag, or leaves an owner nearer to doing so. */
  predicate Nears(thread: Thread, m: Move) {
    || !m.shared.flag
    || (Owner(m.shared, m.next) && Distance(m.next) < Distance(thread))
    || (m.spawn.Some? && Owner(m.shared, m.spawn.value) && Distance(m.spawn.value) < Distance(thread))
  }

  lemma CallNears(s: Shared, thread: Thread)
    requires thread.Calls() && Owner(s, thread)
    ensures Nears(thread, CallStep(s, thread, false))
  {
  }

  lemma LoopNears(s: Shared, thread: Thread)
    requires thread.Loops() && Owner(s, thread)
    ensures Nears(thread, LoopStep(s, thread, false))
  {
  }

  lemma OwnerNears(s: Shared, thread: Thread)
    requires Owner(s, thread)
    ensures !thread.Done? && Nears(thread, StepOf(s, thread, false))
  {
    if thread.Calls() {
      CallNears(s, thread);
    } else if thread.Loops() {
      LoopNears(s, thread);
    }
  }

  /** Runs in which threads already begun take steps and the outside world only fails. */
  predicate Hopeless(run: seq<Event>) {
    forall i :: 0 <= i < |run| ==> run[i].Take? && !run[i].ok
  }

  ghost predicate CanClear(s: State) {
    exists run :: Hopeless(run) && CanRun(s, run) && !Run(s, run).shared.flag
  }

  lemma ClearsLater(s: State, t: nat)
    requires CanHappen(s, Take(t, false)) && CanClear(Next(s, Take(t, false)))
    ensures CanClear(s)
  {
    var s1 := Next(s, Take(t, false));
    var rest :| Hopeless(rest) && CanRun(s1, rest) && !Run(s1, rest).shared.flag;
    var run := [Take(t, false)] + rest;
    assert run[1..] == rest;
    assert CanRun(s, run) && Run(s, run) == Run(s1, rest);
  }

  lemma ClearNow(s: State)
    requires !s.shared.flag
    ensures CanClear(s)
  {
    assert CanRun(s, []) && Run(s, []) == s && Hopeless([]);
  }

  /** An owner clears the flag, if need be after the holder of bgCancelMu has moved on. */
  lemma {:induction false} OwnerClears(s: State, t: nat)
    requires Inv(s) && t < |s.threads| && Owner(s.shared, s.threads[t])
    ensures CanClear(s)
    decreases Distance(s.threads[t]), if s.shared.locked then 3 else 1
  {
    if !s.shared.flag {
      ClearNow(s);
    } else if Unblocked(s.shared, s.threads[t]) {
      Advance(s, t);
    } else {
      Unblock(s, t);
    }
  }

  lemma {:induction false} Unblock(s: State, t: nat)
    requires Inv(s) && t < |s.threads| && Owner(s.shared, s.threads[t]) && !Unblocked(s.shared, s.threads[t])
    ensures CanClear(s)
    decreases Distance(s.threads[t]), if s.shared.locked then 2 else 0
  {
    var h :| 0 <= h < |s.threads| && Holder(s.threads[h]);
    var s1 := HolderMoves(s, t, h);
    if !s1.shared.flag {
      ClearNow(s1);
    } else if s1.threads[h].LoopStore? {
      assert Owner(s1.shared, s1.threads[h]) && Distance(s1.threads[h]) == 1;
      OwnerClears(s1, h);
    } else {
      OwnerClears(s1, t);
    }
  }

  lemma HolderStep(s: Shared, thread: Thread)
    requires Holder(thread)
    ensures var m := StepOf(s, thread, false);
      && m.spawn.None? && m.shared.sequence == s.sequence
      && (!m.shared.flag || m.next.LoopStore? || !m.shared.locked)
  {
  }

  lemma BlockedOwner(s: Shared, s': Shared, thread: Thread)
    requires Owner(s, thread) && !Unblocked(s, thread) && s'.sequence == s.sequence
    ensures Distance(thread) >= 3 && s.locked && !Holder(thread) && Owner(s', thread)
  {
  }

  /** The holder of bgCancelMu clears the flag, is about to, or lets the blocked thread go on. */
  lemma HolderMoves(s: State, t: nat, h: nat) returns (s1: State)
    requires Inv(s) && t < |s.threads| && h < |s.threads| && Owner(s.shared, s.threads[t])
    requires Holder(s.threads[h]) && !Unblocked(s.shared, s.threads[t])
    ensures Distance(s.threads[t]) >= 3 && s.shared.locked
    ensures Inv(s1) && (CanClear(s1) ==> CanClear(s))
    ensures t < |s1.threads| && h < |s1.threads| && s1.threads[t] == s.threads[t]
    ensures Owner(s1.shared, s1.threads[t])
    ensures !s1.shared.flag || s1.threads[h].LoopStore? || !s1.shared.locked
  {
    var m := StepOf(s.shared, s.threads[h], false);
    HolderStep(s.shared, s.threads[h]);
    BlockedOwner(s.shared, m.shared, s.threads[t]);
    InvStep(s, Take(h, false));
    Others(s, h, m, t);
    s1 := After(s, h, m);
    if CanClear(s1) {
      ClearsLater(s, h);
    }
  }

  lemma {:induction false} Advance(s: State, t: nat)
    requires Inv(s) && t < |s.threads| && Owner(s.shared, s.threads[t]) && Unblocked(s.shared, s.threads[t])
    ensures CanClear(s)
    decreases Distance(s.threads[t]), 0
  {
    var m := StepOf(s.shared, s.threads[t], false);
    var s1 := Next(s, Take(t, false));
    OwnerNears(s.shared, s.threads[t]);
    InvStep(s, Take(t, false));
    Others(s, t, m, t);
    if !s1.shared.flag {
      ClearNow(s1);
    } else if Owner(m.shared, m.next) && Distance(m.next) < Distance(s.threads[t]) {
      OwnerClears(s1, t);
    } else {
      OwnerClears(s1, |s.threads|);
    }
    ClearsLater(s, t);
  }

  /**
   * A raised reconnecting flag always has an owner, and from every reachable state the threads already
   * begun can clear it, even if every dial and every request fails from then on.
   */
  lemma NeverStuck(s: State)
    requires Reachable(s)
    ensures s.shared.flag ==> Owned(s)
    ensures CanClear(s)
  {
    ReachableInv(s);
    if s.shared.flag {
      var t :| 0 <= t < |s.threads| && Owner(s.shared, s.threads[t]);
      OwnerClears(s, t);
    } else {
      ClearNow(s);
    }
  }

  // ---------------------------------------------------------------- every step of an owner counts

  /** How many steps of its own an owner is from clearing the flag, whatever the outside world answers. */
  function Effort(thread: Thread): nat {
    match thread
    case CallDial => 17
    case CallWait(_) => 16
    case CallInstall(_) => 15
    case CallDiscard(_) => 14
    case CallDecide => 13
    case CallBump => 12
    case CallStart(_) => 11
    case CallGo(_) => 10
    case LoopTop(_) => 9
    case LoopDial(_) => 8
    case LoopWait(_, _) => 7
    case LoopInstall(_, _) => 6
    case LoopDiscard(_, _, _) => 5
    case LoopCloseOld(_, _) => 4
    case LoopPause(_) => 4
    case LoopExit(_) => 3
    case LoopCompare(_) => 2
    case CallCloseOld(_) => 2
    case DiscCancel => 2
    case LoopStore(_) => 1
    case CallClear => 1
    case CallGiveUp => 1
    case DiscClear => 1
    case _ => 0
  }

  /** The step clears the flag, or leaves an owner with less to do. */
  predicate Shrinks(thread: Thread, m: Move) {
    || !m.shared.flag
    || (Owner(m.shared, m.next) && Effort(m.next) < Effort(thread))
    || (m.spawn.Some? && Owner(m.shared, m.spawn.value) && Effort(m.spawn.value) < Effort(thread))
  }

  /** The loop starts another round, which it does only while its context lives. */
  predicate AnotherRound(s: Shared, thread: Thread, ok: bool) {
    thread.LoopPause? && ok && thread.seqno !in s.cancelled
  }

  lemma CallShrinks(s: Shared, thread: Thread, ok: bool)
    requires thread.Calls() && Owner(s, thread)
    ensures Shrinks(thread, CallStep(s, thread, ok))
  {
  }

  lemma LoopShrinks(s: Shared, thread: Thread, ok: bool)
    requires thread.Loops() && Owner(s, thread) && !AnotherRound(s, thread, ok)
    ensures Shrinks(thread, LoopStep(s, thread, ok))
  {
  }

  /**
   * Whatever the outside world answers, each step of an owner clears the flag or brings an owner nearer to
   * that, within seventeen steps, except that a background loop whose context lives may start another round.
   */
  lemma OwnerClearsUnlessAnotherRound(s: Shared, thread: Thread, ok: bool)
    requires Owner(s, thread) && !AnotherRound(s, thread, ok)
    ensures !thread.Done? && Effort(thread) <= 17 && Shrinks(thread, StepOf(s, thread, ok))
  {
    if thread.Calls() {
      CallShrinks(s, thread, ok);
    } else if thread.Loops() {
      LoopShrinks(s, thread, ok);
    }
  }

  // ---------------------------------------------------------------- one reconnect at a time

  predicate Disconnects(thread: Thread) {
    thread.DiscBump? || thread.DiscCancel? || thread.DiscClear? || thread.DiscTake? || thread.DiscClose?
  }

  /** The thread is reconnecting: a caller past its compare-and-swap, or a background loop. */
  predicate Active(thread: Thread) {
    || thread.CallDial? || thread.CallWait? || thread.CallInstall? || thread.CallCloseOld? || thread.CallClear?
    || thread.CallDiscard? || thread.CallDecide? || thread.CallBump? || thread.CallGiveUp?
    || thread.CallStart? || thread.CallGo? || thread.Loops()
  }

  /** At most one thread reconnects, and only while the flag is up. */
  ghost predicate Exclusive(s: State) {
    && |s.runs| == |s.threads|
    && (forall t :: 0 <= t < |s.threads| && Active(s.threads[t]) ==> s.shared.flag)
    && (forall t, u :: 0 <= t < u < |s.threads| ==> !(Active(s.threads[t]) && Active(s.threads[u])))
  }

  ghost predicate SomeActive(s: State) {
    exists t :: 0 <= t < |s.threads| && Active(s.threads[t])
  }

  /** Disconnect lowers the flag under a thread that is reconnecting. */
  ghost predicate Overlaps(s: State, event: Event) {
    event.Take? && event.t < |s.threads| && s.threads[event.t].DiscClear? && SomeActive(s)
  }

  /** A thread becomes active only under a lowered flag, and lowers the flag only as it stops being active. */
  predicate TakesTurns(s: Shared, thread: Thread, m: Move) {
    && (Active(m.next) ==> m.shared.flag && (Active(thread) || !s.flag))
    && (m.spawn.Some? ==> Active(thread) && !Active(m.next) && (Active(m.spawn.value) ==> m.shared.flag))
    && (s.flag && !m.shared.flag ==> thread.DiscClear? || (Active(thread) && !Active(m.next) && m.spawn.None?))
  }

  lemma CallTakesTurns(s: Shared, thread: Thread, ok: bool)
    requires thread.Calls() && (Active(thread) ==> s.flag)
    ensures TakesTurns(s, thread, CallStep(s, thread, ok))
  {
  }

  lemma LoopTakesTurns(s: Shared, thread: Thread, ok: bool)
    requires thread.Loops() && s.flag
    ensures TakesTurns(s, thread, LoopStep(s, thread, ok))
  {
  }

  lemma LinkTakesTurns(s: Shared, thread: Thread, ok: bool)
    requires !thread.Calls() && !thread.Loops() && !thread.Done?
    ensures TakesTurns(s, thread, LinkStep(s, thread, ok))
  {
  }

  lemma TurnsKeepExclusive(s: State, t: nat, m: Move)
    requires Exclusive(s) && t < |s.threads| && TakesTurns(s.shared, s.threads[t], m)
    requires s.threads[t].DiscClear? ==> !SomeActive(s)
    ensures Exclusive(After(s, t, m))
  {
    var s' := After(s, t, m);
    forall u | 0 <= u < |s'.threads| && Active(s'.threads[u])
      ensures s'.shared.flag
      ensures u != t && u < |s.threads| ==> Active(s.threads[u]) && s.threads[u] == s'.threads[u]
    {
      Others(s, t, m, u);
    }
    forall u, v | 0 <= u < v < |s'.threads|
      ensures !(Active(s'.threads[u]) && Active(s'.threads[v]))
    {
      Others(s, t, m, u);
      Others(s, t, m, v);
    }
  }

  lemma DisconnectOverlaps(s: State, event: Event)
    requires |s.runs| == |s.threads| && CanHappen(s, event) && Overlaps(s, event)
    ensures !Exclusive(Next(s, event))
  {
    var t :| 0 <= t < |s.threads| && Active(s.threads[t]);
    var m := StepOf(s.shared, s.threads[event.t], event.ok);
    Others(s, event.t, m, t);
    assert Active(Next(s, event).threads[t]) && !Next(s, event).shared.flag;
  }

  /** An event keeps the reconnects exclusive exactly if it is not such a Disconnect. */
  lemma ExclusiveStepIff(s: State, event: Event)
    requires Exclusive(s) && CanHappen(s, event)
    ensures Exclusive(Next(s, event)) <==> !Overlaps(s, event)
  {
    if Overlaps(s, event) {
      DisconnectOverlaps(s, event);
    } else if event.Take? {
      var thread := s.threads[event.t];
      if thread.Calls() {
        CallTakesTurns(s.shared, thread, event.ok);
      } else if thread.Loops() {
        LoopTakesTurns(s.shared, thread, event.ok);
      } else {
        LinkTakesTurns(s.shared, thread, event.ok);
      }
      TurnsKeepExclusive(s, event.t, StepOf(s.shared, thread, event.ok));
    }
  }

  ghost predicate ExclusiveThroughout(s: State, run: seq<Event>)
    requires CanRun(s, run)
    decreases |run|
  {
    Exclusive(s) && (run == [] || ExclusiveThroughout(Next(s, run[0]), run[1..]))
  }

  ghost predicate NeverOverlaps(s: State, run: seq<Event>)
    requires CanRun(s, run)
    decreases |run|
  {
    run == [] || (!Overlaps(s, run[0]) && NeverOverlaps(Next(s, run[0]), run[1..]))
  }

  /** A run stays exclusive, in every state, if and only if none of its events is such a Disconnect. */
  lemma {:induction false} ExclusiveRun(s: State, run: seq<Event>)
    requires Exclusive(s) && CanRun(s, run)
    ensures ExclusiveThroughout(s, run) <==> NeverOverlaps(s, run)
    decreases |run|
  {
    if run != [] {
      ExclusiveStepIff(s, run[0]);
      if !Overlaps(s, run[0]) {
        ExclusiveRun(Next(s, run[0]), run[1..]);
      } else {
        assert !Exclusive(Next(s, run[0]));
      }
    }
  }

  /** Then no start of a background loop cancels one that is still running. */
  lemma StartCancelsNoLiveLoop(s: State, t: nat, u: nat)
    requires Exclusive(s) && t < |s.threads| && s.threads[t].CallStart? && u < |s.threads|
    ensures !s.threads[u].Loops()
  {
    if u != t {
      assert !(Active(s.threads[if t < u then t else u]) && Active(s.threads[if t < u then u else t]));
    }
  }

  // ---------------------------------------------------------------- without Disconnect

  predicate InLoop(thread: Thread) {
    thread.CallGo? || thread.Loops()
  }

  /** What holds of each thread of a client that is never disconnected. */
  predicate Orderly(s: Shared, thread: Thread) {
    && !Disconnects(thread)
    && (Active(thread) ==> s.flag)
    && (Active(thread) && (InLoop(thread) || thread.CallStart?) ==> thread.seqno == s.sequence)
    && (Active(thread) && !InLoop(thread) ==> s.bgCancel.None?)
    && (InLoop(thread) ==> s.bgCancel == Some(thread.seqno))
  }

  ghost predicate Undisturbed(s: State) {
    && |s.runs| == |s.threads| && Calm(s.shared)
    && (forall t :: 0 <= t < |s.threads| ==> Orderly(s.shared, s.threads[t]))
    && (forall t, u :: 0 <= t < u < |s.threads| ==> !(Active(s.threads[t]) && Active(s.threads[u])))
  }

  /** Only an active thread, or one that finds the flag down, touches what the active thread relies on. */
  predicate Polite(s: Shared, thread: Thread, m: Move) {
    && Calm(m.shared)
    && (Active(thread) || !s.flag ||
        (m.shared.flag == s.flag && m.shared.sequence == s.sequence && m.shared.bgCancel == s.bgCancel))
    && (Active(m.next) ==> Active(thread) || !s.flag)
    && Orderly(m.shared, m.next)
    && (m.spawn.Some? ==> Active(thread) && !Active(m.next) && Orderly(m.shared, m.spawn.value))
  }

  predicate Calm(s: Shared) {
    s.cancelled == {} && (s.bgCancel.Some? ==> s.flag)
  }

  /** startBackgroundReconnect. */
  predicate Starts(thread: Thread) {
    thread.CallBump? || thread.CallStart? || thread.CallGo?
  }

  lemma StartPolite(s: Shared, thread: Thread, ok: bool)
    requires Starts(thread) && Orderly(s, thread) && Calm(s)
    ensures Polite(s, thread, CallStep(s, thread, ok))
  {
  }

  predicate SetsFlag(thread: Thread) {
    thread.CallClaim? || thread.CallClear? || thread.CallGiveUp?
  }

  lemma FlagPolite(s: Shared, thread: Thread, ok: bool)
    requires SetsFlag(thread) && Orderly(s, thread) && Calm(s)
    ensures Polite(s, thread, CallStep(s, thread, ok))
  {
  }

  lemma CallPolite(s: Shared, thread: Thread, ok: bool)
    requires thread.Calls() && !Starts(thread) && !SetsFlag(thread) && Orderly(s, thread) && Calm(s)
    ensures Polite(s, thread, CallStep(s, thread, ok))
  {
    var m := CallStep(s, thread, ok);
    assert m.shared.sequence == s.sequence && m.shared.bgCancel == s.bgCancel && m.spawn.None?;
    assert m.shared.flag == s.flag && m.shared.cancelled == s.cancelled;
    assert !InLoop(m.next) && !m.next.CallStart? && !Disconnects(m.next);
  }

  lemma LoopPolite(s: Shared, thread: Thread, ok: bool)
    requires thread.Loops() && Orderly(s, thread) && Calm(s)
    ensures Polite(s, thread, LoopStep(s, thread, ok))
  {
  }

  lemma ConnectPolite(s: Shared, thread: Thread, ok: bool)
    requires !thread.Calls() && !thread.Loops() && !thread.Done?
    requires Orderly(s, thread) && Calm(s)
    ensures Polite(s, thread, LinkStep(s, thread, ok))
  {
  }

  lemma PoliteKeeps(s: State, t: nat, m: Move)
    requires Undisturbed(s) && t < |s.threads| && Polite(s.shared, s.threads[t], m)
    ensures Undisturbed(After(s, t, m))
  {
    var s' := After(s, t, m);
    forall u | 0 <= u < |s'.threads|
      ensures Orderly(s'.shared, s'.threads[u])
    {
      Others(s, t, m, u);
      if u < |s.threads| && u != t {
        assert Orderly(s.shared, s.threads[u]);
      }
    }
    forall u, v | 0 <= u < v < |s'.threads|
      ensures !(Active(s'.threads[u]) && Active(s'.threads[v]))
    {
      Others(s, t, m, u);
      Others(s, t, m, v);
      if u < |s.threads| { assert Orderly(s.shared, s.threads[u]); }
      if v < |s.threads| { assert Orderly(s.shared, s.threads[v]); }
    }
  }

  lemma UndisturbedStep(s: State, event: Event)
    requires Undisturbed(s) && CanHappen(s, event) && event != Begin(DiscBump)
    ensures Undisturbed(Next(s, event))
  {
    if event.Take? {
      var thread := s.threads[event.t];
      assert Orderly(s.shared, thread);
      if Starts(thread) {
        StartPolite(s.shared, thread, event.ok);
      } else if SetsFlag(thread) {
        FlagPolite(s.shared, thread, event.ok);
      } else if thread.Calls() {
        CallPolite(s.shared, thread, event.ok);
      } else if thread.Loops() {
        LoopPolite(s.shared, thread, event.ok);
      } else {
        ConnectPolite(s.shared, thread, event.ok);
      }
      PoliteKeeps(s, event.t, StepOf(s.shared, thread, event.ok));
    }
  }

  /**
   * On every run without Disconnect no start of a background loop finds an earlier one's cancel function,
   * and no context is ever cancelled.
   */
  lemma {:induction false} NothingCancelled(s: State, run: seq<Event>)
    requires Undisturbed(s) && CanRun(s, run) && forall i :: 0 <= i < |run| ==> run[i] != Begin(DiscBump)
    ensures Undisturbed(Run(s, run))
    decreases |run|
  {
    if run != [] {
      UndisturbedStep(s, run[0]);
      NothingCancelled(Next(s, run[0]), run[1..]);
    }
  }

  lemma UndisturbedAtFirst()
    ensures Undisturbed(INITIAL) && Exclusive(INITIAL)
  {
  }
}
