/** A concrete run with Disconnect in which two callers reconnect at once, and one cancels the other's loop. */
module ClientOverlap {
  import opened Options
  import opened Client
  import opened ClientTheorems
  import opened ClientRecovery

  /** Thread `t` makes its step `m`. */
  lemma Take1(s: State, t: nat, ok: bool, m: Move) returns (s': State)
    requires Reachable(s) && t < |s.threads| == |s.runs| && Unblocked(s.shared, s.threads[t])
    requires m == StepOf(s.shared, s.threads[t], ok) && m.spawn.None?
    ensures Reachable(s') && s'.shared == m.shared && s'.threads == s.threads[t := m.next] && |s'.runs| == |s'.threads|
  {
    s' := Extend(s, Take(t, ok));
  }

  lemma RequestFails(s: State) returns (s': State)
    requires Reachable(s) && |s.threads| == |s.runs| && !s.shared.flag
    ensures Reachable(s') && |s'.threads| == |s'.runs| && s'.threads == s.threads + [CallCheck] && s'.shared == s.shared
  {
    var t := |s.threads|;
    s' := Extend(s, Begin(CallEnter));
    s' := Take1(s', t, true, Goto(s.shared, CallRequest));
    s' := Take1(s', t, false, Goto(s.shared, CallCheck));
  }

  /** A call whose request fails claims the flag, and its immediate reconnect fails too. */
  lemma CallFails(s: State) returns (s': State)
    requires Reachable(s) && |s.threads| == |s.runs| && s.shared.connected && !s.shared.flag
    ensures Reachable(s') && |s'.threads| == |s'.runs| && s'.threads == s.threads + [CallDecide]
    ensures s'.shared == s.shared.(flag := true)
  {
    var c, t := s.shared, |s.threads|;
    s' := RequestFails(s);
    s' := Take1(s', t, true, Goto(c, CallClaim));
    s' := Take1(s', t, true, SetFlag(c, true, CallDial));
    s' := Take1(s', t, false, Goto(c.(flag := true), CallDecide));
  }

  lemma StartsLoop(s: State, t: nat) returns (s': State)
    requires Reachable(s) && t < |s.threads| == |s.runs| && s.shared.connected && !s.shared.locked
    requires s.threads[t] == CallDecide
    ensures Reachable(s') && |s'.threads| == |s'.runs| && s'.threads == s.threads[t := CallGo(s.shared.sequence + 1)]
    ensures s'.shared.bgCancel == Some(s.shared.sequence + 1) && s'.shared.connected && !s'.shared.locked
    ensures s.shared.bgCancel.Some? ==> s.shared.bgCancel.value in s'.shared.cancelled
  {
    var c := s.shared;
    s' := Take1(s, t, true, Goto(c, CallBump));
    s' := Take1(s', t, true, Bump(c, CallStart(c.sequence + 1)));
    s' := Take1(s', t, true, Cancel(c.(sequence := c.sequence + 1), Some(c.sequence + 1), CallGo(c.sequence + 1)));
  }

  lemma Connected(s: State) returns (s': State)
    requires Reachable(s) && |s.threads| == |s.runs| && !s.shared.connected
    ensures Reachable(s') && |s'.threads| == |s'.runs| && s'.threads == s.threads + [Done] && s'.shared.connected
    ensures s'.shared.flag == s.shared.flag && s'.shared.locked == s.shared.locked
  {
    var c, t := s.shared, |s.threads|;
    s' := Extend(s, Begin(ConnectDial));
    s' := Take1(s', t, true, Dial(c, ConnectInstall(c.created)));
    s' := Take1(s', t, true, Install(c.(created := c.created + 1), c.created, Done));
  }

  /** Disconnect up to the point where it has taken the connection out. */
  lemma Disconnected(s: State) returns (s': State)
    requires Reachable(s) && |s.threads| == |s.runs| && !s.shared.locked
    ensures Reachable(s') && |s'.threads| == |s'.runs| == |s.threads| + 1
    ensures s.threads == s'.threads[..|s.threads|]
    ensures !s'.shared.flag && !s'.shared.connected && !s'.shared.locked
  {
    var t := |s.threads|;
    s' := Extend(s, Begin(DiscBump));
    s' := Take1(s', t, true, StepOf(s'.shared, DiscBump, true));
    s' := Take1(s', t, true, StepOf(s'.shared, DiscCancel, true));
    s' := Take1(s', t, true, StepOf(s'.shared, DiscClear, true));
    s' := Take1(s', t, true, StepOf(s'.shared, DiscTake, true));
  }

  lemma InitialReachable()
    ensures Reachable(INITIAL)
  {
    assert CanRun(INITIAL, []) && Run(INITIAL, []) == INITIAL;
  }

  /** Two callers are past the compare-and-swap at once. */
  lemma TwoCallersReconnect() returns (s: State)
    ensures Reachable(s) && |s.threads| == |s.runs| == 5 && s.threads[1] == CallDecide && s.threads[4] == CallDecide
    ensures s.shared.connected && !s.shared.locked
  {
    InitialReachable();
    s := Connected(INITIAL);
    s := CallFails(s);
    s := Disconnected(s);
    assert s.threads[1] == s.threads[..2][1];
    s := Connected(s);
    s := CallFails(s);
  }

  /** A caller's loop is cancelled by another caller's before it has begun, which the code takes to be impossible. */
  lemma OverlapExists() returns (s: State)
    ensures Reachable(s) && |s.threads| == 5 && !Exclusive(s)
    ensures s.threads[1].CallGo? && s.threads[4].CallGo? && s.threads[1].seqno in s.shared.cancelled
  {
    s := TwoCallersReconnect();
    s := StartsLoop(s, 1);
    s := StartsLoop(s, 4);
    assert Active(s.threads[1]) && Active(s.threads[4]);
  }
}
