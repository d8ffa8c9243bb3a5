/** Exactly when two threads can come to reconnect at once. */
module ClientExclusion {
  import opened Client
  import opened ClientRecovery

  ghost predicate TwoActive(s: State) {
    exists t, u :: 0 <= t < u < |s.threads| && Active(s.threads[t]) && Active(s.threads[u])
  }

  /** Two threads reconnect at once at the end of some run in which no Disconnect overlaps a reconnect. */
  ghost predicate CanCollide(s: State) {
    exists run :: CanRun(s, run) && NeverOverlaps(s, run) && TwoActive(Run(s, run))
  }

  // ---------------------------------------------------------------- an exclusive client is safe

  lemma {:induction false} ExclusiveEnd(s: State, run: seq<Event>)
    requires CanRun(s, run) && ExclusiveThroughout(s, run)
    ensures Exclusive(Run(s, run))
    decreases |run|
  {
    if run != [] {
      ExclusiveEnd(Next(s, run[0]), run[1..]);
    }
  }

  lemma ExclusiveIsSafe(s: State)
    requires Exclusive(s)
    ensures !CanCollide(s)
  {
    forall run | CanRun(s, run) && NeverOverlaps(s, run)
      ensures !TwoActive(Run(s, run))
    {
      ExclusiveRun(s, run);
      ExclusiveEnd(s, run);
    }
  }

  // ---------------------------------------------------------------- an overlap is not

  lemma CollideLater(s: State, event: Event, s1: State)
    requires CanHappen(s, event) && !Overlaps(s, event) && s1 == Next(s, event) && CanCollide(s1)
    ensures CanCollide(s)
  {
    var rest :| CanRun(s1, rest) && NeverOverlaps(s1, rest) && TwoActive(Run(s1, rest));
    var run := [event] + rest;
    assert run[1..] == rest;
    assert CanRun(s, run) && NeverOverlaps(s, run) && Run(s, run) == Run(s1, rest);
  }

  /** Thread `t` reconnects under a lowered flag, and thread `c` is at `thread`. */
  predicate Exposed(s: State, t: nat, c: nat, thread: Thread) {
    && |s.runs| == |s.threads| && t < |s.threads| && c < |s.threads| && t != c
    && Active(s.threads[t]) && !s.shared.flag && s.threads[c] == thread
  }

  lemma ClaimCollides(s: State, t: nat, c: nat)
    requires Exposed(s, t, c, CallClaim)
    ensures CanCollide(s)
  {
    var s1 := Next(s, Take(c, true));
    assert s1.threads[t] == s.threads[t] && s1.threads[c] == CallDial;
    assert Active(s1.threads[if t < c then t else c]) && Active(s1.threads[if t < c then c else t]);
    assert CanRun(s1, []) && Run(s1, []) == s1 && NeverOverlaps(s1, []) && TwoActive(s1);
    CollideLater(s, Take(c, true), s1);
  }

  lemma CheckCollides(s: State, t: nat, c: nat)
    requires Exposed(s, t, c, CallCheck) && s.shared.connected
    ensures CanCollide(s)
  {
    var s1 := Next(s, Take(c, true));
    ClaimCollides(s1, t, c);
    CollideLater(s, Take(c, true), s1);
  }

  lemma RequestCollides(s: State, t: nat, c: nat)
    requires Exposed(s, t, c, CallRequest) && s.shared.connected
    ensures CanCollide(s)
  {
    var s1 := Next(s, Take(c, false));
    CheckCollides(s1, t, c);
    CollideLater(s, Take(c, false), s1);
  }

  lemma EnterCollides(s: State, t: nat, c: nat)
    requires Exposed(s, t, c, CallEnter) && s.shared.connected
    ensures CanCollide(s)
  {
    var s1 := Next(s, Take(c, true));
    RequestCollides(s1, t, c);
    CollideLater(s, Take(c, true), s1);
  }

  /** A call whose request fails, on a connected client. */
  lemma CallCollides(s: State, t: nat)
    requires |s.runs| == |s.threads| && t < |s.threads| && Active(s.threads[t]) && !s.shared.flag && s.shared.connected
    ensures CanCollide(s)
  {
    var s1 := Next(s, Begin(CallEnter));
    assert s1.threads[t] == s.threads[t];
    EnterCollides(s1, t, |s.threads|);
    CollideLater(s, Begin(CallEnter), s1);
  }

  lemma InstallCollides(s: State, t: nat, c: nat, conn: nat)
    requires Exposed(s, t, c, ConnectInstall(conn)) && !s.shared.connected
    ensures CanCollide(s)
  {
    var s1 := Next(s, Take(c, true));
    assert s1.threads[t] == s.threads[t];
    CallCollides(s1, t);
    CollideLater(s, Take(c, true), s1);
  }

  lemma DialCollides(s: State, t: nat, c: nat)
    requires Exposed(s, t, c, ConnectDial) && !s.shared.connected
    ensures CanCollide(s)
  {
    var s1 := Next(s, Take(c, true));
    InstallCollides(s1, t, c, s.shared.created);
    CollideLater(s, Take(c, true), s1);
  }

  /** A Connect of a disconnected client, and then such a call. */
  lemma ConnectCollides(s: State, t: nat)
    requires |s.runs| == |s.threads| && t < |s.threads| && Active(s.threads[t]) && !s.shared.flag && !s.shared.connected
    ensures CanCollide(s)
  {
    var s1 := Next(s, Begin(ConnectDial));
    assert s1.threads[t] == s.threads[t];
    DialCollides(s1, t, |s.threads|);
    CollideLater(s, Begin(ConnectDial), s1);
  }

  /** The Disconnect goes on, the client is connected again, and a call fails. */
  lemma DisconnectCollides(s: State, t: nat, d: nat)
    requires Exposed(s, t, d, DiscTake)
    ensures CanCollide(s)
  {
    var s1 := Next(s, Take(d, true));
    assert s1.threads[t] == s.threads[t];
    ConnectCollides(s1, t);
    CollideLater(s, Take(d, true), s1);
  }

  lemma OverlapCollides(s: State, event: Event)
    requires |s.runs| == |s.threads| && CanHappen(s, event) && Overlaps(s, event)
    ensures CanCollide(Next(s, event))
  {
    var t :| 0 <= t < |s.threads| && Active(s.threads[t]);
    var s1 := Next(s, event);
    assert t != event.t && s1.threads[t] == s.threads[t];
    DisconnectCollides(s1, t, event.t);
  }

  // ---------------------------------------------------------------- the theorem

  /** An event makes it possible for two threads to reconnect at once exactly if it is an overlapping Disconnect. */
  lemma CollidesIff(s: State, event: Event)
    requires Exclusive(s) && CanHappen(s, event)
    ensures CanCollide(Next(s, event)) <==> Overlaps(s, event)
  {
    if Overlaps(s, event) {
      OverlapCollides(s, event);
    } else {
      ExclusiveStepIff(s, event);
      ExclusiveIsSafe(Next(s, event));
    }
  }

  /** In no state of the run can two threads come to reconnect at once without a further overlap. */
  ghost predicate SafeThroughout(s: State, run: seq<Event>)
    requires CanRun(s, run)
    decreases |run|
  {
    !CanCollide(s) && (run == [] || SafeThroughout(Next(s, run[0]), run[1..]))
  }

  /**
   * On every run, with any number of Disconnects: two threads can come to reconnect at once if and only if some
   * Disconnect has lowered the flag under a thread that is reconnecting. Without one, no state of the run has two
   * reconnecting threads.
   */
  lemma {:induction false} OneReconnectAtATime(s: State, run: seq<Event>)
    requires Exclusive(s) && CanRun(s, run)
    ensures SafeThroughout(s, run) <==> NeverOverlaps(s, run)
    ensures NeverOverlaps(s, run) ==> !TwoActive(Run(s, run))
    decreases |run|
  {
    ExclusiveIsSafe(s);
    if run != [] {
      CollidesIff(s, run[0]);
      if !Overlaps(s, run[0]) {
        ExclusiveStepIff(s, run[0]);
        OneReconnectAtATime(Next(s, run[0]), run[1..]);
      } else {
        assert CanCollide(Next(s, run[0]));
      }
    }
  }
}
