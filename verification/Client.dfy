/**
 * The client's reconnect protocol as a state machine over its threads: callers, background
 * reconnect loops, Connect and Disconnect. One step is one atomic operation or one critical
 * section of `mutex` or `bgCancelMu`; the loop's deferred function, which reads and writes atomics
 * while it holds `bgCancelMu`, takes three. Connections are numbered as they are created, and a
 * loop's context has the number of its reconnect sequence.
 */
module Client {
  import opened Options

  datatype Thread =
    // doWithReconnect
    | CallEnter
    | CallRequest              // the request runs for the first time
    | CallCheck                // it failed with a transport error
    | CallClaim                // before the compare-and-swap
    | CallDial
    | CallWait(conn: nat)
    | CallInstall(conn: nat)
    | CallCloseOld(conn: nat)
    | CallClear                // reconnected; before the flag is cleared
    | CallRetry                // the request runs for the second time
    | CallDiscard(conn: nat)
    | CallDecide               // the immediate attempt failed
    | CallBump                 // startBackgroundReconnect, before the sequence is incremented
    | CallStart(seqno: nat)    // before its critical section
    | CallGo(seqno: nat)       // before the goroutine is started
    | CallGiveUp               // no longer connected; before the flag is cleared
    // backgroundReconnect
    | LoopTop(seqno: nat)
    | LoopDial(seqno: nat)
    | LoopWait(seqno: nat, conn: nat)
    | LoopInstall(seqno: nat, conn: nat)
    | LoopCloseOld(seqno: nat, conn: nat)
    | LoopDiscard(seqno: nat, conn: nat, leaving: bool)
    | LoopPause(seqno: nat)
    | LoopExit(seqno: nat)     // deferred function, before it locks bgCancelMu
    | LoopCompare(seqno: nat)  // holding bgCancelMu
    | LoopStore(seqno: nat)    // holding bgCancelMu; the sequence was its own
    // Connect
    | ConnectDial
    | ConnectInstall(conn: nat)
    | ConnectDiscard(conn: nat)
    // Disconnect
    | DiscBump
    | DiscCancel
    | DiscClear
    | DiscTake
    | DiscClose(conn: nat)
    | Done
  {
    predicate Calls() {
      || CallEnter? || CallRequest? || CallCheck? || CallClaim? || CallDial? || CallWait? || CallInstall?
      || CallCloseOld? || CallClear? || CallRetry? || CallDiscard? || CallDecide? || CallBump? || CallStart?
      || CallGo? || CallGiveUp?
    }

    predicate Loops() {
      || LoopTop? || LoopDial? || LoopWait? || LoopInstall? || LoopCloseOld? || LoopDiscard? || LoopPause?
      || LoopExit? || LoopCompare? || LoopStore?
    }
  }

  /** The client's fields, and the history of its connections. */
  datatype Shared = Shared(
    connected: bool,
    installed: Option<nat>,   // grpcConnection; apiClient always goes with it
    flag: bool,               // reconnectingFlag
    sequence: nat,            // reconnectSequence
    bgCancel: Option<nat>,    // whose cancel function is stored
    locked: bool,             // bgCancelMu is held across steps
    cancelled: set<nat>,      // contexts whose cancel function was called
    // history
    created: nat,             // connections created so far
    closes: multiset<nat>     // how often each was closed
  )

  /** What a thread's step does: the fields after it, where the thread goes, and a goroutine it starts. */
  datatype Move = Move(shared: Shared, next: Thread, spawn: Option<Thread>)

  // ---------------------------------------------------------------- building blocks

  function Goto(c: Shared, next: Thread): Move {
    Move(c, next, None)
  }

  /** newConnection succeeds; the thread holds the new connection. */
  function Dial(c: Shared, next: Thread): Move {
    Move(c.(created := c.created + 1), next, None)
  }

  function Close(c: Shared, conn: nat, next: Thread): Move {
    Move(c.(closes := c.closes + multiset{conn}), next, None)
  }

  function Install(c: Shared, conn: nat, next: Thread): Move {
    Move(c.(installed := Some(conn), connected := true), next, None)
  }

  function Uninstall(c: Shared, next: Thread): Move {
    Move(c.(installed := None, connected := false), next, None)
  }

  function SetFlag(c: Shared, flag: bool, next: Thread): Move {
    Move(c.(flag := flag), next, None)
  }

  function Bump(c: Shared, next: Thread): Move {
    Move(c.(sequence := c.sequence + 1), next, None)
  }

  /** Calls the stored cancel function, if any, and stores another or none. */
  function Cancel(c: Shared, cancel: Option<nat>, next: Thread): Move {
    var cancelled := if c.bgCancel.Some? then c.cancelled + {c.bgCancel.value} else c.cancelled;
    Move(c.(cancelled := cancelled, bgCancel := cancel), next, None)
  }

  function Lock(c: Shared, next: Thread): Move {
    Move(c.(locked := true), next, None)
  }

  function Unlock(c: Shared, next: Thread): Move {
    Move(c.(locked := false), next, None)
  }

  // ---------------------------------------------------------------- steps

  /** Locks block, nothing else does. */
  predicate Unblocked(c: Shared, thread: Thread) {
    !thread.Done? && (thread.CallStart? || thread.LoopExit? || thread.DiscCancel? ==> !c.locked)
  }

  /** doWithReconnect; `ok` is what the outside world answers at this point. */
  function CallStep(c: Shared, thread: Thread, ok: bool): Move
    requires thread.Calls()
  {
    match thread
    case CallEnter => Goto(c, if c.flag then Done else CallRequest)
    case CallRequest => Goto(c, if ok then Done else CallCheck)
    case CallCheck => Goto(c, if c.connected then CallClaim else Done)
    case CallClaim => if c.flag then Goto(c, Done) else SetFlag(c, true, CallDial)
    case CallDial => if ok then Dial(c, CallWait(c.created)) else Goto(c, CallDecide)
    case CallWait(conn) => Goto(c, if ok then CallInstall(conn) else CallDiscard(conn))
    case CallInstall(conn) =>
      if !c.connected then Goto(c, CallDiscard(conn))
      else Install(c, conn, if c.installed.Some? then CallCloseOld(c.installed.value) else CallClear)
    case CallCloseOld(conn) => Close(c, conn, CallClear)
    case CallClear => SetFlag(c, false, CallRetry)
    case CallRetry => Goto(c, Done)
    case CallDiscard(conn) => Close(c, conn, CallDecide)
    case CallDecide => Goto(c, if c.connected then CallBump else CallGiveUp)
    case CallBump => Bump(c, CallStart(c.sequence + 1))
    case CallStart(seqno) => Cancel(c, Some(seqno), CallGo(seqno))
    case CallGo(seqno) => Move(c, Done, Some(LoopTop(seqno)))
    case CallGiveUp => SetFlag(c, false, Done)
  }

  /** backgroundReconnect; a false `ok` where the context is examined is its one-hour timeout. */
  function LoopStep(c: Shared, thread: Thread, ok: bool): Move
    requires thread.Loops()
  {
    var live := ok && thread.seqno !in c.cancelled;
    match thread
    case LoopTop(seqno) => Goto(c, if live && c.connected then LoopDial(seqno) else LoopExit(seqno))
    case LoopDial(seqno) => if ok then Dial(c, LoopWait(seqno, c.created)) else Goto(c, LoopPause(seqno))
    case LoopWait(seqno, conn) =>
      Goto(c, if ok then LoopInstall(seqno, conn) else LoopDiscard(seqno, conn, false))
    case LoopInstall(seqno, conn) =>
      if !c.connected || !live then Goto(c, LoopDiscard(seqno, conn, true))
      else Install(c, conn, if c.installed.Some? then LoopCloseOld(seqno, c.installed.value) else LoopExit(seqno))
    case LoopCloseOld(seqno, conn) => Close(c, conn, LoopExit(seqno))
    case LoopDiscard(seqno, conn, leaving) =>
      Close(c, conn, if leaving then LoopExit(seqno) else LoopPause(seqno))
    case LoopPause(seqno) => Goto(c, if live then LoopTop(seqno) else LoopExit(seqno))
    case LoopExit(seqno) => Lock(c, LoopCompare(seqno))
    case LoopCompare(seqno) => if c.sequence == seqno then Goto(c, LoopStore(seqno)) else Unlock(c, Done)
    case LoopStore(_) => Unlock(c.(flag := false, bgCancel := None), Done)
  }

  /** Connect and Disconnect. */
  function LinkStep(c: Shared, thread: Thread, ok: bool): Move
    requires !thread.Calls() && !thread.Loops() && !thread.Done?
  {
    match thread
    case ConnectDial => if ok then Dial(c, ConnectInstall(c.created)) else Goto(c, Done)
    case ConnectInstall(conn) => if c.connected then Goto(c, ConnectDiscard(conn)) else Install(c, conn, Done)
    case ConnectDiscard(conn) => Close(c, conn, Done)
    case DiscBump => Bump(c, DiscCancel)
    case DiscCancel => Cancel(c, None, DiscClear)
    case DiscClear => SetFlag(c, false, DiscTake)
    case DiscTake => Uninstall(c, if c.installed.Some? then DiscClose(c.installed.value) else Done)
    case DiscClose(conn) => Close(c, conn, Done)
  }

  function StepOf(c: Shared, thread: Thread, ok: bool): Move
    requires !thread.Done?
  {
    if thread.Calls() then CallStep(c, thread, ok)
    else if thread.Loops() then LoopStep(c, thread, ok)
    else LinkStep(c, thread, ok)
  }

  // ---------------------------------------------------------------- runs

  /** `runs`: how often each thread has run its request. */
  datatype State = State(shared: Shared, threads: seq<Thread>, runs: seq<nat>)

  const INITIAL := State(Shared(false, None, false, 0, None, false, {}, 0, multiset{}), [], [])

  datatype Event = Begin(thread: Thread) | Take(t: nat, ok: bool)

  /** Calls, Connect and Disconnect may begin at any time, any number of them. */
  predicate CanHappen(s: State, event: Event) {
    match event
    case Begin(thread) => thread.CallEnter? || thread.ConnectDial? || thread.DiscBump?
    case Take(t, _) => t < |s.threads| && t < |s.runs| && Unblocked(s.shared, s.threads[t])
  }

  function Ran(thread: Thread, next: Thread): nat {
    if thread != next && (next.CallRequest? || next.CallRetry?) then 1 else 0
  }

  function After(s: State, t: nat, m: Move): State
    requires t < |s.threads| && t < |s.runs|
  {
    var threads := s.threads[t := m.next];
    var runs := s.runs[t := s.runs[t] + Ran(s.threads[t], m.next)];
    if m.spawn.Some? then State(m.shared, threads + [m.spawn.value], runs + [0]) else State(m.shared, threads, runs)
  }

  function Next(s: State, event: Event): State
    requires CanHappen(s, event)
  {
    match event
    case Begin(thread) => s.(threads := s.threads + [thread], runs := s.runs + [0])
    case Take(t, ok) => After(s, t, StepOf(s.shared, s.threads[t], ok))
  }

  ghost predicate CanRun(s: State, run: seq<Event>)
    decreases |run|
  {
    run == [] || (CanHappen(s, run[0]) && CanRun(Next(s, run[0]), run[1..]))
  }

  ghost function Run(s: State, run: seq<Event>): State
    requires CanRun(s, run)
    decreases |run|
  {
    if run == [] then s else Run(Next(s, run[0]), run[1..])
  }
}
