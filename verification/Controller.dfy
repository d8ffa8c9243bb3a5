/**
 * The controller of one mount entry as a state machine.
 *
 * One step is one critical section of `entry.mutex`. `entry.operation` is the owner variable
 * `operation`, whose value is also the owner's program point. The goroutines and timers of the
 * entry are the sequence `threads`; a finished one is `Done`. Timers are never cancelled, so
 * whatever is proved rests on the generation fence alone. The results of probes, commands,
 * clocks and writes are the arguments of the actions.
 */
module Controller {
  import opened MountTypes

  const DEFAULT_MAX_ATTEMPTS := 5
  const EXIT_CONFIGURATION_INVALID := 10
  const EXIT_AUTHENTICATION_FAILED := 11

  datatype Policy = Policy(configuredAttempts: int, autoRemount: bool)

  function MaxAttempts(policy: Policy): nat {
    if policy.configuredAttempts > 0 then policy.configuredAttempts else DEFAULT_MAX_ATTEMPTS
  }

  /** What `command.Wait` reports. */
  datatype Exit = CleanExit | ExitStatus(code: int) | Signalled

  datatype FailureCode =
    | ConfigurationInvalid
    | AuthenticationFailed
    | CommandExited
    | StartFailure
    | MountTimeout

  function MountFailureCode(client: ClientType, exit: Exit): FailureCode {
    if client != Irodsfs then CommandExited
    else match exit
      case ExitStatus(code) =>
        if code == EXIT_CONFIGURATION_INVALID then ConfigurationInvalid
        else if code == EXIT_AUTHENTICATION_FAILED then AuthenticationFailed
        else CommandExited
      case _ => CommandExited
  }

  predicate IsNonRetryable(code: FailureCode) {
    code.ConfigurationInvalid? || code.AuthenticationFailed?
  }

  datatype Thread =
    | Process(gen: nat, chan: nat)          // waitForProcess inside command.Wait
    | Crashed(gen: nat, code: FailureCode)  // waitForProcess after deciding the exit was a crash
    | Watching(gen: nat, chan: nat)         // waitForMount polling
    | TimingOut(gen: nat)                   // handleMountTimeout before it owns entry.operation
    | RetryMountTimer(gen: nat)
    | RetryUnmountTimer(gen: nat)
    | Done

  /** Who owns `entry.operation`, and where that owner is. */
  datatype Operation =
    | Free
    | Creating(gen: nat)        // Mount, before repository.Create returns
    | Starting(gen: nat)        // startMount, before command.Start
    | Expired(gen: nat)         // failMountBeforeStart, timedOut set
    | StartFailed(gen: nat)     // finishMountStartFailure, exitDone closed
    | Launching(gen: nat)       // startMount, MOUNTING set, goroutines not yet started
    | TimeoutCleanup(gen: nat)  // handleMountTimeout, timedOut set
    | Tombstoning(gen: nat, wasUnmounting: bool, previousState: MountState)
    | Detaching(gen: nat)       // performUnmountAttempt, probing and unmounting
    | AwaitingExit(gen: nat, chan: nat)
    | Removing(gen: nat)        // child gone; data directory, then the record, are removed
    | Unregistering(gen: nat)
    | Stopping                  // shutdownEntry, stopping set
    | AwaitingStop(chan: nat)

  datatype Attempt = Attempt(parent: nat, gen: nat)

  datatype Entry = Entry(
    info: MountInfo,
    generation: nat,
    unmounting: bool,
    timedOut: bool,
    stopping: bool,
    persistent: bool,
    registered: bool,       // present in manager.mounts
    exitDone: nat,          // the current attempt's channel; channels are numbered as they are made
    closes: multiset<nat>,  // how often each channel has been closed
    operation: Operation,
    threads: seq<Thread>,
    pendingPersists: nat,   // goroutines between a critical section and their persistBestEffort
    // history
    restored: nat,          // the value of Attempt the entry was created with
    attempts: seq<Attempt>, // mount attempts begun: the generation that led to it, and its own
    children: seq<nat>,     // generations whose child process was started
    superseded: bool,       // some Unmount request bumped the generation
    accepted: bool,         // some Unmount request wrote its tombstone
    rejected: bool          // the last generation bump was an Unmount whose tombstone write failed
  )

  function NewEntry(info: MountInfo, operation: Operation, persists: nat): Entry {
    Entry(info, 1, false, false, false, false, true, 0, multiset{}, operation, [], persists,
          info.attempt, [Attempt(0, 1)], [], false, false, false)
  }

  /** The entry `Mount` registers. */
  function NewMount(id: string, config: MountConfig): Entry {
    NewEntry(MountInfo(id, config, PendingMount, 1, false), Creating(1), 0)
  }

  /** The entry `remount` registers for an ordinary record. */
  function Restore(record: MountRecord): Entry {
    NewEntry(record.info.(state := PendingMount), Starting(1), 1)
  }

  ghost predicate Initial(e: Entry) {
    || (exists id, config :: e == NewMount(id, config))
    || (exists record :: e == Restore(record))
  }

  function Gen(thread: Thread): nat {
    if thread.Done? then 0 else thread.gen
  }

  // ---------------------------------------------------------------- what no step does

  /** MOUNTED, now or to be restored by a rejected Unmount, has left its mark. */
  predicate Remembers(e: Entry) {
    && (e.info.state == Mounted ==> e.info.everMounted)
    && (e.operation.Tombstoning? && e.operation.previousState == Mounted ==> e.info.everMounted)
  }

  /**
   * The mount ID and configuration are kept, the generation never drops, no thread is handed a newer
   * generation, no unmount and no successful mount is forgotten, and what was begun or started stays on record.
   */
  predicate Follows(e: Entry, r: Entry) {
    && r.info.id == e.info.id && r.info.config == e.info.config && r.restored == e.restored
    && e.generation <= r.generation && |e.threads| <= |r.threads|
    && (forall i :: 0 <= i < |e.threads| ==> Gen(r.threads[i]) <= Gen(e.threads[i]))
    && (e.superseded ==> r.superseded) && (e.accepted ==> r.accepted)
    && e.attempts <= r.attempts && e.children <= r.children && (r.registered ==> e.registered)
    && (e.info.everMounted ==> r.info.everMounted) && (Remembers(e) ==> Remembers(r)) && (e.stopping ==> r.stopping)
  }

  /** No Mount and no Unmount request begins with the step. */
  predicate NoNewRequest(e: Entry, r: Entry) {
    (r.operation.Tombstoning? ==> e.operation.Tombstoning?) && (r.operation.Creating? ==> e.operation.Creating?)
  }

  /** A step that begins no request or mount attempt, starts no child, and changes neither registration nor intent. */
  predicate Quiet(e: Entry, r: Entry) {
    && Follows(e, r) && NoNewRequest(e, r) && r.attempts == e.attempts && r.children == e.children
    && r.registered == e.registered && r.superseded == e.superseded && r.accepted == e.accepted
    && r.persistent == e.persistent
  }

  /** Which of these a step may change, by the action it takes. */
  predicate Allowed(e: Entry, a: Action, r: Entry) {
    && Follows(e, r) && (a.UnmountRequested? || NoNewRequest(e, r))
    && (a.RetryMountFires? || r.attempts == e.attempts) && (a.StartSucceeds? || r.children == e.children)
    && (a.Unregister? || r.registered == e.registered) && (a.UnmountRequested? || r.superseded == e.superseded)
    && (a == TombstoneReturns(true) || r.accepted == e.accepted)
  }

  // ---------------------------------------------------------------- building blocks

  function Become(e: Entry, t: nat, thread: Thread): (r: Entry)
    requires t < |e.threads| && Gen(thread) <= Gen(e.threads[t])
    ensures Quiet(e, r) && r.operation == e.operation && r.info == e.info
  {
    e.(threads := e.threads[t := thread])
  }

  /** RETRY_WAIT with its timer; the timer exists from here on, although it is armed after the persist. */
  function WaitToRetry(e: Entry, timer: Thread): (r: Entry)
    ensures Quiet(e, r) && r.operation == e.operation
  {
    e.(info := e.info.(state := RetryWait), pendingPersists := e.pendingPersists + 1, threads := e.threads + [timer])
  }

  function Release(e: Entry): (r: Entry)
    ensures Quiet(e, r)
  {
    e.(operation := Free)
  }

  function GiveUp(e: Entry): (r: Entry)
    ensures Quiet(e, r) && r.operation == e.operation
  {
    e.(info := e.info.(state := Failed), pendingPersists := e.pendingPersists + 1)
  }

  function RecordMountFailure(policy: Policy, e: Entry, gen: nat, code: FailureCode): (r: Entry)
    ensures Quiet(e, r) && r.operation == e.operation
  {
    if e.generation != gen || e.unmounting then e
    else if !IsNonRetryable(code) && e.info.attempt < MaxAttempts(policy)
            && (!e.info.everMounted || policy.autoRemount) then
      WaitToRetry(e, RetryMountTimer(gen))
    else GiveUp(e)
  }

  function RecordTerminalMountFailure(e: Entry, gen: nat): (r: Entry)
    ensures Quiet(e, r) && r.operation == e.operation
  {
    if e.generation != gen || e.unmounting then e else GiveUp(e)
  }

  function RecordUnmountFailure(policy: Policy, e: Entry, gen: nat): (r: Entry)
    ensures Quiet(e, r) && r.operation == e.operation
  {
    if e.generation != gen then e
    else if e.info.attempt < MaxAttempts(policy) then WaitToRetry(e, RetryUnmountTimer(gen))
    else GiveUp(e)
  }

  // ---------------------------------------------------------------- actions

  datatype Action =
    | CreateReturns(ok: bool)
    | PrepareExpires
    | StartFails
    | RecordStartFailure
    | StartSucceeds
    | Launch
    | ProcessExits(t: nat, exit: Exit)
    | CrashHandled(t: nat, cleaned: bool)
    | MountObserved(t: nat)
    | WatchStops(t: nat)
    | DeadlinePasses(t: nat)
    | TimeoutFires(t: nat)
    | TimeoutCleaned(cleaned: bool)
    | RetryMountFires(t: nat)
    | UnmountRequested
    | TombstoneReturns(ok: bool)
    | UnmountFails
    | Detached
    | ExitSeen
    | DeleteReturns(ok: bool)
    | Unregister
    | RetryUnmountFires(t: nat)
    | ShutdownRequested
    | ShutdownDetached
    | ShutdownEnds
    | PersistReturns(ok: bool)
  {
    /** Whether the action is taken by one of the entry's goroutines or timers. */
    predicate ByThread() {
      || ProcessExits? || CrashHandled? || MountObserved? || WatchStops? || DeadlinePasses?
      || TimeoutFires? || RetryMountFires? || RetryUnmountFires?
    }

    /** Whether the action is taken by an owner of `entry.operation` that is mounting. */
    predicate Mounts() {
      || CreateReturns? || PrepareExpires? || StartFails? || RecordStartFailure? || StartSucceeds? || Launch?
      || TimeoutCleaned?
    }
  }

  predicate Enabled(e: Entry, a: Action) {
    match a
    case CreateReturns(_) => e.operation.Creating?
    case PrepareExpires => e.operation.Starting?
    case StartFails => e.operation.Starting? || e.operation.Expired?
    case RecordStartFailure => e.operation.StartFailed?
    case StartSucceeds => e.operation.Starting? && e.info.config.client != Unrecognized
    case Launch => e.operation.Launching?
    case ProcessExits(t, _) => t < |e.threads| && e.threads[t].Process?
    case CrashHandled(t, _) => t < |e.threads| && e.threads[t].Crashed?
    case MountObserved(t) => t < |e.threads| && e.threads[t].Watching?
    case WatchStops(t) =>
      && t < |e.threads| && e.threads[t].Watching?
      && e.closes[e.threads[t].chan] > 0
      && (e.persistent || e.threads[t].gen != e.generation || e.info.state in {Failed, RetryWait})
    case DeadlinePasses(t) => t < |e.threads| && e.threads[t].Watching?
    case TimeoutFires(t) => t < |e.threads| && e.threads[t].TimingOut? && e.operation.Free?
    case TimeoutCleaned(_) => e.operation.TimeoutCleanup?
    case RetryMountFires(t) => t < |e.threads| && e.threads[t].RetryMountTimer? && e.operation.Free?
    case UnmountRequested => e.operation.Free? && e.registered
    case TombstoneReturns(_) => e.operation.Tombstoning?
    case UnmountFails => e.operation.Detaching? || e.operation.AwaitingExit? || e.operation.Removing?
    case Detached => e.operation.Detaching?
    case ExitSeen => e.operation.AwaitingExit? && e.closes[e.operation.chan] > 0
    case DeleteReturns(_) => e.operation.Removing?
    case Unregister => e.operation.Unregistering?
    case RetryUnmountFires(t) => t < |e.threads| && e.threads[t].RetryUnmountTimer? && e.operation.Free?
    case ShutdownRequested => e.operation.Free? && !e.unmounting
    case ShutdownDetached => e.operation.Stopping?
    case ShutdownEnds => e.operation.AwaitingStop? && e.closes[e.operation.chan] > 0
    case PersistReturns(_) => e.pendingPersists > 0
  }

  /** waitForProcess after command.Wait: closes this attempt's channel, then decides "crashed". */
  function AfterProcessExit(e: Entry, t: nat, exit: Exit): (r: Entry)
    requires t < |e.threads| && e.threads[t].Process?
    ensures Quiet(e, r) && r.operation == e.operation && r.info == e.info
  {
    var Process(gen, chan) := e.threads[t];
    var stale := e.generation != gen;
    var crashed := !stale && !e.unmounting && !e.timedOut && !e.stopping && (e.persistent || exit != CleanExit);
    // entry.client is set whenever the generation matches, and is the configured client
    var next := if crashed then Crashed(gen, MountFailureCode(e.info.config.client, exit)) else Done;
    e.(threads := e.threads[t := next], closes := e.closes + multiset{chan})
  }

  function AfterMountObserved(e: Entry, t: nat): (r: Entry)
    requires t < |e.threads| && e.threads[t].Watching?
    ensures Quiet(e, r) && r.operation == e.operation
  {
    var transitioned := e.generation == e.threads[t].gen && e.info.state == Mounting && !e.unmounting;
    var e1 := Become(e, t, Done);
    if transitioned then
      e1.(info := e.info.(state := Mounted, everMounted := true), pendingPersists := e.pendingPersists + 1)
    else e1
  }

  function AfterTimeoutFires(e: Entry, t: nat): (r: Entry)
    requires t < |e.threads| && e.threads[t].TimingOut?
    ensures Quiet(e, r) && r.threads == e.threads[t := Done] && r.info == e.info
  {
    var gen := e.threads[t].gen;
    var e1 := Become(e, t, Done);
    if e.generation != gen || e.unmounting || e.info.state == Mounted then e1
    else e1.(timedOut := true, operation := TimeoutCleanup(gen))
  }

  function AfterRetryMountFires(e: Entry, t: nat): (r: Entry)
    requires t < |e.threads| && e.threads[t].RetryMountTimer?
    ensures Allowed(e, RetryMountFires(t), r)
  {
    var gen := e.threads[t].gen;
    var e1 := Become(e, t, Done);
    if e.generation != gen || e.unmounting then e1
    else e1.(generation := gen + 1, info := e.info.(attempt := e.info.attempt + 1, state := PendingMount),
             exitDone := e.exitDone + 1, timedOut := false, persistent := false,
             pendingPersists := e.pendingPersists + 1, operation := Starting(gen + 1),
             attempts := e.attempts + [Attempt(gen, gen + 1)])
  }

  function AfterRetryUnmountFires(e: Entry, t: nat): (r: Entry)
    requires t < |e.threads| && e.threads[t].RetryUnmountTimer?
    ensures Quiet(e, r)
  {
    var gen := e.threads[t].gen;
    var e1 := Become(e, t, Done);
    if e.generation != gen || !e.unmounting then e1
    else e1.(generation := gen + 1, info := e.info.(attempt := e.info.attempt + 1, state := Unmounting),
             pendingPersists := e.pendingPersists + 1, operation := Detaching(gen + 1), rejected := false)
  }

  function AfterUnmountRequested(e: Entry): (r: Entry)
    ensures Allowed(e, UnmountRequested, r)
  {
    e.(generation := e.generation + 1, unmounting := true,
       info := e.info.(state := Unmounting, attempt := if e.unmounting then e.info.attempt else 1),
       operation := Tombstoning(e.generation + 1, e.unmounting, e.info.state),
       superseded := true, rejected := false)
  }

  function AfterTombstoneReturns(e: Entry, ok: bool): (r: Entry)
    requires e.operation.Tombstoning?
    ensures Allowed(e, TombstoneReturns(ok), r)
  {
    if ok then e.(operation := Detaching(e.operation.gen), accepted := true)
    else e.(unmounting := e.operation.wasUnmounting, info := e.info.(state := e.operation.previousState),
            operation := Free, rejected := true)
  }

  function AfterCreate(e: Entry, ok: bool): (r: Entry)
    requires e.operation.Creating?
    ensures Quiet(e, r) && r.threads == e.threads
  {
    if ok then e.(operation := Starting(e.operation.gen))
    else e.(info := e.info.(state := Failed), closes := e.closes + multiset{e.exitDone}, operation := Free)
  }

  function AfterPrepareExpires(e: Entry): (r: Entry)
    requires e.operation.Starting?
    ensures Quiet(e, r) && r.threads == e.threads
  {
    e.(timedOut := true, operation := Expired(e.operation.gen))
  }

  function AfterStartFails(e: Entry): (r: Entry)
    requires e.operation.Starting? || e.operation.Expired?
    ensures Quiet(e, r) && r.threads == e.threads
  {
    e.(closes := e.closes + multiset{e.exitDone}, operation := StartFailed(e.operation.gen))
  }

  function AfterStartSucceeds(e: Entry): (r: Entry)
    requires e.operation.Starting?
    ensures Allowed(e, StartSucceeds, r) && r.threads == e.threads
  {
    e.(persistent := e.info.config.client == Irodsfs, info := e.info.(state := Mounting),
       pendingPersists := e.pendingPersists + 1, operation := Launching(e.operation.gen),
       children := e.children + [e.operation.gen])
  }

  function AfterLaunch(e: Entry): (r: Entry)
    requires e.operation.Launching?
    ensures Quiet(e, r)
  {
    e.(threads := e.threads + [Process(e.operation.gen, e.exitDone), Watching(e.operation.gen, e.exitDone)],
       operation := Free)
  }

  function AfterTimeoutCleaned(policy: Policy, e: Entry, cleaned: bool): (r: Entry)
    requires e.operation.TimeoutCleanup?
    ensures Quiet(e, r)
  {
    if cleaned then RecordMountFailure(policy, Release(e), e.operation.gen, MountTimeout)
    else RecordTerminalMountFailure(Release(e), e.operation.gen)
  }

  function AfterUnregister(e: Entry): (r: Entry)
    ensures Allowed(e, Unregister, r)
  {
    e.(registered := false, operation := Free)
  }

  function AfterShutdownRequested(e: Entry): (r: Entry)
    ensures Quiet(e, r)
  {
    e.(stopping := true, operation := Stopping)
  }

  function AfterShutdownEnds(e: Entry): (r: Entry)
    ensures Quiet(e, r)
  {
    e.(info := e.info.(state := PendingMount), pendingPersists := e.pendingPersists + 1, operation := Free)
  }

  function AfterPersist(e: Entry): (r: Entry)
    requires e.pendingPersists > 0
    ensures Quiet(e, r)
  {
    e.(pendingPersists := e.pendingPersists - 1)
  }

  /** A step that only moves the owner of `entry.operation` on. */
  function Proceed(e: Entry, op: Operation): (r: Entry)
    requires !op.Tombstoning? && !op.Creating?
    ensures Quiet(e, r)
  {
    e.(operation := op)
  }

  /** The steps of the owner of `entry.operation` while it mounts. */
  function MountStep(policy: Policy, e: Entry, a: Action): (r: Entry)
    requires Enabled(e, a) && a.Mounts()
    ensures Allowed(e, a, r)
  {
    match a
    case CreateReturns(ok) => AfterCreate(e, ok)
    case PrepareExpires => AfterPrepareExpires(e)
    case StartFails => AfterStartFails(e)
    case RecordStartFailure => RecordMountFailure(policy, Release(e), e.operation.gen, StartFailure)
    case StartSucceeds => AfterStartSucceeds(e)
    case Launch => AfterLaunch(e)
    case TimeoutCleaned(cleaned) => AfterTimeoutCleaned(policy, e, cleaned)
  }

  /** The steps of the entry's goroutines and timers. */
  function ThreadStep(policy: Policy, e: Entry, a: Action): (r: Entry)
    requires Enabled(e, a) && a.ByThread()
    ensures Allowed(e, a, r)
  {
    match a
    case ProcessExits(t, exit) => AfterProcessExit(e, t, exit)
    case CrashHandled(t, cleaned) =>
      if cleaned then RecordMountFailure(policy, Become(e, t, Done), e.threads[t].gen, e.threads[t].code)
      else RecordTerminalMountFailure(Become(e, t, Done), e.threads[t].gen)
    case MountObserved(t) => AfterMountObserved(e, t)
    case WatchStops(t) => Become(e, t, Done)
    case DeadlinePasses(t) => Become(e, t, TimingOut(e.threads[t].gen))
    case TimeoutFires(t) => AfterTimeoutFires(e, t)
    case RetryMountFires(t) => AfterRetryMountFires(e, t)
    case RetryUnmountFires(t) => AfterRetryUnmountFires(e, t)
  }

  /** The steps of Unmount, of shutdown, and of a best-effort persist. */
  function UnmountStep(policy: Policy, e: Entry, a: Action): (r: Entry)
    requires Enabled(e, a) && !a.Mounts() && !a.ByThread()
    ensures Allowed(e, a, r)
  {
    match a
    case UnmountRequested => AfterUnmountRequested(e)
    case TombstoneReturns(ok) => AfterTombstoneReturns(e, ok)
    case UnmountFails => RecordUnmountFailure(policy, Release(e), e.operation.gen)
    case Detached => Proceed(e, AwaitingExit(e.operation.gen, e.exitDone))
    case ExitSeen => Proceed(e, Removing(e.operation.gen))
    case DeleteReturns(_) => Proceed(e, Unregistering(e.operation.gen))
    case Unregister => AfterUnregister(e)
    case ShutdownRequested => AfterShutdownRequested(e)
    case ShutdownDetached => Proceed(e, AwaitingStop(e.exitDone))
    case ShutdownEnds => AfterShutdownEnds(e)
    case PersistReturns(_) => AfterPersist(e)
  }

  function Apply(policy: Policy, e: Entry, a: Action): (r: Entry)
    requires Enabled(e, a)
    ensures Allowed(e, a, r)
  {
    if a.ByThread() then ThreadStep(policy, e, a)
    else if a.Mounts() then MountStep(policy, e, a)
    else UnmountStep(policy, e, a)
  }

  // ---------------------------------------------------------------- runs

  ghost predicate CanRun(policy: Policy, e: Entry, run: seq<Action>)
    decreases |run|
  {
    run == [] || (Enabled(e, run[0]) && CanRun(policy, Apply(policy, e, run[0]), run[1..]))
  }

  ghost function Run(policy: Policy, e: Entry, run: seq<Action>): Entry
    requires CanRun(policy, e, run)
    decreases |run|
  {
    if run == [] then e else Run(policy, Apply(policy, e, run[0]), run[1..])
  }
}
