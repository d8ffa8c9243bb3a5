/** Concrete runs in which a persist overwrites a record it should not, and what is lost by it. */
module OverwriteWitnesses {
  import opened MountTypes
  import opened Paths
  import opened Controller
  import opened Repository
  import opened Durable
  import opened DurableProofs
  import opened DurableTheorems
  import R = Reconcile
  import L = Ledger

  ghost predicate Reachable(policy: Policy, s: System) {
    exists run :: CanHappenAll(policy, INITIAL, run) && s == NextAll(policy, INITIAL, run)
  }

  lemma ReachableInv(policy: Policy, s: System)
    requires Reachable(policy, s)
    ensures SystemInv(policy, s)
  {
    var run :| CanHappenAll(policy, INITIAL, run) && s == NextAll(policy, INITIAL, run);
    InitialSystemInv(policy);
    RunKeepsInv(policy, INITIAL, run);
  }

  lemma {:induction false} RunThen(policy: Policy, s: System, run: seq<Event>, event: Event)
    requires CanHappenAll(policy, s, run) && RegistryInRange(NextAll(policy, s, run))
    requires CanHappen(NextAll(policy, s, run), event)
    ensures CanHappenAll(policy, s, run + [event])
    ensures NextAll(policy, s, run + [event]) == Next(policy, NextAll(policy, s, run), event)
    decreases |run|
  {
    if run == [] {
      assert CanHappenAll(policy, Next(policy, s, event), []);
    } else {
      RunThen(policy, Next(policy, s, run[0]), run[1..], event);
      assert (run + [event])[1..] == run[1..] + [event];
    }
  }

  lemma Extend(policy: Policy, s: System, event: Event) returns (s': System)
    requires Reachable(policy, s) && RegistryInRange(s) && CanHappen(s, event)
    ensures s' == Next(policy, s, event) && Reachable(policy, s')
  {
    var run :| CanHappenAll(policy, INITIAL, run) && s == NextAll(policy, INITIAL, run);
    RunThen(policy, INITIAL, run, event);
    s' := Next(policy, s, event);
  }

  predicate Acceptable(id: string, config: MountConfig) {
    id != "" && Rooted(config.path) && Clean(config.path) == config.path && config.client != Unrecognized
  }

  // ---------------------------------------------------------------- a daemon with one entry

  /** What the histories of a daemon with at most one entry hold. */
  datatype Past = Past(final: set<string>, hasty: set<string>, spawned: seq<string>)

  const NOTHING := Past({}, {}, [])

  /** A serving daemon whose only entry is `o`. */
  function Single(repo: Repo, o: Object, past: Past): System {
    System(repo, [o], map[o.entry.info.id := 0], L.Serving, {}, past.final, past.hasty, {}, false, past.spawned)
  }

  lemma Step(policy: Policy, repo: Repo, o: Object, past: Past, a: Action) returns (o': Object)
    requires Reachable(policy, Single(repo, o, past)) && Enabled(o.entry, a)
    requires !WritesRecord(a) && !a.Unregister? && !a.StartSucceeds?
    ensures o' == Object(Apply(policy, o.entry, a), o.owns) && Reachable(policy, Single(repo, o', past))
  {
    o' := Object(Apply(policy, o.entry, a), o.owns);
    var s := Single(repo, o, past);
    assert CanHappen(s, EntryStep(0, a));
    var s' := Extend(policy, s, EntryStep(0, a));
    assert s' == Single(repo, o', past);
  }

  /** A daemon that serves without any entry. */
  function Idle(repo: Repo, past: Past): System {
    System(repo, [], map[], L.Serving, {}, past.final, {}, {}, false, past.spawned)
  }

  lemma IdleAtFirst(policy: Policy)
    ensures Reachable(policy, Idle(EMPTY, NOTHING))
  {
    assert CanHappenAll(policy, INITIAL, []) && NextAll(policy, INITIAL, []) == INITIAL;
    var s := Extend(policy, INITIAL, Boot(false));
    assert s.listed == {};
    s := Extend(policy, s, Serve);
    assert s == Idle(EMPTY, NOTHING);
  }

  lemma Accept(policy: Policy, repo: Repo, past: Past, id: string, config: MountConfig) returns (o: Object)
    requires Reachable(policy, Idle(repo, past)) && Acceptable(id, config) && past.hasty == {}
    ensures o == Object(NewMount(id, config), false) && Reachable(policy, Single(repo, o, past))
  {
    o := Object(NewMount(id, config), false);
    assert config.(path := Clean(config.path)) == config;
    var s := Extend(policy, Idle(repo, past), MountRequest(id, config));
    assert s == Single(repo, o, past);
  }

  /** The only record is that of `id`. */
  predicate Holds(repo: Repo, id: string, config: MountConfig, tombstone: bool) {
    && repo.records.Keys == {id} && repo.records[id].tombstone == tombstone
    && repo.records[id].info.id == id && repo.records[id].info.config == config
  }

  /** An entry of this mount; its channel is the first. */
  predicate Is(e: Entry, id: string, config: MountConfig) {
    e.info.id == id && e.info.config == config && e.exitDone == 0 && e.registered
  }

  // ---------------------------------------------------------------- a mount that has just become MOUNTED

  lemma Recorded(policy: Policy, id: string, config: MountConfig) returns (repo: Repo, o: Object)
    requires Acceptable(id, config)
    ensures Reachable(policy, Single(repo, o, NOTHING)) && o.owns && Holds(repo, id, config, false)
    ensures Is(o.entry, id, config) && o.entry == AfterCreate(NewMount(id, config), true)
  {
    IdleAtFirst(policy);
    var o0 := Accept(policy, EMPTY, NOTHING, id, config);
    var s := Single(EMPTY, o0, NOTHING);
    assert Create(EMPTY, InfoToWrite(o0.entry, false)).Stored?;
    s := Extend(policy, s, EntryStep(0, CreateReturns(true)));
    repo, o := s.repo, s.objects[0];
    assert s == Single(repo, o, NOTHING);
  }

  /** A child of this mount was started. */
  function Spawned(id: string): Past {
    Past({}, {}, [id])
  }

  lemma Started(policy: Policy, id: string, config: MountConfig) returns (repo: Repo, o: Object)
    requires Acceptable(id, config)
    ensures Reachable(policy, Single(repo, o, Spawned(id))) && o.owns && Holds(repo, id, config, false)
    ensures Is(o.entry, id, config) && o.entry.operation == Launching(1) && o.entry.threads == []
    ensures o.entry.generation == 1 && o.entry.pendingPersists == 1 && !o.entry.unmounting && !o.entry.accepted
    ensures o.entry.info.state == Mounting
  {
    var o1;
    repo, o1 := Recorded(policy, id, config);
    var s := Extend(policy, Single(repo, o1, NOTHING), EntryStep(0, StartSucceeds));
    o := s.objects[0];
    assert s == Single(repo, o, Spawned(id));
  }

  /** A persist by the owner of the only record, which is not being unmounted. */
  lemma Persisted(policy: Policy, repo: Repo, o: Object, past: Past, id: string, config: MountConfig)
    returns (repo': Repo, o': Object)
    requires Reachable(policy, Single(repo, o, past)) && o.owns && Holds(repo, id, config, false) && past.hasty == {}
    requires Is(o.entry, id, config) && o.entry.pendingPersists > 0 && !o.entry.unmounting && Acceptable(id, config)
    ensures Reachable(policy, Single(repo', o', past)) && Holds(repo', id, config, false)
    ensures o' == Object(AfterPersist(o.entry), true)
  {
    var s := Single(repo, o, past);
    assert Update(repo, InfoToWrite(o.entry, false)).Stored?;
    s := Extend(policy, s, EntryStep(0, PersistReturns(true)));
    repo', o' := s.repo, s.objects[0];
    assert s == Single(repo', o', past);
  }

  lemma Launched(policy: Policy, id: string, config: MountConfig) returns (repo: Repo, o: Object)
    requires Acceptable(id, config)
    ensures Reachable(policy, Single(repo, o, Spawned(id))) && o.owns && Holds(repo, id, config, false)
    ensures Is(o.entry, id, config) && o.entry.operation == Free && o.entry.pendingPersists == 0
    ensures o.entry.threads == [Process(1, 0), Watching(1, 0)] && o.entry.generation == 1
    ensures !o.entry.unmounting && !o.entry.accepted && o.entry.info.state == Mounting
  {
    repo, o := Started(policy, id, config);
    repo, o := Persisted(policy, repo, o, Spawned(id), id, config);
    o := Step(policy, repo, o, Spawned(id), Launch);
  }

  /** waitForMount sees the mount; its persist, which it makes without the operation lock, is still to come. */
  lemma JustMounted(policy: Policy, id: string, config: MountConfig) returns (repo: Repo, o: Object)
    requires Acceptable(id, config)
    ensures Reachable(policy, Single(repo, o, Spawned(id))) && o.owns && Holds(repo, id, config, false)
    ensures Is(o.entry, id, config) && o.entry.operation == Free && o.entry.pendingPersists == 1
    ensures o.entry.threads == [Process(1, 0), Done] && o.entry.generation == 1
    ensures !o.entry.unmounting && !o.entry.accepted && o.entry.info.state == Mounted
  {
    repo, o := Launched(policy, id, config);
    o := Step(policy, repo, o, Spawned(id), MountObserved(1));
  }

  /** An Unmount is in flight, and the persist of waitForMount still to come. */
  lemma Unmounting(policy: Policy, id: string, config: MountConfig) returns (repo: Repo, o: Object)
    requires Acceptable(id, config)
    ensures Reachable(policy, Single(repo, o, Spawned(id))) && o.owns && Holds(repo, id, config, false)
    ensures Is(o.entry, id, config) && o.entry.operation == Tombstoning(2, false, Mounted)
    ensures o.entry.pendingPersists == 1 && o.entry.unmounting && !o.entry.accepted && o.entry.generation == 2
    ensures o.entry.threads == [Process(1, 0), Done]
  {
    repo, o := JustMounted(policy, id, config);
    o := Step(policy, repo, o, Spawned(id), UnmountRequested);
  }

  /** It is accepted. */
  lemma Tombstoned(policy: Policy, id: string, config: MountConfig) returns (repo: Repo, o: Object)
    requires Acceptable(id, config)
    ensures Reachable(policy, Single(repo, o, Past({id}, {}, [id]))) && o.owns && Holds(repo, id, config, true)
    ensures Is(o.entry, id, config) && o.entry.operation == Detaching(2) && o.entry.pendingPersists == 1
    ensures o.entry.accepted && o.entry.unmounting && o.entry.threads == [Process(1, 0), Done]
    ensures o.entry.generation == 2
  {
    var o1;
    repo, o1 := Unmounting(policy, id, config);
    var s := Single(repo, o1, Spawned(id));
    assert Update(repo, InfoToWrite(o1.entry, true)).Stored?;
    s := Extend(policy, s, EntryStep(0, TombstoneReturns(true)));
    repo, o := s.repo, s.objects[0];
    assert s == Single(repo, o, Past({id}, {}, [id]));
  }

  // ---------------------------------------------------------------- restarts

  lemma OnlyRecord(repo: Repo, id: string, config: MountConfig, tombstone: bool, restore: bool)
    requires Holds(repo, id, config, tombstone)
    ensures L.Tombstones(repo) == if tombstone then {id} else {}
    ensures L.Listing(repo, restore) == if tombstone || restore then {repo.records[id]} else {}
  {
  }

  /** A crash and the start of the next process, over a single record. */
  lemma Rebooted(policy: Policy, s: System, id: string, config: MountConfig, tombstone: bool, restore: bool)
    returns (s': System)
    requires Reachable(policy, s) && RegistryInRange(s) && Holds(s.repo, id, config, tombstone)
    ensures Reachable(policy, s') && s'.repo == s.repo && s'.objects == [] && s'.registry == map[]
    ensures s'.phase == L.Booting && s'.final == (if tombstone then {id} else {}) && s'.hasty == {}
    ensures s'.listed == if tombstone || restore then {s.repo.records[id]} else {}
    ensures s'.foreign == {} && s'.moved == !Consistent(s.repo) && s'.spawned == s.spawned
  {
    OnlyRecord(s.repo, id, config, tombstone, restore);
    s' := Extend(policy, s, Crash);
    s' := Extend(policy, s', Boot(restore));
  }

  lemma ReachableConsistent(policy: Policy, s: System)
    requires Reachable(policy, s)
    ensures RegistryInRange(s) && (!s.moved ==> Consistent(s.repo))
  {
    ReachableInv(policy, s);
    InRange(s);
  }

  const CALM := R.Faults(R.NotMounted, R.DetachDone, true, true, true)

  /** A crash and a fault-free restoring start of a daemon whose only record is a tombstone. */
  lemma Forgets(policy: Policy, s: System, id: string, config: MountConfig) returns (s': System)
    requires Reachable(policy, s) && Holds(s.repo, id, config, true) && id != ""
    ensures Reachable(policy, s') && s'.phase == L.Serving && id !in s'.repo.records && id !in s'.registry
  {
    ReachableConsistent(policy, s);
    var record := s.repo.records[id];
    s' := Rebooted(policy, s, id, config, true, true);
    s' := Extend(policy, s', ReconcileListed(record, CALM));
    s' := Extend(policy, s', Serve);
  }

  // ---------------------------------------------------------------- an entry whose Create failed

  /** The process restarts, and its reconciler cannot probe the tombstone's path. */
  lemma TombstoneLeft(policy: Policy, id: string, config: MountConfig) returns (repo: Repo, past: Past)
    requires Acceptable(id, config)
    ensures Reachable(policy, Idle(repo, past)) && Holds(repo, id, config, true) && past == Past({id}, {}, [id])
  {
    var o;
    repo, o := Tombstoned(policy, id, config);
    past := Past({id}, {}, [id]);
    ReachableConsistent(policy, Single(repo, o, past));
    var s := Rebooted(policy, Single(repo, o, past), id, config, true, false);
    var faults := R.Faults(R.ProbeError, R.DetachError, false, false, false);
    s := Extend(policy, s, ReconcileListed(repo.records[id], faults));
    s := Extend(policy, s, Serve);
    assert s == Idle(repo, past);
  }

  /** A Mount whose Create is refused. */
  lemma Refuse(policy: Policy, repo: Repo, past: Past, id: string, config: MountConfig) returns (o: Object)
    requires Acceptable(id, config) && Reachable(policy, Idle(repo, past)) && past.hasty == {}
    ensures Reachable(policy, Single(repo, o, past)) && !o.owns && Is(o.entry, id, config)
    ensures o.entry.operation == Free && o.entry.threads == [] && o.entry.closes[0] > 0 && o.entry.generation == 1
    ensures !o.entry.unmounting && !o.entry.accepted && o.entry.pendingPersists == 0 && o.entry.info.state == Failed
  {
    o := Accept(policy, repo, past, id, config);
    o := Step(policy, repo, o, past, CreateReturns(false));
  }

  /** A shutdown of an entry without a child, up to its persist. */
  lemma Stopped(policy: Policy, repo: Repo, o: Object, past: Past, id: string, config: MountConfig) returns (o': Object)
    requires Reachable(policy, Single(repo, o, past)) && o.entry.operation.Free? && !o.entry.unmounting
    requires Is(o.entry, id, config) && o.entry.closes[0] > 0
    ensures Reachable(policy, Single(repo, o', past)) && o'.owns == o.owns && !o'.entry.unmounting
    ensures Is(o'.entry, id, config) && o'.entry.pendingPersists > 0
  {
    o' := Step(policy, repo, o, past, ShutdownRequested);
    o' := Step(policy, repo, o', past, ShutdownDetached);
    o' := Step(policy, repo, o', past, ShutdownEnds);
  }

  /** The state is reachable, and in it a persist of object 0 makes a tombstone ordinary. */
  ghost predicate Revives(policy: Policy, s: System, id: string) {
    && Reachable(policy, s) && RegistryInRange(s) && s.foreign == {} && Buried(s.repo, id)
    && CanHappen(s, EntryStep(0, PersistReturns(true)))
    && Ordinary(Next(policy, s, EntryStep(0, PersistReturns(true))).repo, id)
  }

  lemma PersistWouldRevive(policy: Policy, repo: Repo, o: Object, id: string, config: MountConfig, past: Past)
    requires Acceptable(id, config) && Reachable(policy, Single(repo, o, past)) && Holds(repo, id, config, true)
    requires Is(o.entry, id, config) && o.entry.pendingPersists > 0 && !o.entry.unmounting
    ensures Revives(policy, Single(repo, o, past), id)
  {
    var s := Single(repo, o, past);
    assert CanHappen(s, EntryStep(0, PersistReturns(true)));
    var repo' := PersistWrites(policy, s, 0);
  }

  /**
   * A final tombstone, and the persist at the end of an ordinary shutdown about to make it an ordinary
   * record again: the entry was registered by a Mount of the same ID, whose Create the repository refused.
   */
  lemma RevivedTombstoneExists(policy: Policy, id: string, config: MountConfig) returns (s: System)
    requires Acceptable(id, config)
    ensures Revives(policy, s, id) && id in s.final && !s.objects[0].owns
  {
    var repo, past := TombstoneLeft(policy, id, config);
    var o := Refuse(policy, repo, past, id, config);
    o := Stopped(policy, repo, o, past, id, config);
    s := Single(repo, o, past);
    PersistWouldRevive(policy, repo, o, id, config, past);
  }

  // ---------------------------------------------------------------- a refused Unmount

  /** waitForMount's persist writes the tombstone while the Unmount is in flight; then the Unmount is refused. */
  lemma Refused(policy: Policy, id: string, config: MountConfig) returns (repo: Repo, o: Object)
    requires Acceptable(id, config)
    ensures Reachable(policy, Single(repo, o, Past({}, {id}, [id]))) && o.owns && Holds(repo, id, config, true)
    ensures Is(o.entry, id, config) && o.entry.operation == Free && o.entry.info.state == Mounted
    ensures !o.entry.unmounting && o.entry.rejected
    ensures o.entry.threads == [Process(1, 0), Done] && o.entry.generation == 2
  {
    var o1;
    repo, o1 := Unmounting(policy, id, config);
    var s := Single(repo, o1, Spawned(id));
    assert Update(repo, InfoToWrite(o1.entry, true)).Stored?;
    s := Extend(policy, s, EntryStep(0, PersistReturns(true)));
    repo, o1 := s.repo, s.objects[0];
    assert s == Single(repo, o1, Past({}, {id}, [id]));
    o := Step(policy, repo, o1, Past({}, {id}, [id]), TombstoneReturns(false));
  }

  /** The child exits; its goroutine is of an old generation, so nothing else happens. */
  lemma Exited(policy: Policy, repo: Repo, o: Object, past: Past, id: string, config: MountConfig) returns (o': Object)
    requires Reachable(policy, Single(repo, o, past)) && Is(o.entry, id, config)
    requires o.entry.threads == [Process(1, 0), Done] && o.entry.generation == 2
    ensures Reachable(policy, Single(repo, o', past)) && o' == Object(AfterProcessExit(o.entry, 0, CleanExit), o.owns)
    ensures Is(o'.entry, id, config) && o'.entry.closes[0] > 0 && o'.entry.operation == o.entry.operation
    ensures o'.entry.pendingPersists == o.entry.pendingPersists && o'.entry.unmounting == o.entry.unmounting
  {
    o' := Step(policy, repo, o, past, ProcessExits(0, CleanExit));
  }

  /** The owner's own persist makes the tombstone of a refused Unmount ordinary again. */
  lemma RefusedUnmountRevived(policy: Policy, id: string, config: MountConfig) returns (s: System)
    requires Acceptable(id, config)
    ensures Revives(policy, s, id) && id in s.hasty && s.objects[0].owns
  {
    var past := Past({}, {id}, [id]);
    var repo, o := Refused(policy, id, config);
    o := Exited(policy, repo, o, past, id, config);
    o := Stopped(policy, repo, o, past, id, config);
    s := Single(repo, o, past);
    PersistWouldRevive(policy, repo, o, id, config, past);
  }

  /** A mount that is MOUNTED and whose Unmount was refused, and which a restart without any fault forgets. */
  lemma RefusedUnmountForgotten(policy: Policy, id: string, config: MountConfig) returns (s: System, s': System)
    requires Acceptable(id, config)
    ensures Reachable(policy, s) && |s.objects| == 1 && s.registry == map[id := 0] && s.objects[0].owns
    ensures s.objects[0].entry.rejected && !s.objects[0].entry.unmounting && s.objects[0].entry.info.state == Mounted
    ensures Reachable(policy, s') && s'.phase == L.Serving && id !in s'.repo.records && id !in s'.registry
  {
    var repo, o := Refused(policy, id, config);
    s := Single(repo, o, Past({}, {id}, [id]));
    s' := Forgets(policy, s, id, config);
  }

  // ---------------------------------------------------------------- an entry that is gone

  /** An unmounting entry of this mount that has a persist still to come. */
  predicate Late(e: Entry, id: string, config: MountConfig) {
    e.info.id == id && e.info.config == config && e.pendingPersists > 0 && e.unmounting
  }

  lemma Removing(policy: Policy, id: string, config: MountConfig) returns (repo: Repo, o: Object)
    requires Acceptable(id, config)
    ensures Reachable(policy, Single(repo, o, Past({id}, {}, [id])))
    ensures Holds(repo, id, config, true) && Consistent(repo)
    ensures o.entry.operation.Removing? && Late(o.entry, id, config)
  {
    var past := Past({id}, {}, [id]);
    repo, o := Tombstoned(policy, id, config);
    ReachableConsistent(policy, Single(repo, o, past));
    o := Step(policy, repo, o, past, Detached);
    o := Exited(policy, repo, o, past, id, config);
    o := Step(policy, repo, o, past, ExitSeen);
  }

  /** Its record is deleted. */
  lemma Deleted(policy: Policy, id: string, config: MountConfig) returns (s: System)
    requires Acceptable(id, config)
    ensures Reachable(policy, s) && s.phase == L.Serving && s.repo == EMPTY && s.registry == map[id := 0]
    ensures |s.objects| == 1 && Late(s.objects[0].entry, id, config) && s.objects[0].entry.operation.Unregistering?
    ensures s.foreign == {}
  {
    var repo, o := Removing(policy, id, config);
    assert forall p :: p in repo.paths ==> repo.paths[p] == id && p == Path(repo.records[id]);
    assert Delete(repo, id).Stored? && Delete(repo, id).repo == EMPTY;
    s := Extend(policy, Single(repo, o, Past({id}, {}, [id])), EntryStep(0, DeleteReturns(true)));
  }

  /** It is unregistered, and its ID and path are free again. */
  lemma Gone(policy: Policy, id: string, config: MountConfig) returns (s: System)
    requires Acceptable(id, config)
    ensures Reachable(policy, s) && s.phase == L.Serving && s.repo == EMPTY && s.registry == map[]
    ensures |s.objects| == 1 && Late(s.objects[0].entry, id, config) && s.foreign == {}
    ensures !s.objects[0].entry.registered
  {
    s := Deleted(policy, id, config);
    s := Extend(policy, s, EntryStep(0, Unregister));
  }

  /** A new Mount of the same ID stores its record. */
  lemma Succeeded(policy: Policy, id: string, config: MountConfig) returns (s: System)
    requires Acceptable(id, config)
    ensures Reachable(policy, s) && s.phase == L.Serving && s.registry == map[id := 1] && |s.objects| == 2
    ensures Late(s.objects[0].entry, id, config) && !s.objects[0].entry.registered
    ensures s.foreign == {} && Holds(s.repo, id, config, false)
    ensures s.objects[1].owns && !s.objects[1].entry.unmounting
  {
    s := Gone(policy, id, config);
    assert config.(path := Clean(config.path)) == config;
    s := Extend(policy, s, MountRequest(id, config));
    assert s.objects[1] == Object(NewMount(id, config), false);
    assert Create(s.repo, InfoToWrite(s.objects[1].entry, false)).Stored?;
    s := Extend(policy, s, EntryStep(1, CreateReturns(true)));
  }

  /**
   * The record of an active mount, about to be overwritten with a tombstone by waitForMount's persist of an
   * earlier entry of the same ID: both Creates succeeded, and the earlier entry's Unmount was carried out.
   */
  lemma PredecessorBuries(policy: Policy, id: string, config: MountConfig) returns (s: System, s': System)
    requires Acceptable(id, config)
    ensures Reachable(policy, s) && RegistryInRange(s) && s.foreign == {} && Ordinary(s.repo, id)
    ensures s.registry == map[id := 1] && |s.objects| == 2 && s.objects[1].owns && !s.objects[1].entry.unmounting
    ensures !s.objects[0].entry.registered && CanHappen(s, EntryStep(0, PersistReturns(true)))
    ensures s' == Next(policy, s, EntryStep(0, PersistReturns(true))) && Reachable(policy, s')
    ensures Holds(s'.repo, id, config, true) && s'.registry == map[id := 1] && s'.objects[1] == s.objects[1]
  {
    s := Succeeded(policy, id, config);
    assert Update(s.repo, InfoToWrite(s.objects[0].entry, true)).Stored?;
    s' := Extend(policy, s, EntryStep(0, PersistReturns(true)));
  }

  /** After that overwrite a restart without any fault forgets the active mount. */
  lemma SuccessorForgotten(policy: Policy, id: string, config: MountConfig) returns (s: System, s': System)
    requires Acceptable(id, config)
    ensures Reachable(policy, s) && s.registry == map[id := 1] && |s.objects| == 2
    ensures s.objects[1].owns && !s.objects[1].entry.unmounting
    ensures Reachable(policy, s') && s'.phase == L.Serving && id !in s'.repo.records && id !in s'.registry
  {
    var before;
    before, s := PredecessorBuries(policy, id, config);
    s' := Forgets(policy, s, id, config);
  }

  // ---------------------------------------------------------------- a record that was not restored

  /** A record is stored, and the next process does not restore it. */
  lemma Unrestored(policy: Policy, id: string, config: MountConfig) returns (repo: Repo)
    requires Acceptable(id, config)
    ensures Reachable(policy, Idle(repo, NOTHING)) && Holds(repo, id, config, false) && Consistent(repo)
  {
    var o;
    repo, o := Recorded(policy, id, config);
    ReachableConsistent(policy, Single(repo, o, NOTHING));
    var s := Rebooted(policy, Single(repo, o, NOTHING), id, config, false, false);
    s := Extend(policy, s, Serve);
    assert s == Idle(repo, NOTHING);
  }

  /** The Unmount of an entry whose Create was refused. */
  lemma TakesForeign(policy: Policy, repo: Repo, o: Object, id: string, config: MountConfig) returns (s: System)
    requires Reachable(policy, Single(repo, o, NOTHING)) && Holds(repo, id, config, false) && Acceptable(id, config)
    requires !o.owns && Is(o.entry, id, config) && o.entry.operation == Free && !o.entry.unmounting
    requires o.entry.closes[0] > 0
    ensures Reachable(policy, s) && Lone(s, id, config) && s.objects[0].entry.operation.Detaching?
    ensures id in s.foreign && Holds(s.repo, id, config, true)
  {
    var o1 := Step(policy, repo, o, NOTHING, UnmountRequested);
    assert Update(repo, InfoToWrite(o1.entry, true)).Stored?;
    s := Extend(policy, Single(repo, o1, NOTHING), EntryStep(0, TombstoneReturns(true)));
    assert s == AfterUpdate(Single(repo, o1, NOTHING), 0, true, AfterTombstoneReturns(o1.entry, true));
  }

  /** It buries, and then deletes, an ordinary record that the entry never owned. */
  lemma UnownedUnmountDeletes(policy: Policy, id: string, config: MountConfig) returns (s: System, s': System)
    requires Acceptable(id, config)
    ensures Reachable(policy, s) && Ordinary(s.repo, id) && s.registry == map[]
    ensures Reachable(policy, s') && id !in s'.repo.records
  {
    var repo := Unrestored(policy, id, config);
    s := Idle(repo, NOTHING);
    var o := Refuse(policy, repo, NOTHING, id, config);
    s' := TakesForeign(policy, repo, o, id, config);
    s' := Removes(policy, s', id, config);
  }

  /** A serving daemon with one entry of this mount, whose channel is closed. */
  predicate Lone(s: System, id: string, config: MountConfig) {
    && RegistryInRange(s) && |s.objects| == 1 && s.phase == L.Serving
    && Is(s.objects[0].entry, id, config) && s.objects[0].entry.closes[0] > 0
  }

  lemma Detaches(policy: Policy, s: System, id: string, config: MountConfig) returns (s': System)
    requires Reachable(policy, s) && Lone(s, id, config) && s.objects[0].entry.operation.Detaching?
    ensures Reachable(policy, s') && Lone(s', id, config) && s'.objects[0].entry.operation.AwaitingExit?
    ensures s'.objects[0].entry.operation.chan == 0
  {
    s' := Extend(policy, s, EntryStep(0, Detached));
  }

  lemma SeesExit(policy: Policy, s: System, id: string, config: MountConfig) returns (s': System)
    requires Reachable(policy, s) && Lone(s, id, config) && s.objects[0].entry.operation.AwaitingExit?
    requires s.objects[0].entry.operation.chan == 0
    ensures Reachable(policy, s') && Lone(s', id, config) && s'.objects[0].entry.operation.Removing?
  {
    s' := Extend(policy, s, EntryStep(0, ExitSeen));
  }

  lemma Removes(policy: Policy, s: System, id: string, config: MountConfig) returns (s': System)
    requires Reachable(policy, s) && Lone(s, id, config) && s.objects[0].entry.operation.Detaching? && id != ""
    ensures Reachable(policy, s') && id !in s'.repo.records
  {
    var s1 := Detaches(policy, s, id, config);
    var s2 := SeesExit(policy, s1, id, config);
    s' := Extend(policy, s2, EntryStep(0, DeleteReturns(true)));
  }

  // ---------------------------------------------------------------- a record that is moved

  /** The index still gives the old path to the mount, whose record now has the new one. */
  predicate Moved(repo: Repo, id: string, a: MountConfig, b: MountConfig) {
    Holds(repo, id, b, false) && repo.paths == map[a.path := id]
  }

  /** A Mount of the same ID at another path is refused, and its shutdown persist overwrites the record. */
  lemma MovedRecordExists(policy: Policy, id: string, a: MountConfig, b: MountConfig) returns (s: System)
    requires Acceptable(id, a) && Acceptable(id, b) && a.path != b.path
    ensures Reachable(policy, s) && s.moved && !Consistent(s.repo) && Moved(s.repo, id, a, b)
  {
    var repo := Unrestored(policy, id, a);
    assert repo.paths == map[a.path := id] by {
      assert forall p :: p in repo.paths ==> repo.paths[p] == id && p == a.path;
      assert Path(repo.records[id]) == a.path;
    }
    var o := Refuse(policy, repo, NOTHING, id, b);
    o := Stopped(policy, repo, o, NOTHING, id, b);
    s := Overwritten(policy, repo, o, id, a, b);
  }

  lemma Overwritten(policy: Policy, repo: Repo, o: Object, id: string, a: MountConfig, b: MountConfig)
    returns (s: System)
    requires Acceptable(id, a) && Acceptable(id, b) && a.path != b.path && Consistent(repo)
    requires Reachable(policy, Single(repo, o, NOTHING)) && Holds(repo, id, a, false) && repo.paths == map[a.path := id]
    requires Is(o.entry, id, b) && o.entry.pendingPersists > 0 && !o.entry.unmounting
    ensures Reachable(policy, s) && s.moved && !Consistent(s.repo) && Moved(s.repo, id, a, b)
  {
    var record := InfoToWrite(o.entry, false);
    assert Update(repo, record).Stored? && Path(record) == b.path && Path(repo.records[id]) == a.path;
    UpdateKeepsConsistentIff(repo, record);
    s := Extend(policy, Single(repo, o, NOTHING), EntryStep(0, PersistReturns(true)));
  }

  /** The old path stays refused although no record has it, and a second record takes the new one. */
  lemma PathSharedExists(policy: Policy, x: string, y: string, a: MountConfig, b: MountConfig) returns (s: System)
    requires Acceptable(x, a) && Acceptable(x, b) && Acceptable(y, b) && a.path != b.path && x != y
    ensures Reachable(policy, s) && x in s.repo.records && y in s.repo.records
    ensures Path(s.repo.records[x]) == Path(s.repo.records[y]) == b.path
    ensures a.path in s.repo.paths && forall id :: id in s.repo.records ==> Path(s.repo.records[id]) != a.path
  {
    s := MovedRecordExists(policy, x, a, b);
    ReachableConsistent(policy, s);
    s := Rebooted(policy, s, x, b, false, false);
    s := Extend(policy, s, Serve);
    assert b.(path := Clean(b.path)) == b;
    s := Extend(policy, s, MountRequest(y, b));
    assert s.objects[0] == Object(NewMount(y, b), false);
    assert Create(s.repo, InfoToWrite(s.objects[0].entry, false)).Stored?;
    s := Extend(policy, s, EntryStep(0, CreateReturns(true)));
  }
}
