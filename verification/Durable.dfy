/**
 * The daemon over crashes and restarts: entry objects driven by the controller, the registry,
 * the repository, and reconciliation.
 *
 * A best-effort persist takes its snapshot and its write in one step, and so does `reconcileRecord`.
 * Startup reconciliation is over before requests are served. An object removed from the registry
 * stays in `objects`, because its goroutines may still be running.
 */
module Durable {
  import opened MountTypes
  import opened Paths
  import opened Controller
  import opened Repository
  import R = Reconcile
  import L = Ledger

  /** `owns`: this entry's Create succeeded, or it was restored, and its record was not deleted since. */
  datatype Object = Object(entry: Entry, owns: bool)

  datatype System = System(
    repo: Repo,
    objects: seq<Object>,
    registry: map<string, nat>,
    phase: L.Phase,
    listed: set<MountRecord>,  // the records reconciliation has listed and not yet handled
    // history
    final: set<string>,        // tombstones that an accepted Unmount wrote or that outlived their process
    hasty: set<string>,        // tombstones that a persist wrote while its entry's Unmount was in flight
    foreign: set<string>,      // records that an entry not owning them has overwritten, in this life of the process
    moved: bool,               // some write has changed the cleaned path of a record
    spawned: seq<string>       // the mount ID of every child started
  )

  const INITIAL := System(EMPTY, [], map[], L.Down, {}, {}, {}, {}, false, [])

  function Disown(objects: seq<Object>, id: string): (r: seq<Object>)
    ensures |r| == |objects|
    ensures forall i :: 0 <= i < |r| ==>
      r[i].entry == objects[i].entry && r[i].owns == (objects[i].owns && objects[i].entry.info.id != id)
  {
    seq(|objects|, i requires 0 <= i < |objects| =>
      Object(objects[i].entry, objects[i].owns && objects[i].entry.info.id != id))
  }

  // ---------------------------------------------------------------- events

  datatype Event =
    | Boot(restore: bool)                                // the process starts and lists the records
    | ReconcileListed(record: MountRecord, faults: R.Faults)
    | Serve                                              // startup reconciliation is over
    | ListTombstones                                     // the periodic reconciler lists again
    | MountRequest(id: string, config: MountConfig)
    | EntryStep(i: nat, action: Action)
    | Crash

  predicate PathFree(s: System, path: string)
    requires forall id :: id in s.registry ==> s.registry[id] < |s.objects|
  {
    forall id :: id in s.registry ==> Clean(s.objects[s.registry[id]].entry.info.config.path) != path
  }

  function InfoToWrite(e: Entry, tombstone: bool): MountRecord {
    MountRecord(e.info, tombstone)
  }

  /** The write that the action reports as successful can succeed on the repository as it is. */
  predicate WriteCanSucceed(repo: Repo, e: Entry, a: Action) {
    match a
    case CreateReturns(true) => Create(repo, InfoToWrite(e, false)).Stored?
    case TombstoneReturns(true) => Update(repo, InfoToWrite(e, true)).Stored?
    case PersistReturns(true) => Update(repo, InfoToWrite(e, e.unmounting)).Stored?
    case DeleteReturns(true) => Delete(repo, e.info.id).Stored?
    case _ => true
  }

  predicate RegistryInRange(s: System) {
    forall id :: id in s.registry ==> s.registry[id] < |s.objects|
  }

  predicate CanHappen(s: System, event: Event)
    requires RegistryInRange(s)
  {
    match event
    case Boot(_) => s.phase == L.Down
    case ReconcileListed(record, _) => record in s.listed && s.phase != L.Down
    case Serve => s.phase == L.Booting && s.listed == {}
    case ListTombstones => s.phase == L.Serving
    case MountRequest(id, config) =>
      s.phase == L.Serving && id !in s.registry && PathFree(s, Clean(config.path))
    case EntryStep(i, a) =>
      && s.phase != L.Down && i < |s.objects| && Enabled(s.objects[i].entry, a)
      && (a.UnmountRequested? || a.ShutdownRequested? ==> s.phase == L.Serving)
      && WriteCanSucceed(s.repo, s.objects[i].entry, a)
    case Crash => true
  }

  function Move(s: System, i: nat, e': Entry): System
    requires i < |s.objects|
  {
    s.(objects := s.objects[i := s.objects[i].(entry := e')])
  }

  function AfterCreated(s: System, i: nat, e': Entry): System
    requires i < |s.objects| && Create(s.repo, InfoToWrite(s.objects[i].entry, false)).Stored?
  {
    s.(repo := Create(s.repo, InfoToWrite(s.objects[i].entry, false)).repo, objects := s.objects[i := Object(e', true)])
  }

  /** A successful Update by object `i`. */
  function AfterUpdate(s: System, i: nat, tombstone: bool, e': Entry): System
    requires i < |s.objects| && Update(s.repo, InfoToWrite(s.objects[i].entry, tombstone)).Stored?
  {
    var e := s.objects[i].entry;
    var id := e.info.id;
    s.(repo := Update(s.repo, InfoToWrite(e, tombstone)).repo,
       objects := s.objects[i := s.objects[i].(entry := e')],
       final := if e'.accepted && !e.accepted then s.final + {id} else s.final,
       hasty := if tombstone && !e'.accepted then s.hasty + {id} else s.hasty - {id},
       foreign := if s.objects[i].owns then s.foreign else s.foreign + {id},
       moved := s.moved || Path(InfoToWrite(e, tombstone)) != Path(s.repo.records[id]))
  }

  function AfterDelete(s: System, id: string): System {
    var outcome := Delete(s.repo, id);
    if outcome.Stored? then
      s.(repo := outcome.repo, objects := Disown(s.objects, id), final := s.final - {id}, hasty := s.hasty - {id},
         foreign := s.foreign - {id})
    else s
  }

  /** The entry step `a` of object `i` has led to `e'`; what it does to the rest of the system. */
  function Effect(s: System, i: nat, a: Action, e': Entry): System
    requires i < |s.objects| && WriteCanSucceed(s.repo, s.objects[i].entry, a)
  {
    var e := s.objects[i].entry;
    match a
    case CreateReturns(true) => AfterCreated(s, i, e')
    case TombstoneReturns(true) => AfterUpdate(s, i, true, e')
    case PersistReturns(true) => AfterUpdate(s, i, e.unmounting, e')
    case DeleteReturns(true) => AfterDelete(Move(s, i, e'), e.info.id)
    case Unregister => var s' := Move(s, i, e'); s'.(registry := s'.registry - {e.info.id})
    case StartSucceeds => var s' := Move(s, i, e'); s'.(spawned := s'.spawned + [e.info.id])
    case _ => Move(s, i, e')
  }

  function AfterReconcile(s: System, record: MountRecord, faults: R.Faults): System {
    var id := record.info.id;
    var rest := s.(listed := s.listed - {record});
    match R.Decide(record, id in s.registry, faults)
    case Leave => rest
    case Forget => AfterDelete(rest, id)
    case Remount =>
      rest.(objects := s.objects + [Object(Restore(record), true)], registry := s.registry[id := |s.objects|])
  }

  function AfterMountRequest(s: System, id: string, config: MountConfig): System {
    s.(objects := s.objects + [Object(NewMount(id, config.(path := Clean(config.path))), false)],
       registry := s.registry[id := |s.objects|])
  }

  function AfterCrash(s: System): System {
    System(s.repo, [], map[], L.Down, {}, L.Tombstones(s.repo), {}, {}, !Consistent(s.repo), s.spawned)
  }

  function Next(policy: Policy, s: System, event: Event): System
    requires RegistryInRange(s) && CanHappen(s, event)
  {
    match event
    case Boot(restore) => s.(phase := L.Booting, listed := L.Listing(s.repo, restore))
    case ReconcileListed(record, faults) => AfterReconcile(s, record, faults)
    case Serve => s.(phase := L.Serving)
    case ListTombstones => s.(listed := L.Listing(s.repo, false))
    case MountRequest(id, config) => AfterMountRequest(s, id, config)
    case EntryStep(i, a) => Effect(s, i, a, Apply(policy, s.objects[i].entry, a))
    case Crash => AfterCrash(s)
  }
}
