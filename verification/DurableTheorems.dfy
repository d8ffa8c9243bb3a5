/** What survives crashes and restarts, over every run of the daemon. */
module DurableTheorems {
  import opened MountTypes
  import opened Paths
  import opened Controller
  import opened ControllerProofs
  import opened Repository
  import opened Durable
  import opened DurableProofs
  import R = Reconcile
  import L = Ledger

  // ---------------------------------------------------------------- runs

  ghost predicate CanHappenAll(policy: Policy, s: System, run: seq<Event>)
    decreases |run|
  {
    run == [] ||
    (RegistryInRange(s) && CanHappen(s, run[0]) && CanHappenAll(policy, Next(policy, s, run[0]), run[1..]))
  }

  ghost function NextAll(policy: Policy, s: System, run: seq<Event>): System
    requires CanHappenAll(policy, s, run)
    decreases |run|
  {
    if run == [] then s else NextAll(policy, Next(policy, s, run[0]), run[1..])
  }

  lemma {:induction false} RunKeepsInv(policy: Policy, s: System, run: seq<Event>)
    requires SystemInv(policy, s) && CanHappenAll(policy, s, run)
    ensures SystemInv(policy, NextAll(policy, s, run))
    decreases |run|
  {
    if run != [] {
      SystemStep(policy, s, run[0]);
      RunKeepsInv(policy, Next(policy, s, run[0]), run[1..]);
    }
  }

  lemma InitialSystemInv(policy: Policy)
    ensures SystemInv(policy, INITIAL)
  {
  }

  /** In no state of the run has an entry that does not own the record of `id` overwritten it. */
  ghost predicate NeverForeign(policy: Policy, s: System, run: seq<Event>, id: string)
    requires CanHappenAll(policy, s, run)
    decreases |run|
  {
    id !in s.foreign && (run == [] || NeverForeign(policy, Next(policy, s, run[0]), run[1..], id))
  }

  // ---------------------------------------------------------------- what an entry step leaves alone

  lemma QuietFrame(s: System, i: nat, a: Action, e': Entry)
    requires i < |s.objects| && WriteCanSucceed(s.repo, s.objects[i].entry, a) && !WritesRecord(a)
    ensures var s' := Effect(s, i, a, e');
      && s'.repo == s.repo && s'.listed == s.listed && s'.phase == s.phase && s'.foreign == s.foreign
      && (!a.Unregister? ==> s'.registry == s.registry)
  {
  }

  lemma PersistFrame(s: System, i: nat, e': Entry)
    requires i < |s.objects| && WriteCanSucceed(s.repo, s.objects[i].entry, PersistReturns(true))
    ensures var s' := Effect(s, i, PersistReturns(true), e');
      var record := InfoToWrite(s.objects[i].entry, s.objects[i].entry.unmounting);
      && s'.repo.records == s.repo.records[record.info.id := record]
      && s'.listed == s.listed && s'.phase == s.phase && s'.registry == s.registry
      && (s.objects[i].owns || record.info.id in s'.foreign)
  {
  }

  /** What action `a` of an entry leaves of `records`: its current info and intent, or nothing, and no other record. */
  predicate Writes(e: Entry, a: Action, records: map<string, MountRecord>, records': map<string, MountRecord>) {
    var id := e.info.id;
    match a
    case CreateReturns(true) => id !in records && records' == records[id := MountRecord(e.info, false)]
    case TombstoneReturns(true) => id in records && records' == records[id := MountRecord(e.info, true)]
    case PersistReturns(true) => id in records && records' == records[id := MountRecord(e.info, e.unmounting)]
    case DeleteReturns(true) => records' == records - {id}
    case _ => records' == records
  }

  lemma EffectWrites(s: System, i: nat, a: Action, e': Entry)
    requires i < |s.objects| && WriteCanSucceed(s.repo, s.objects[i].entry, a)
    ensures Writes(s.objects[i].entry, a, s.repo.records, Effect(s, i, a, e').repo.records)
  {
    if !WritesRecord(a) {
      QuietFrame(s, i, a, e');
    }
  }

  lemma StepWrites(policy: Policy, s: System, i: nat, a: Action)
    requires RegistryInRange(s) && CanHappen(s, EntryStep(i, a))
    ensures Writes(s.objects[i].entry, a, s.repo.records, Next(policy, s, EntryStep(i, a)).repo.records)
  {
    EffectWrites(s, i, a, Apply(policy, s.objects[i].entry, a));
  }

  // ---------------------------------------------------------------- tombstones survive crashes

  /** The owner of a final record is unmounting, and an entry that does not own it starts nothing. */
  lemma FinalEntry(policy: Policy, s: System, i: nat, a: Action)
    requires SystemInv(policy, s) && i < |s.objects| && Enabled(s.objects[i].entry, a)
    requires s.objects[i].entry.info.id in s.final && s.objects[i].entry.info.id !in s.foreign
    ensures !a.StartSucceeds?
    ensures s.objects[i].owns ==> s.objects[i].entry.unmounting
  {
    var e := s.objects[i].entry;
    assert FaceOf(s.objects[i]) == View(s).faces[i];
    SummaryHolds(policy, e);
  }

  lemma FinalEffect(s: System, i: nat, a: Action, e': Entry, id: string)
    requires i < |s.objects| && WriteCanSucceed(s.repo, s.objects[i].entry, a) && id in s.final
    requires s.objects[i].entry.info.id == id ==> !a.StartSucceeds?
    ensures var s' := Effect(s, i, a, e');
      && (id in s'.final || id !in s'.repo.records)
      && multiset(s'.spawned)[id] == multiset(s.spawned)[id]
  {
  }

  /** One event leaves a final tombstone final or deletes it, and starts no child for it. */
  lemma FinalStep(policy: Policy, s: System, event: Event, id: string)
    requires SystemInv(policy, s) && RegistryInRange(s) && CanHappen(s, event) && id in s.final && id !in s.foreign
    ensures var s' := Next(policy, s, event);
      && (id in s'.final || id !in s'.repo.records)
      && multiset(s'.spawned)[id] == multiset(s.spawned)[id]
  {
    if event.EntryStep? {
      if s.objects[event.i].entry.info.id == id {
        FinalEntry(policy, s, event.i, event.action);
      }
      FinalEffect(s, event.i, event.action, Apply(policy, s.objects[event.i].entry, event.action), id);
    } else {
      FinalIsTombstone(s, id);
    }
  }

  lemma FinalIsTombstone(s: System, id: string)
    requires L.Inv(View(s)) && id in s.final && id !in s.foreign
    ensures id in s.repo.records && s.repo.records[id].tombstone
  {
    assert L.Tombstone(View(s), id);
  }

  /** The record of `id` is present in every state of the run. */
  ghost predicate Kept(policy: Policy, s: System, run: seq<Event>, id: string)
    requires CanHappenAll(policy, s, run)
    decreases |run|
  {
    id in s.repo.records && (run == [] || Kept(policy, Next(policy, s, run[0]), run[1..], id))
  }

  /**
   * Over any number of crashes and restarts: a final tombstone stays a tombstone until it is deleted, and no
   * child is started for it, as long as no entry overwrites this very record without owning it.
   */
  lemma {:induction false} FinalForever(policy: Policy, s: System, run: seq<Event>, id: string)
    requires SystemInv(policy, s) && CanHappenAll(policy, s, run) && id in s.final
    requires Kept(policy, s, run, id) && NeverForeign(policy, s, run, id)
    ensures var s' := NextAll(policy, s, run);
      && id in s'.final && id in s'.repo.records && s'.repo.records[id].tombstone
      && multiset(s'.spawned)[id] == multiset(s.spawned)[id]
    decreases |run|
  {
    if run == [] {
      FinalIsTombstone(s, id);
    } else {
      SystemStep(policy, s, run[0]);
      FinalStep(policy, s, run[0], id);
      FinalForever(policy, Next(policy, s, run[0]), run[1..], id);
    }
  }

  predicate Creates(s: System, event: Event, id: string) {
    && event.EntryStep? && event.action == CreateReturns(true)
    && event.i < |s.objects| && s.objects[event.i].entry.info.id == id
  }

  lemma NoResurrectionEffect(s: System, i: nat, a: Action, e': Entry, id: string)
    requires i < |s.objects| && WriteCanSucceed(s.repo, s.objects[i].entry, a) && id !in s.repo.records
    requires !(a == CreateReturns(true) && s.objects[i].entry.info.id == id)
    ensures id !in Effect(s, i, a, e').repo.records
  {
  }

  ghost predicate NeverCreates(policy: Policy, s: System, run: seq<Event>, id: string)
    requires CanHappenAll(policy, s, run)
    decreases |run|
  {
    run == [] || (!Creates(s, run[0], id) && NeverCreates(policy, Next(policy, s, run[0]), run[1..], id))
  }

  /** A late Update, a reconciliation or a restart never brings a deleted record back: only Create does. */
  lemma {:induction false} NoResurrection(policy: Policy, s: System, run: seq<Event>, id: string)
    requires CanHappenAll(policy, s, run) && id !in s.repo.records && NeverCreates(policy, s, run, id)
    ensures id !in NextAll(policy, s, run).repo.records
    decreases |run|
  {
    if run != [] {
      var event := run[0];
      if event.EntryStep? {
        NoResurrectionEffect(s, event.i, event.action, Apply(policy, s.objects[event.i].entry, event.action), id);
      }
      assert id !in Next(policy, s, event).repo.records;
      NoResurrection(policy, Next(policy, s, event), run[1..], id);
    }
  }

  // ---------------------------------------------------------------- writes by entries that own their record

  /** Every Update issued for an owning entry keeps the stored path and configuration. */
  lemma OwnersMeetPathContract(policy: Policy, s: System, i: nat, tombstone: bool)
    requires SystemInv(policy, s) && i < |s.objects| && s.objects[i].owns
    requires s.objects[i].entry.info.id !in s.foreign
    ensures var record := InfoToWrite(s.objects[i].entry, tombstone);
      && record.info.id in s.repo.records
      && record.info.config == s.repo.records[record.info.id].info.config
      && Path(record) == Path(s.repo.records[record.info.id])
  {
    assert FaceOf(s.objects[i]) == View(s).faces[i] && L.HoldsRight(View(s), View(s).faces[i]);
  }

  /** Managed entries never share a mount ID; nor a cleaned path, and the index is exact, if no write moved a record. */
  lemma ManagedUnique(policy: Policy, s: System, x: string, y: string)
    requires SystemInv(policy, s) && x in s.registry && y in s.registry && x != y
    ensures s.registry[x] < |s.objects| && s.registry[y] < |s.objects|
    ensures s.objects[s.registry[x]].entry.info.id == x
    ensures !s.moved ==> Consistent(s.repo)
    ensures !s.moved ==>
      Clean(s.objects[s.registry[x]].entry.info.config.path) != Clean(s.objects[s.registry[y]].entry.info.config.path)
  {
    assert FaceOf(s.objects[s.registry[x]]) == View(s).faces[s.registry[x]];
    assert FaceOf(s.objects[s.registry[y]]) == View(s).faces[s.registry[y]];
  }

  predicate Ordinary(repo: Repo, id: string) {
    id in repo.records && !repo.records[id].tombstone
  }

  predicate Buried(repo: Repo, id: string) {
    id in repo.records && repo.records[id].tombstone
  }

  /** Whose record it is, and how it got its mark. */
  lemma RecordFacts(policy: Policy, s: System, i: nat)
    requires SystemInv(policy, s) && i < |s.objects| && s.objects[i].entry.info.id !in s.foreign
    requires s.objects[i].entry.info.id in s.repo.records
    ensures var o := s.objects[i];
      var id := o.entry.info.id;
      && (o.entry.unmounting <==> o.entry.accepted || o.entry.operation.Tombstoning?)
      && (!o.entry.registered ==> o.entry.accepted)
      && (s.repo.records[id].tombstone <==> id in s.final || id in s.hasty)
      && (o.owns ==> (o.entry.accepted <==> id in s.final) && (id in s.hasty ==> o.entry.superseded))
      && (o.entry.registered && !o.owns ==> !o.entry.accepted)
      && !(id in s.final && id in s.hasty)
  {
    var id := s.objects[i].entry.info.id;
    assert FaceOf(s.objects[i]) == View(s).faces[i];
    assert s.objects[i].owns ==> L.HoldsRight(View(s), View(s).faces[i]);
    assert L.Tombstone(View(s), id) <==> s.repo.records[id].tombstone;
    SummaryHolds(policy, s.objects[i].entry);
  }

  /** A persist writes the entry's info, marked by whether the entry is unmounting. */
  lemma PersistWrites(policy: Policy, s: System, i: nat) returns (repo': Repo)
    requires RegistryInRange(s) && CanHappen(s, EntryStep(i, PersistReturns(true)))
    ensures s.objects[i].entry.info.id in s.repo.records
    ensures repo' == Next(policy, s, EntryStep(i, PersistReturns(true))).repo
    ensures var e := s.objects[i].entry;
      e.info.id in repo'.records && repo'.records[e.info.id].tombstone == e.unmounting
  {
    PersistFrame(s, i, Apply(policy, s.objects[i].entry, PersistReturns(true)));
    repo' := Next(policy, s, EntryStep(i, PersistReturns(true))).repo;
  }

  /**
   * A best-effort persist turns a tombstone back into an ordinary record exactly when its entry is not being
   * unmounted, and either does not own the record, or a persist wrote the tombstone while an Unmount of the
   * entry was in flight that has since been refused, or another entry has overwritten the record.
   */
  lemma PersistRevivesIff(policy: Policy, s: System, i: nat)
    requires SystemInv(policy, s) && RegistryInRange(s) && CanHappen(s, EntryStep(i, PersistReturns(true)))
    requires Buried(s.repo, s.objects[i].entry.info.id)
    ensures var o := s.objects[i];
      var id := o.entry.info.id;
      var repo' := Next(policy, s, EntryStep(i, PersistReturns(true))).repo;
      && (Ordinary(repo', id) <==> !o.entry.unmounting && (!o.owns || id in s.hasty || id in s.foreign))
      && (o.owns && id in s.hasty && id !in s.foreign ==> o.entry.superseded && !o.entry.accepted)
  {
    var repo' := PersistWrites(policy, s, i);
    if s.objects[i].entry.info.id !in s.foreign {
      RecordFacts(policy, s, i);
    }
  }

  /**
   * A best-effort persist turns an ordinary record into a tombstone exactly when its entry is unmounting, and
   * either is an unregistered predecessor, or has an Unmount in flight that is not yet accepted, or another
   * entry has overwritten the record.
   */
  lemma PersistBuriesIff(policy: Policy, s: System, i: nat)
    requires SystemInv(policy, s) && RegistryInRange(s) && CanHappen(s, EntryStep(i, PersistReturns(true)))
    requires Ordinary(s.repo, s.objects[i].entry.info.id)
    ensures var o := s.objects[i];
      var id := o.entry.info.id;
      var repo' := Next(policy, s, EntryStep(i, PersistReturns(true))).repo;
      !Ordinary(repo', id) <==>
        o.entry.unmounting && (!o.entry.registered || o.entry.operation.Tombstoning? || id in s.foreign)
  {
    var repo' := PersistWrites(policy, s, i);
    if s.objects[i].entry.info.id !in s.foreign {
      RecordFacts(policy, s, i);
    }
  }

  /** What the Update of this action writes. */
  function Written(e: Entry, a: Action): MountRecord {
    InfoToWrite(e, a.TombstoneReturns? || e.unmounting)
  }

  lemma UpdateWrites(policy: Policy, s: System, i: nat, a: Action) returns (s': System)
    requires RegistryInRange(s) && CanHappen(s, EntryStep(i, a)) && Updates(a)
    ensures s' == Next(policy, s, EntryStep(i, a)) && Update(s.repo, Written(s.objects[i].entry, a)).Stored?
    ensures s'.repo == Update(s.repo, Written(s.objects[i].entry, a)).repo
    ensures s'.foreign == if s.objects[i].owns then s.foreign else s.foreign + {s.objects[i].entry.info.id}
  {
    s' := Next(policy, s, EntryStep(i, a));
  }

  /**
   * From a repository whose index is exact, a write by an entry breaks the index exactly when the entry does
   * not own the record, or another entry has overwritten it, and the cleaned paths differ.
   */
  lemma WriteMovesIff(policy: Policy, s: System, i: nat, a: Action)
    requires SystemInv(policy, s) && RegistryInRange(s) && CanHappen(s, EntryStep(i, a)) && Updates(a)
    requires Consistent(s.repo)
    ensures var o := s.objects[i];
      var id := o.entry.info.id;
      !Consistent(Next(policy, s, EntryStep(i, a)).repo) <==>
        (!o.owns || id in s.foreign) && Clean(o.entry.info.config.path) != Path(s.repo.records[id])
  {
    var s' := UpdateWrites(policy, s, i, a);
    UpdateKeepsConsistentIff(s.repo, Written(s.objects[i].entry, a));
    if s.objects[i].owns && s.objects[i].entry.info.id !in s.foreign {
      OwnersMeetPathContract(policy, s, i, true);
    }
  }

  /**
   * An accepted Unmount buries the record of its ID; the record is another's exactly when the entry does not
   * own it, and from then on counts as overwritten.
   */
  lemma AcceptedBuries(policy: Policy, s: System, i: nat)
    requires RegistryInRange(s) && CanHappen(s, EntryStep(i, TombstoneReturns(true)))
    ensures var id := s.objects[i].entry.info.id;
      var s' := Next(policy, s, EntryStep(i, TombstoneReturns(true)));
      Buried(s'.repo, id) && (id in s'.foreign <==> id in s.foreign || !s.objects[i].owns)
  {
    var s' := UpdateWrites(policy, s, i, TombstoneReturns(true));
  }

  /** The removal of an entry deletes its own tombstone and nothing else, unless the record was overwritten. */
  lemma RemovalDeletes(policy: Policy, s: System, i: nat)
    requires SystemInv(policy, s) && i < |s.objects| && Enabled(s.objects[i].entry, DeleteReturns(true))
    requires s.objects[i].entry.info.id !in s.foreign && s.objects[i].entry.info.id in s.repo.records
    ensures Buried(s.repo, s.objects[i].entry.info.id) && s.objects[i].owns
  {
    RemovedIsAccepted(policy, s.objects[i].entry);
    AcceptedFacts(s, i);
  }

  lemma AcceptedFacts(s: System, i: nat)
    requires L.Inv(View(s)) && i < |s.objects| && s.objects[i].entry.accepted && s.objects[i].entry.registered
    requires s.objects[i].entry.info.id !in s.foreign && s.objects[i].entry.info.id in s.repo.records
    ensures Buried(s.repo, s.objects[i].entry.info.id) && s.objects[i].owns
  {
    var f := View(s).faces[i];
    assert f == FaceOf(s.objects[i]);
    assert f.owns ==> L.HoldsRight(View(s), f);
    assert f.id in s.final ==> L.Tombstone(View(s), f.id);
  }

  lemma RemovedIsAccepted(policy: Policy, e: Entry)
    requires Inv(policy, e) && e.operation.Removing?
    ensures e.accepted && e.registered
  {
  }

  // ---------------------------------------------------------------- reconciliation

  /** No mount is left at the record's path: there was none, or a known client's was detached completely. */
  predicate MountGone(record: MountRecord, faults: R.Faults) {
    || faults.probe == R.NotMounted
    || (&& faults.probe == R.IsMounted && faults.detach == R.DetachDone
        && (record.info.config.client == Irodsfs || record.info.config.client == Davfs
            || record.info.config.client == Nfs))
  }

  /**
   * Ordinary records stay exactly as they are. What is deleted is a tombstone, exactly if it was listed as one, is not
   * managed, its mount is gone, and removing data and record both succeed; what becomes managed is a listed ordinary
   * record, exactly if it was not yet managed and its mount is gone.
   */
  ghost predicate Spared(s: System, record: MountRecord, faults: R.Faults, s': System) {
    var acts := record.info.id !in s.registry && MountGone(record, faults);
    && (forall id :: id in s'.repo.records ==> id in s.repo.records && s'.repo.records[id] == s.repo.records[id])
    && (forall id :: id in s.repo.records ==>
          (id !in s'.repo.records <==>
           id == record.info.id && record.tombstone && acts && faults.removeOk && faults.deleteOk))
    && (forall id :: id in s.repo.records && id !in s'.repo.records ==> s.repo.records[id].tombstone)
    && s'.registry.Keys == s.registry.Keys + (if acts && !record.tombstone then {record.info.id} else {})
    && s'.spawned == s.spawned
  }

  lemma ReconcileSpares(s: System, record: MountRecord, faults: R.Faults)
    requires record.info.id in s.repo.records ==> record.info.id != ""
    requires record.tombstone && record.info.id !in s.registry && record.info.id in s.repo.records ==>
               s.repo.records[record.info.id].tombstone
    ensures Spared(s, record, faults, AfterReconcile(s, record, faults))
  {
  }

  /** Reconciling a listed record, however stale the listing is by then. */
  lemma ReconcileSparesOrdinary(policy: Policy, s: System, record: MountRecord, faults: R.Faults)
    requires SystemInv(policy, s) && RegistryInRange(s)
    requires CanHappen(s, ReconcileListed(record, faults)) && record.info.id !in s.foreign
    ensures Spared(s, record, faults, Next(policy, s, ReconcileListed(record, faults)))
  {
    assert record in View(s).listed;
    ReconcileSpares(s, record, faults);
  }

  /** The registry as reconciliation sees it. */
  function Managed(s: System): map<string, MountInfo>
    requires RegistryInRange(s)
  {
    map id | id in s.registry :: s.objects[s.registry[id]].entry.info
  }

  /** Nothing is remounted: the daemon's step is the sequential reconciler's. */
  lemma ForgetAgrees(s: System, record: MountRecord, faults: R.Faults)
    requires RegistryInRange(s) && R.Decide(record, record.info.id in s.registry, faults) != R.Remount
    ensures var s' := AfterReconcile(s, record, faults);
      && RegistryInRange(s')
      && R.ReconcileRecord(R.Daemon(Managed(s), s.repo), record, faults) == R.Daemon(Managed(s'), s'.repo)
  {
    SameManaged(s, AfterReconcile(s, record, faults));
  }

  lemma SameManaged(s: System, s': System)
    requires RegistryInRange(s) && s'.registry == s.registry && |s'.objects| == |s.objects|
    requires forall i :: 0 <= i < |s.objects| ==> s'.objects[i].entry == s.objects[i].entry
    ensures RegistryInRange(s') && Managed(s') == Managed(s)
  {
  }

  /** A record is remounted: so it is, except that the entry's first persist is still to come. */
  lemma RemountAgrees(s: System, record: MountRecord, faults: R.Faults)
    requires RegistryInRange(s) && R.Decide(record, record.info.id in s.registry, faults) == R.Remount
    ensures var s' := AfterReconcile(s, record, faults);
      && RegistryInRange(s') && s'.repo == s.repo && s'.objects == s.objects + [Object(Restore(record), true)]
      && R.ReconcileRecord(R.Daemon(Managed(s), s.repo), record, faults).registry == Managed(s')
      && InfoToWrite(Restore(record), false) == R.Pending(record) && Restore(record).pendingPersists == 1
  {
    var s' := AfterReconcile(s, record, faults);
    assert RegistryInRange(s');
    assert Managed(s') == Managed(s)[record.info.id := R.Pending(record).info];
  }

  // ---------------------------------------------------------------- a fault-free start

  /** The events of a restoring start without faults: reconciliation, and the restored entries at work. */
  predicate StartEvent(event: Event) {
    (event.ReconcileListed? && R.FaultFree(event.faults)) || event.EntryStep?
  }

  /** How far a restoring start from repository `r0` has come. */
  ghost predicate Progress(r0: map<string, MountRecord>, records: map<string, MountRecord>, managed: set<string>,
                           listed: set<MountRecord>) {
    && (forall r :: r in listed ==> r.info.id in r0 && r0[r.info.id] == r)
    && (forall id :: id in managed <==> (id in r0 && !r0[id].tombstone && r0[id] !in listed))
    && (forall id :: id in records <==> (id in r0 && (r0[id].tombstone ==> r0[id] in listed)))
    && (forall id :: id in records ==>
          records[id].tombstone == r0[id].tombstone && records[id].info.config == r0[id].info.config)
  }

  ghost predicate Started(r0: map<string, MountRecord>, s: System) {
    s.phase == L.Booting && Progress(r0, s.repo.records, s.registry.Keys, s.listed)
  }

  lemma BootStarts(s: System)
    requires L.Inv(View(s)) && s.phase == L.Down
    ensures Started(s.repo.records, s.(phase := L.Booting, listed := L.Listing(s.repo, true)))
  {
    L.ListingOk(s.repo, true);
    forall id | id in s.repo.records
      ensures s.repo.records[id] in L.Listing(s.repo, true)
    {
    }
  }

  lemma StartReconcileStep(r0: map<string, MountRecord>, s: System, record: MountRecord, faults: R.Faults)
    requires Started(r0, s) && record in s.listed && R.FaultFree(faults) && record.info.config.client != Unrecognized
    requires forall id :: id in r0 ==> r0[id].info.id == id && id != ""
    ensures Started(r0, AfterReconcile(s, record, faults))
  {
    assert record.info.id !in s.registry;
  }

  lemma StartEntry(s: System, i: nat, a: Action, e': Entry)
    requires L.Inv(View(s)) && Ready(s, i, a, e') && s.phase == L.Booting
    ensures a != CreateReturns(true) && a != TombstoneReturns(true) && a != DeleteReturns(true) && !a.Unregister?
    ensures s.objects[i].owns && !s.objects[i].entry.unmounting
    ensures s.objects[i].entry.info.id in s.repo.records
    ensures s.repo.records[s.objects[i].entry.info.id].info.config == s.objects[i].entry.info.config
  {
    var f := View(s).faces[i];
    assert f == FaceOf(s.objects[i]) && f.owns && !f.superseded && f.registered && L.HoldsRight(View(s), f);
  }

  lemma PersistProgress(r0: map<string, MountRecord>, records: map<string, MountRecord>, managed: set<string>,
                        listed: set<MountRecord>, record: MountRecord)
    requires Progress(r0, records, managed, listed) && record.info.id in records && record.info.id in managed
    requires !record.tombstone && record.info.config == records[record.info.id].info.config
    ensures Progress(r0, records[record.info.id := record], managed, listed)
  {
  }

  lemma StartEffect(r0: map<string, MountRecord>, s: System, i: nat, a: Action, e': Entry)
    requires Started(r0, s) && i < |s.objects| && WriteCanSucceed(s.repo, s.objects[i].entry, a)
    requires a != CreateReturns(true) && a != TombstoneReturns(true) && a != DeleteReturns(true) && !a.Unregister?
    requires s.objects[i].owns && !s.objects[i].entry.unmounting && s.objects[i].entry.info.id in s.registry
    requires s.objects[i].entry.info.id in s.repo.records
    requires s.repo.records[s.objects[i].entry.info.id].info.config == s.objects[i].entry.info.config
    ensures Started(r0, Effect(s, i, a, e'))
  {
    if a == PersistReturns(true) {
      PersistFrame(s, i, e');
      PersistProgress(r0, s.repo.records, s.registry.Keys, s.listed, InfoToWrite(s.objects[i].entry, false));
    } else {
      QuietFrame(s, i, a, e');
    }
  }

  /** While starting, an entry step can only persist ordinary state for a record its entry owns. */
  lemma StartEntryStep(r0: map<string, MountRecord>, s: System, i: nat, a: Action, e': Entry)
    requires Started(r0, s) && L.Inv(View(s)) && Ready(s, i, a, e')
    ensures Started(r0, Effect(s, i, a, e'))
  {
    StartEntry(s, i, a, e');
    assert View(s).faces[i].registered;
    StartEffect(r0, s, i, a, e');
  }

  lemma StartStep(policy: Policy, r0: map<string, MountRecord>, s: System, event: Event)
    requires SystemInv(policy, s) && Started(r0, s) && RegistryInRange(s) && CanHappen(s, event) && StartEvent(event)
    requires forall id :: id in r0 ==> r0[id].info.id == id && id != "" && r0[id].info.config.client != Unrecognized
    ensures Started(r0, Next(policy, s, event))
  {
    if event.ReconcileListed? {
      StartReconcileStep(r0, s, event.record, event.faults);
    } else {
      StepMoves(policy, s.objects[event.i].entry, event.action);
      StartEntryStep(r0, s, event.i, event.action, Apply(policy, s.objects[event.i].entry, event.action));
    }
  }

  lemma {:induction false} StartRun(policy: Policy, r0: map<string, MountRecord>, s: System, run: seq<Event>)
    requires SystemInv(policy, s) && Started(r0, s) && CanHappenAll(policy, s, run)
    requires forall i :: 0 <= i < |run| ==> StartEvent(run[i])
    requires forall id :: id in r0 ==> r0[id].info.id == id && id != "" && r0[id].info.config.client != Unrecognized
    ensures SystemInv(policy, NextAll(policy, s, run)) && Started(r0, NextAll(policy, s, run))
    decreases |run|
  {
    if run != [] {
      StartStep(policy, r0, s, run[0]);
      SystemStep(policy, s, run[0]);
      StartRun(policy, r0, Next(policy, s, run[0]), run[1..]);
    }
  }

  ghost predicate RestoredExactly(repo: Repo, s': System) {
    && (forall id :: id in s'.registry <==> Ordinary(repo, id))
    && (forall id :: id in s'.repo.records <==> Ordinary(repo, id))
    && (forall id :: id in s'.repo.records ==>
          !s'.repo.records[id].tombstone && s'.repo.records[id].info.config == repo.records[id].info.config)
  }

  /**
   * A fault-free restoring start that has handled every listed record manages exactly the ordinary
   * records, each with its configuration, and leaves no tombstone -- whatever the restored entries do meanwhile.
   */
  lemma StartIsExact(policy: Policy, s: System, run: seq<Event>)
    requires SystemInv(policy, s) && s.phase == L.Down
    requires CanHappenAll(policy, s, [Boot(true)] + run) && forall i :: 0 <= i < |run| ==> StartEvent(run[i])
    requires forall id :: id in s.repo.records ==> s.repo.records[id].info.config.client != Unrecognized
    requires NextAll(policy, s, [Boot(true)] + run).listed == {}
    ensures RestoredExactly(s.repo, NextAll(policy, s, [Boot(true)] + run))
  {
    var s1 := Next(policy, s, Boot(true));
    assert ([Boot(true)] + run)[1..] == run;
    SystemStep(policy, s, Boot(true));
    BootStarts(s);
    assert Keyed(View(s).repo);
    StartRun(policy, s.repo.records, s1, run);
  }
}
