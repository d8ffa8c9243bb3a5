/** Startup and periodic reconciliation of persisted records, under arbitrary faults. */
module Reconcile {
  import opened MountTypes
  import opened Repository

  datatype Probe = ProbeError | NotMounted | IsMounted

  /** `unmountByClientType`: done, lazily detached with the DAVFS cache preserved, or failed. */
  datatype Detach = DetachDone | DetachLazy | DetachError

  /** What the system answers while one record is reconciled. */
  datatype Faults = Faults(probe: Probe, detach: Detach, removeOk: bool, deleteOk: bool, persistOk: bool)

  datatype Decision = Leave | Forget | Remount

  /** Nothing is mounted at the record's path any more. */
  predicate Cleared(record: MountRecord, faults: Faults) {
    match faults.probe
    case ProbeError => false
    case NotMounted => true
    case IsMounted => record.info.config.client != Unrecognized && faults.detach == DetachDone
  }

  /** reconcileRecord: the record is left alone, deleted, or registered and mounted afresh. */
  function Decide(record: MountRecord, managed: bool, faults: Faults): Decision {
    if managed || !Cleared(record, faults) then Leave
    else if !record.tombstone then Remount
    else if faults.removeOk && faults.deleteOk then Forget
    else Leave
  }

  predicate FaultFree(faults: Faults) {
    faults.probe != ProbeError && faults.detach == DetachDone
    && faults.removeOk && faults.deleteOk && faults.persistOk
  }

  /** The registry and repository as reconciliation sees them. */
  datatype Daemon = Daemon(registry: map<string, MountInfo>, repo: Repo)

  /** reconcileRecord, its managed check and its writes taken as one step. */
  function ReconcileRecord(d: Daemon, record: MountRecord, faults: Faults): Daemon {
    var id := record.info.id;
    match Decide(record, id in d.registry, faults)
    case Leave => d
    case Forget => var outcome := Delete(d.repo, id); if outcome.Stored? then d.(repo := outcome.repo) else d
    case Remount =>
      var outcome := Update(d.repo, Pending(record));
      var repo := if faults.persistOk && outcome.Stored? then outcome.repo else d.repo;
      Daemon(d.registry[id := Pending(record).info], repo)
  }

  /** Reconcile with `restore`, ReconcileTombstones without. */
  function ReconcileAll(d: Daemon, listed: seq<MountRecord>, faults: MountRecord -> Faults, restore: bool): Daemon
    decreases |listed|
  {
    if listed == [] then d
    else
      var record := listed[0];
      var d' := if restore || record.tombstone then ReconcileRecord(d, record, faults(record)) else d;
      ReconcileAll(d', listed[1..], faults, restore)
  }

  /** The listing of some earlier moment: valid records with distinct IDs. */
  ghost predicate Listing(listed: seq<MountRecord>) {
    && (forall i :: 0 <= i < |listed| ==> ValidForWrite(listed[i]))
    && (forall i, j :: 0 <= i < j < |listed| ==> listed[i].info.id != listed[j].info.id)
  }

  /** The listed records are still as stored. */
  ghost predicate Fresh(d: Daemon, listed: seq<MountRecord>) {
    forall i :: 0 <= i < |listed| ==>
      listed[i].info.id in d.repo.records && d.repo.records[listed[i].info.id] == listed[i]
  }

  /** The listed record number `i` gets decision `x`, judged by the registry before the pass. */
  predicate DecidedAt(d: Daemon, listed: seq<MountRecord>, faults: MountRecord -> Faults, restore: bool,
                      i: nat, x: Decision) {
    && i < |listed| && (restore || listed[i].tombstone)
    && Decide(listed[i], listed[i].info.id in d.registry, faults(listed[i])) == x
  }

  ghost predicate Decided(d: Daemon, listed: seq<MountRecord>, faults: MountRecord -> Faults, restore: bool,
                          id: string, x: Decision) {
    exists i: nat :: DecidedAt(d, listed, faults, restore, i, x) && listed[i].info.id == id
  }

  /** What the entry registered for a record persists first. */
  function Pending(record: MountRecord): MountRecord {
    MountRecord(record.info.(state := PendingMount), false)
  }

  /** The pass rewrites the record of the listed record number `i`. */
  predicate Rewrites(d: Daemon, listed: seq<MountRecord>, faults: MountRecord -> Faults, restore: bool, i: nat) {
    DecidedAt(d, listed, faults, restore, i, Remount) && faults(listed[i]).persistOk
  }

  ghost predicate Rewritten(d: Daemon, listed: seq<MountRecord>, faults: MountRecord -> Faults, restore: bool,
                            id: string) {
    exists i: nat :: Rewrites(d, listed, faults, restore, i) && listed[i].info.id == id
  }

  /** What decision `x` about `record` does: at most one key comes or goes, and at most one record is rewritten. */
  ghost predicate Carried(d: Daemon, record: MountRecord, x: Decision, persistOk: bool, d': Daemon) {
    && (forall id :: id in d'.registry <==> (id in d.registry || (x == Remount && id == record.info.id)))
    && (forall id :: id in d'.repo.records <==> (id in d.repo.records && (x != Forget || id != record.info.id)))
    && (forall id :: id in d'.repo.records ==>
          d'.repo.records[id] ==
            if id == record.info.id && x == Remount && persistOk then Pending(record) else d.repo.records[id])
  }

  lemma RecordStep(d: Daemon, record: MountRecord, faults: Faults)
    requires ValidForWrite(record)
    ensures Carried(d, record, Decide(record, record.info.id in d.registry, faults), faults.persistOk,
                    ReconcileRecord(d, record, faults))
  {
  }

  /** `r` is what the pass must produce from `d`. */
  ghost predicate Exact(d: Daemon, listed: seq<MountRecord>, faults: MountRecord -> Faults, restore: bool, r: Daemon) {
    && (forall id :: id in r.registry <==> (id in d.registry || Decided(d, listed, faults, restore, id, Remount)))
    && (forall id :: id in r.repo.records <==>
          (id in d.repo.records && !Decided(d, listed, faults, restore, id, Forget)))
    && (forall i: nat :: Rewrites(d, listed, faults, restore, i) && listed[i].info.id in r.repo.records ==>
          r.repo.records[listed[i].info.id] == Pending(listed[i]))
    && (forall id :: id in r.repo.records && !Rewritten(d, listed, faults, restore, id) ==>
          r.repo.records[id] == d.repo.records[id])
  }

  /** `d` and `d'` differ only in whether the first listed ID is managed, and the other listed IDs are others. */
  ghost predicate Tail(d: Daemon, d': Daemon, listed: seq<MountRecord>) {
    && listed != [] && (forall i :: 0 < i < |listed| ==> listed[i].info.id != listed[0].info.id)
    && (forall other :: other != listed[0].info.id ==> (other in d.registry <==> other in d'.registry))
  }

  lemma DecidedTail(d: Daemon, d': Daemon, listed: seq<MountRecord>, faults: MountRecord -> Faults, restore: bool,
                    id: string, x: Decision)
    requires Tail(d, d', listed)
    ensures Decided(d, listed, faults, restore, id, x) <==>
      (|| (id == listed[0].info.id && DecidedAt(d, listed, faults, restore, 0, x))
       || Decided(d', listed[1..], faults, restore, id, x))
  {
    var tail := listed[1..];
    forall i: nat
      ensures DecidedAt(d', tail, faults, restore, i, x) <==> DecidedAt(d, listed, faults, restore, i + 1, x)
    {
      assert i < |tail| ==> tail[i] == listed[i + 1];
    }
    if i: nat :| DecidedAt(d, listed, faults, restore, i, x) && listed[i].info.id == id && i > 0 {
      assert DecidedAt(d', tail, faults, restore, i - 1, x) && tail[i - 1] == listed[i];
    }
    if i: nat :| DecidedAt(d', tail, faults, restore, i, x) && tail[i].info.id == id {
      assert DecidedAt(d, listed, faults, restore, i + 1, x) && listed[i + 1] == tail[i];
    }
  }

  lemma RewritesTail(d: Daemon, d': Daemon, listed: seq<MountRecord>, faults: MountRecord -> Faults, restore: bool,
                     i: nat)
    requires Tail(d, d', listed)
    ensures Rewrites(d', listed[1..], faults, restore, i) <==> Rewrites(d, listed, faults, restore, i + 1)
  {
    assert i < |listed| - 1 ==> listed[1..][i] == listed[i + 1];
  }

  lemma RewrittenTail(d: Daemon, d': Daemon, listed: seq<MountRecord>, faults: MountRecord -> Faults, restore: bool,
                      id: string)
    requires Tail(d, d', listed)
    ensures Rewritten(d, listed, faults, restore, id) <==>
      (|| (id == listed[0].info.id && Rewrites(d, listed, faults, restore, 0))
       || Rewritten(d', listed[1..], faults, restore, id))
  {
    var tail := listed[1..];
    if i: nat :| Rewrites(d, listed, faults, restore, i) && listed[i].info.id == id && i > 0 {
      RewritesTail(d, d', listed, faults, restore, i - 1);
      assert Rewrites(d', tail, faults, restore, i - 1) && tail[i - 1] == listed[i];
    }
    if i: nat :| Rewrites(d', tail, faults, restore, i) && tail[i].info.id == id {
      RewritesTail(d, d', listed, faults, restore, i);
      assert Rewrites(d, listed, faults, restore, i + 1) && listed[i + 1] == tail[i];
    }
  }

  /** The first record of a pass: decided on, or passed over. */
  ghost predicate First(d: Daemon, listed: seq<MountRecord>, faults: MountRecord -> Faults, restore: bool, d': Daemon) {
    listed != [] &&
    if restore || listed[0].tombstone
    then Carried(d, listed[0], Decide(listed[0], listed[0].info.id in d.registry, faults(listed[0])),
                 faults(listed[0]).persistOk, d')
    else d' == d
  }

  lemma ExactKeys(d: Daemon, d': Daemon, listed: seq<MountRecord>, faults: MountRecord -> Faults, restore: bool,
                  r: Daemon)
    requires Tail(d, d', listed) && First(d, listed, faults, restore, d') && Exact(d', listed[1..], faults, restore, r)
    ensures forall id :: id in r.registry <==> (id in d.registry || Decided(d, listed, faults, restore, id, Remount))
    ensures forall id :: id in r.repo.records <==>
      (id in d.repo.records && !Decided(d, listed, faults, restore, id, Forget))
  {
    forall id, x
      ensures Decided(d, listed, faults, restore, id, x) <==>
        (|| (id == listed[0].info.id && DecidedAt(d, listed, faults, restore, 0, x))
         || Decided(d', listed[1..], faults, restore, id, x))
    {
      DecidedTail(d, d', listed, faults, restore, id, x);
    }
  }

  lemma NotListedAgain(d: Daemon, listed: seq<MountRecord>, faults: MountRecord -> Faults, restore: bool, first: string)
    requires forall i :: 0 <= i < |listed| ==> listed[i].info.id != first
    ensures !Rewritten(d, listed, faults, restore, first)
  {
  }

  lemma ExactRecords(d: Daemon, d': Daemon, listed: seq<MountRecord>, faults: MountRecord -> Faults, restore: bool,
                     r: Daemon)
    requires Tail(d, d', listed) && First(d, listed, faults, restore, d') && Exact(d', listed[1..], faults, restore, r)
    ensures forall i: nat :: Rewrites(d, listed, faults, restore, i) && listed[i].info.id in r.repo.records ==>
      r.repo.records[listed[i].info.id] == Pending(listed[i])
    ensures forall id :: id in r.repo.records && !Rewritten(d, listed, faults, restore, id) ==>
      id in d.repo.records && r.repo.records[id] == d.repo.records[id]
  {
    var tail := listed[1..];
    NotListedAgain(d', tail, faults, restore, listed[0].info.id);
    forall i: nat | Rewrites(d, listed, faults, restore, i) && listed[i].info.id in r.repo.records
      ensures r.repo.records[listed[i].info.id] == Pending(listed[i])
    {
      if i > 0 {
        RewritesTail(d, d', listed, faults, restore, i - 1);
        assert tail[i - 1] == listed[i];
      }
    }
    forall id | id in r.repo.records && !Rewritten(d, listed, faults, restore, id)
      ensures id in d.repo.records && r.repo.records[id] == d.repo.records[id]
    {
      RewrittenTail(d, d', listed, faults, restore, id);
    }
  }

  /**
   * A whole pass under every pattern of faults, however stale its listing: it registers exactly the ordinary
   * records it cleared, deletes exactly the tombstones it cleared, and rewrites exactly the records that it
   * registers and persists.
   */
  lemma {:induction false} PassIsExact(d: Daemon, listed: seq<MountRecord>, faults: MountRecord -> Faults,
                                       restore: bool)
    requires Listing(listed)
    ensures Exact(d, listed, faults, restore, ReconcileAll(d, listed, faults, restore))
    decreases |listed|
  {
    if listed != [] {
      var record := listed[0];
      var d' := if restore || record.tombstone then ReconcileRecord(d, record, faults(record)) else d;
      var r := ReconcileAll(d', listed[1..], faults, restore);
      RecordStep(d, record, faults(record));
      PassIsExact(d', listed[1..], faults, restore);
      ExactKeys(d, d', listed, faults, restore, r);
      ExactRecords(d, d', listed, faults, restore, r);
    }
  }

  // ---------------------------------------------------------------- what becomes of one listed record

  /**
   * What reconciling `record` leaves behind, without the decision procedure: an unmanaged record is dealt with only
   * if nothing is mounted there, or a known client's mount was detached completely (not merely lazily). Then a
   * tombstone is deleted if its data and its record can be removed, and an ordinary record is registered.
   */
  predicate Judged(d: Daemon, record: MountRecord, faults: Faults, d': Daemon) {
    var id := record.info.id;
    var free :=
      && id !in d.registry
      && (|| faults.probe == NotMounted
          || (faults.probe == IsMounted && record.info.config.client != Unrecognized && faults.detach == DetachDone));
    var deleted := record.tombstone && free && faults.removeOk && faults.deleteOk;
    var registered := !record.tombstone && free;
    && (id in d'.repo.records <==> id in d.repo.records && !deleted)
    && (id in d'.registry <==> id in d.registry || registered)
    && (registered ==> d'.registry[id] == record.info.(state := PendingMount))
    && (id in d'.repo.records ==>
          d'.repo.records[id] == if registered && faults.persistOk
                                 then MountRecord(record.info.(state := PendingMount), false) else d.repo.records[id])
  }

  lemma RecordIsJudged(d: Daemon, record: MountRecord, faults: Faults)
    requires ValidForWrite(record)
    ensures Judged(d, record, faults, ReconcileRecord(d, record, faults))
  {
  }

  /** What the pass and a step of it have in common, seen from one ID. */
  predicate SameAt(d: Daemon, d': Daemon, id: string) {
    && (id in d.registry <==> id in d'.registry) && (id in d.registry ==> d.registry[id] == d'.registry[id])
    && (id in d.repo.records <==> id in d'.repo.records)
    && (id in d.repo.records ==> d.repo.records[id] == d'.repo.records[id])
  }

  lemma OthersSame(d: Daemon, record: MountRecord, faults: Faults, id: string)
    requires id != record.info.id
    ensures SameAt(d, ReconcileRecord(d, record, faults), id)
  {
  }

  lemma JudgedSame(d: Daemon, d': Daemon, record: MountRecord, faults: Faults, r: Daemon, r': Daemon)
    requires SameAt(d, d', record.info.id) && SameAt(r, r', record.info.id) && Judged(d', record, faults, r)
    ensures Judged(d, record, faults, r')
  {
  }

  /** A pass does nothing to a mount that is not listed, and to an ordinary one if it restores nothing. */
  lemma {:induction false} PassSpares(d: Daemon, listed: seq<MountRecord>, faults: MountRecord -> Faults,
                                      restore: bool, id: string)
    requires forall i :: 0 <= i < |listed| && listed[i].info.id == id ==> !restore && !listed[i].tombstone
    ensures SameAt(d, ReconcileAll(d, listed, faults, restore), id)
    decreases |listed|
  {
    if listed != [] {
      var record := listed[0];
      var d' := if restore || record.tombstone then ReconcileRecord(d, record, faults(record)) else d;
      if record.info.id != id {
        OthersSame(d, record, faults(record), id);
      }
      PassSpares(d', listed[1..], faults, restore, id);
    }
  }

  /**
   * A pass deletes exactly the listed tombstones, and registers exactly the listed ordinary records, that are
   * unmanaged and whose mount is gone or completely detached, whatever becomes of the records around them.
   */
  lemma {:induction false} PassJudgesEach(d: Daemon, listed: seq<MountRecord>, faults: MountRecord -> Faults,
                                          restore: bool, i: nat)
    requires Listing(listed) && i < |listed| && (restore || listed[i].tombstone)
    ensures Judged(d, listed[i], faults(listed[i]), ReconcileAll(d, listed, faults, restore))
    decreases |listed|
  {
    var record := listed[0];
    var d' := if restore || record.tombstone then ReconcileRecord(d, record, faults(record)) else d;
    var r := ReconcileAll(d', listed[1..], faults, restore);
    if i == 0 {
      RecordIsJudged(d, record, faults(record));
      PassSpares(d', listed[1..], faults, restore, record.info.id);
      JudgedSame(d, d, record, faults(record), d', r);
    } else {
      PassJudgesEach(d', listed[1..], faults, restore, i - 1);
      OthersSame(d, record, faults(record), listed[i].info.id);
      JudgedSame(d, d', listed[i], faults(listed[i]), r, r);
    }
  }

  // ---------------------------------------------------------------- fresh listings

  /** A pass over a fresh listing changes no tombstone flag and no configuration. */
  lemma FreshPass(d: Daemon, listed: seq<MountRecord>, faults: MountRecord -> Faults, restore: bool, id: string)
    requires Listing(listed) && Fresh(d, listed)
    requires id in ReconcileAll(d, listed, faults, restore).repo.records
    ensures id in d.repo.records
    ensures var after := ReconcileAll(d, listed, faults, restore).repo.records[id];
      after.tombstone == d.repo.records[id].tombstone && after.info.config == d.repo.records[id].info.config
  {
    PassIsExact(d, listed, faults, restore);
    if i: nat :| Rewrites(d, listed, faults, restore, i) && listed[i].info.id == id {
      assert d.repo.records[id] == listed[i];
    }
  }

  lemma RecordKeepsConsistent(d: Daemon, record: MountRecord, faults: Faults)
    requires Consistent(d.repo) && record.info.id in d.repo.records && d.repo.records[record.info.id] == record
    ensures Consistent(ReconcileRecord(d, record, faults).repo)
  {
    if Decide(record, record.info.id in d.registry, faults) == Forget {
      DeleteKeepsConsistent(d.repo, record.info.id);
    } else if Update(d.repo, Pending(record)).Stored? {
      UpdateKeepsConsistentIff(d.repo, Pending(record));
    }
  }

  /** A pass over a fresh listing keeps records and path index exact inverses. */
  lemma {:induction false} PassKeepsConsistent(d: Daemon, listed: seq<MountRecord>, faults: MountRecord -> Faults,
                                               restore: bool)
    requires Consistent(d.repo) && Listing(listed) && Fresh(d, listed)
    ensures Consistent(ReconcileAll(d, listed, faults, restore).repo)
    decreases |listed|
  {
    if listed != [] {
      var record := listed[0];
      var d' := if restore || record.tombstone then ReconcileRecord(d, record, faults(record)) else d;
      RecordKeepsConsistent(d, record, faults(record));
      RecordStep(d, record, faults(record));
      assert Fresh(d', listed[1..]);
      PassKeepsConsistent(d', listed[1..], faults, restore);
    }
  }

  /** Without faults and from an empty registry: the ordinary records are managed, the tombstones gone. */
  lemma FaultFreePass(d: Daemon, listed: seq<MountRecord>, faults: MountRecord -> Faults)
    requires Keyed(d.repo) && Listing(listed) && Fresh(d, listed) && d.registry == map[]
    requires forall id :: id in d.repo.records ==> d.repo.records[id] in listed
    requires forall i :: 0 <= i < |listed| ==>
               FaultFree(faults(listed[i])) && listed[i].info.config.client != Unrecognized
    ensures var r := ReconcileAll(d, listed, faults, true);
      && (forall id :: id in r.registry <==> (id in d.repo.records && !d.repo.records[id].tombstone))
      && (forall id :: id in r.registry <==> id in r.repo.records)
      && (forall id :: id in r.repo.records ==> !r.repo.records[id].tombstone)
  {
    PassIsExact(d, listed, faults, true);
    forall id
      ensures Decided(d, listed, faults, true, id, Remount) <==> (id in d.repo.records && !d.repo.records[id].tombstone)
      ensures Decided(d, listed, faults, true, id, Forget) <==> (id in d.repo.records && d.repo.records[id].tombstone)
    {
      FaultFreeDecided(d, listed, faults, id);
    }
    forall id | id in ReconcileAll(d, listed, faults, true).repo.records
      ensures !ReconcileAll(d, listed, faults, true).repo.records[id].tombstone
    {
      FreshPass(d, listed, faults, true, id);
    }
  }

  lemma FaultFreeDecided(d: Daemon, listed: seq<MountRecord>, faults: MountRecord -> Faults, id: string)
    requires Fresh(d, listed) && d.registry == map[] && Keyed(d.repo)
    requires id in d.repo.records ==> d.repo.records[id] in listed
    requires forall i :: 0 <= i < |listed| ==>
               FaultFree(faults(listed[i])) && listed[i].info.config.client != Unrecognized
    ensures Decided(d, listed, faults, true, id, Remount) <==> (id in d.repo.records && !d.repo.records[id].tombstone)
    ensures Decided(d, listed, faults, true, id, Forget) <==> (id in d.repo.records && d.repo.records[id].tombstone)
  {
    if id in d.repo.records {
      var i :| 0 <= i < |listed| && listed[i] == d.repo.records[id];
      assert DecidedAt(d, listed, faults, true, i, if listed[i].tombstone then Forget else Remount);
    }
  }

  /** The manager whose loop the daemon runs. */
  class MountManager {
    var registry: map<string, MountInfo>
    var repo: Repo

    constructor (repo: Repo)
      ensures this.repo == repo && registry == map[]
    {
      this.repo, registry := repo, map[];
    }

    ghost function View(): Daemon
      reads this
    {
      Daemon(registry, repo)
    }

    method Reconcile(listed: seq<MountRecord>, faults: MountRecord -> Faults, restore: bool)
      modifies this
      ensures View() == ReconcileAll(old(View()), listed, faults, restore)
    {
      var n := 0;
      while n < |listed|
        invariant 0 <= n <= |listed|
        invariant ReconcileAll(View(), listed[n..], faults, restore)
          == ReconcileAll(old(View()), listed, faults, restore)
      {
        var record := listed[n];
        if restore || record.tombstone {
          ReconcileOne(record, faults(record));
        }
        assert listed[n..][1..] == listed[n + 1..];
        n := n + 1;
      }
    }

    method ReconcileOne(record: MountRecord, faults: Faults)
      modifies this
      ensures View() == ReconcileRecord(old(View()), record, faults)
      ensures ValidForWrite(record) ==> Judged(old(View()), record, faults, View())
    {
      var id := record.info.id;
      if id in registry || !Cleared(record, faults) {
        return;
      }
      if record.tombstone {
        if faults.removeOk && faults.deleteOk {
          var outcome := Delete(repo, id);
          repo := if outcome.Stored? then outcome.repo else repo;
        }
        return;
      }
      var pending := MountRecord(record.info.(state := PendingMount), false);
      registry := registry[id := pending.info];
      var outcome := Update(repo, pending);
      if faults.persistOk && outcome.Stored? {
        repo := outcome.repo;
      }
    }
  }
}
