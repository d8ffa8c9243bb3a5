/** The daemon refines the ledger, so every event keeps the ledger's invariant. */
module DurableProofs {
  import opened MountTypes
  import opened Paths
  import opened Controller
  import opened ControllerProofs
  import opened Repository
  import opened Durable
  import CT = ControllerTheorems
  import R = Reconcile
  import L = Ledger

  function FaceOf(o: Object): L.Face {
    L.Face(o.entry.info.id, o.entry.info.config, Clean(o.entry.info.config.path), o.owns, o.entry.registered,
           o.entry.unmounting, o.entry.accepted, o.entry.superseded, Dormant(o.entry))
  }

  function Faces(objects: seq<Object>): (r: seq<L.Face>)
    ensures |r| == |objects| && forall i :: 0 <= i < |r| ==> r[i] == FaceOf(objects[i])
  {
    seq(|objects|, i requires 0 <= i < |objects| => FaceOf(objects[i]))
  }

  function View(s: System): L.Book {
    L.Book(s.repo, Faces(s.objects), s.registry, s.phase, s.listed, s.final, s.hasty, s.foreign, s.moved)
  }

  ghost predicate ControllersOk(policy: Policy, s: System) {
    forall i :: 0 <= i < |s.objects| ==> Inv(policy, s.objects[i].entry)
  }

  ghost predicate SystemInv(policy: Policy, s: System) {
    ControllersOk(policy, s) && L.Inv(View(s))
  }

  // ---------------------------------------------------------------- an entry step

  /** What the daemon needs to know about one controller step from `e` to `e'`. */
  predicate Moves(e: Entry, a: Action, e': Entry) {
    && Summary(e) && Summary(e') && Enabled(e, a)
    && e'.info.id == e.info.id && e'.info.config == e.info.config
    && (if a.Unregister? then !e'.registered else e'.registered == e.registered)
    && (a.UnmountRequested? || e'.superseded == e.superseded) && (e.superseded ==> e'.superseded)
    && (if a == TombstoneReturns(true) then e'.accepted else e'.accepted == e.accepted)
    && (Dormant(e) && a != CreateReturns(true) ==> Dormant(e') || e'.accepted)
  }

  lemma StepMoves(policy: Policy, e: Entry, a: Action)
    requires Inv(policy, e) && Enabled(e, a)
    ensures Moves(e, a, Apply(policy, e, a)) && Inv(policy, Apply(policy, e, a))
  {
    InvStep(policy, e, a);
    SummaryHolds(policy, e);
    SummaryHolds(policy, Apply(policy, e, a));
    if Dormant(e) && a != CreateReturns(true) {
      DormantStep(policy, e, a);
    }
  }

  predicate Ready(s: System, i: nat, a: Action, e': Entry) {
    && i < |s.objects| && Moves(s.objects[i].entry, a, e') && s.phase != L.Down
    && (a.UnmountRequested? ==> s.phase == L.Serving)
    && WriteCanSucceed(s.repo, s.objects[i].entry, a)
  }

  lemma FacesUpdate(objects: seq<Object>, i: nat, o: Object)
    requires i < |objects|
    ensures Faces(objects[i := o]) == Faces(objects)[i := FaceOf(o)]
  {
  }

  lemma FacesDisown(objects: seq<Object>, id: string)
    ensures Faces(Disown(objects, id)) == L.Disown(Faces(objects), id)
  {
  }

  /** The moved entry still fits the ledger, and has the same rights unless the action changes them. */
  lemma MovedFace(s: System, i: nat, a: Action, e': Entry)
    requires L.Inv(View(s)) && Ready(s, i, a, e')
    ensures var f, g := FaceOf(s.objects[i]), FaceOf(s.objects[i].(entry := e'));
      && (a != CreateReturns(true) ==> L.CanMove(View(s), i, g))
      && L.SameRights(f.(registered := g.registered, accepted := g.accepted), g)
  {
  }

  lemma CreateEffect(s: System, i: nat, e': Entry)
    requires L.Inv(View(s)) && Ready(s, i, CreateReturns(true), e')
    ensures L.Inv(View(Effect(s, i, CreateReturns(true), e')))
  {
    FacesUpdate(s.objects, i, Object(e', true));
    MovedFace(s, i, CreateReturns(true), e');
    L.CreateKeeps(View(s), i, InfoToWrite(s.objects[i].entry, false), FaceOf(Object(e', true)));
  }

  predicate Updates(a: Action) {
    a == TombstoneReturns(true) || a == PersistReturns(true)
  }

  lemma CanUpdateEffect(s: System, i: nat, a: Action, tombstone: bool, e': Entry)
    requires L.Inv(View(s)) && Ready(s, i, a, e') && Updates(a)
    requires tombstone == (a.TombstoneReturns? || s.objects[i].entry.unmounting)
    ensures L.CanUpdate(View(s), i, InfoToWrite(s.objects[i].entry, tombstone), FaceOf(s.objects[i].(entry := e')))
  {
    MovedFace(s, i, a, e');
    if a.TombstoneReturns? {
      assert s.phase == L.Serving;
    }
  }

  lemma UpdateView(s: System, i: nat, tombstone: bool, e': Entry)
    requires i < |s.objects| && Update(s.repo, InfoToWrite(s.objects[i].entry, tombstone)).Stored?
    requires e'.info.id == s.objects[i].entry.info.id
    ensures L.Updated(View(s), i, InfoToWrite(s.objects[i].entry, tombstone), FaceOf(s.objects[i].(entry := e')))
      == View(AfterUpdate(s, i, tombstone, e'))
  {
    FacesUpdate(s.objects, i, s.objects[i].(entry := e'));
  }

  lemma UpdateEffect(s: System, i: nat, a: Action, tombstone: bool, e': Entry)
    requires L.Inv(View(s)) && Ready(s, i, a, e') && Updates(a)
    requires tombstone == (a.TombstoneReturns? || s.objects[i].entry.unmounting)
    ensures L.Inv(View(Effect(s, i, a, e')))
  {
    CanUpdateEffect(s, i, a, tombstone, e');
    UpdateView(s, i, tombstone, e');
    assert Effect(s, i, a, e') == AfterUpdate(s, i, tombstone, e');
    L.UpdateKeeps(View(s), i, InfoToWrite(s.objects[i].entry, tombstone), FaceOf(s.objects[i].(entry := e')));
  }

  lemma PlainEffect(s: System, i: nat, a: Action, e': Entry)
    requires L.Inv(View(s)) && Ready(s, i, a, e')
    requires a != CreateReturns(true) && a != TombstoneReturns(true) && !a.Unregister?
    ensures L.Inv(View(Move(s, i, e')))
  {
    FacesUpdate(s.objects, i, s.objects[i].(entry := e'));
    MovedFace(s, i, a, e');
    L.MoveKeeps(View(s), i, FaceOf(s.objects[i].(entry := e')));
  }

  lemma CanDeleteEffect(b: L.Book, i: nat)
    requires L.Inv(b) && i < |b.faces| && b.faces[i].registered && b.faces[i].accepted
    ensures L.CanDelete(b, b.faces[i].id)
  {
    assert b.phase == L.Serving;
    assert b.registry[b.faces[i].id] == i;
  }

  lemma RemovalKeeps(s: System, i: nat, id: string)
    requires L.Inv(View(s)) && i < |s.objects| && s.objects[i].entry.registered && s.objects[i].entry.accepted
    requires id == s.objects[i].entry.info.id
    ensures L.Inv(View(AfterDelete(s, id)))
  {
    assert View(s).faces[i] == FaceOf(s.objects[i]);
    CanDeleteEffect(View(s), i);
    L.DeleteKeeps(View(s), id);
    DeleteView(s, id);
  }

  lemma DeleteEffect(s: System, i: nat, e': Entry)
    requires L.Inv(View(s)) && Ready(s, i, DeleteReturns(true), e')
    ensures L.Inv(View(Effect(s, i, DeleteReturns(true), e')))
  {
    var s1 := Move(s, i, e');
    var id := s.objects[i].entry.info.id;
    PlainEffect(s, i, DeleteReturns(true), e');
    assert s1.objects[i].entry == e' && e'.registered && e'.accepted;
    RemovalKeeps(s1, i, id);
    assert Effect(s, i, DeleteReturns(true), e') == AfterDelete(s1, id);
  }

  lemma DeleteView(s: System, id: string)
    ensures View(AfterDelete(s, id)) == L.Deleted(View(s), id)
  {
    FacesDisown(s.objects, id);
  }

  lemma UnregisterEffect(s: System, i: nat, e': Entry)
    requires L.Inv(View(s)) && Ready(s, i, Unregister, e')
    ensures L.Inv(View(Effect(s, i, Unregister, e')))
  {
    FacesUpdate(s.objects, i, s.objects[i].(entry := e'));
    MovedFace(s, i, Unregister, e');
    L.UnregisterKeeps(View(s), i, FaceOf(s.objects[i].(entry := e')));
  }

  predicate WritesRecord(a: Action) {
    a == CreateReturns(true) || Updates(a) || a == DeleteReturns(true)
  }

  lemma WriteEffect(s: System, i: nat, a: Action, e': Entry)
    requires L.Inv(View(s)) && Ready(s, i, a, e') && WritesRecord(a)
    ensures L.Inv(View(Effect(s, i, a, e')))
  {
    if a == CreateReturns(true) {
      CreateEffect(s, i, e');
    } else if a == DeleteReturns(true) {
      DeleteEffect(s, i, e');
    } else {
      UpdateEffect(s, i, a, a.TombstoneReturns? || s.objects[i].entry.unmounting, e');
    }
  }

  lemma QuietEffect(s: System, i: nat, a: Action, e': Entry)
    requires L.Inv(View(s)) && Ready(s, i, a, e') && !WritesRecord(a) && !a.Unregister?
    ensures L.Inv(View(Effect(s, i, a, e')))
  {
    PlainEffect(s, i, a, e');
    assert View(Effect(s, i, a, e')) == View(Move(s, i, e'));
  }

  lemma EffectKeeps(s: System, i: nat, a: Action, e': Entry)
    requires L.Inv(View(s)) && Ready(s, i, a, e')
    ensures L.Inv(View(Effect(s, i, a, e')))
  {
    if WritesRecord(a) {
      WriteEffect(s, i, a, e');
    } else if a.Unregister? {
      UnregisterEffect(s, i, e');
    } else {
      QuietEffect(s, i, a, e');
    }
  }

  // ---------------------------------------------------------------- the other events

  lemma FacesAppend(objects: seq<Object>, o: Object)
    ensures Faces(objects + [o]) == Faces(objects) + [FaceOf(o)]
  {
  }

  lemma ForgetKeeps(s: System, record: MountRecord)
    requires L.Inv(View(s)) && record in s.listed && record.tombstone && record.info.id !in s.registry
    ensures L.Inv(View(AfterDelete(s.(listed := s.listed - {record}), record.info.id)))
  {
    var s1 := s.(listed := s.listed - {record});
    L.HandledKeeps(View(s), record);
    assert View(s1) == View(s).(listed := View(s).listed - {record});
    assert L.CanDelete(View(s1), record.info.id);
    DeleteView(s1, record.info.id);
    L.DeleteKeeps(View(s1), record.info.id);
  }

  lemma RemountPath(s: System, record: MountRecord, id: string)
    requires L.Inv(View(s)) && !s.moved && s.phase == L.Booting && id in s.registry
    requires record in s.listed && !record.tombstone && record.info.id !in s.registry
    ensures Clean(s.objects[s.registry[id]].entry.info.config.path) != Clean(record.info.config.path)
  {
    var f := View(s).faces[s.registry[id]];
    assert f.owns && f.id == id;
    if Clean(f.config.path) == Path(record) {
      PathsUnique(s.repo, id, record.info.id);
    }
  }

  lemma RemountKeeps(s: System, record: MountRecord)
    requires L.Inv(View(s)) && record in s.listed && !record.tombstone && record.info.id !in s.registry
    ensures var s1 := s.(listed := s.listed - {record});
      L.Inv(View(s1.(objects := s.objects + [Object(Restore(record), true)],
                     registry := s.registry[record.info.id := |s.objects|])))
  {
    var o := Object(Restore(record), true);
    if !s.moved {
      forall id | id in s.registry
        ensures View(s).faces[s.registry[id]].path != FaceOf(o).path
      {
        RemountPath(s, record, id);
      }
    }
    L.RemountKeeps(View(s), FaceOf(o), record);
    L.HandledKeeps(L.Added(View(s), FaceOf(o)), record);
    FacesAppend(s.objects, o);
  }

  lemma ReconcileKeeps(s: System, record: MountRecord, faults: R.Faults)
    requires L.Inv(View(s)) && record in s.listed
    ensures L.Inv(View(AfterReconcile(s, record, faults)))
  {
    match R.Decide(record, record.info.id in s.registry, faults)
    case Leave => L.HandledKeeps(View(s), record);
    case Forget => ForgetKeeps(s, record);
    case Remount => RemountKeeps(s, record);
  }

  lemma MountKeeps(s: System, id: string, config: MountConfig)
    requires L.Inv(View(s)) && s.phase == L.Serving && id !in s.registry
    requires RegistryInRange(s) && PathFree(s, Clean(config.path))
    ensures L.Inv(View(AfterMountRequest(s, id, config)))
  {
    var o := Object(NewMount(id, config.(path := Clean(config.path))), false);
    CleanIdempotent(config.path);
    FacesAppend(s.objects, o);
    L.MountKeeps(View(s), FaceOf(o));
  }

  lemma InRange(s: System)
    requires L.Inv(View(s))
    ensures RegistryInRange(s)
  {
  }

  lemma LedgerStep(policy: Policy, s: System, event: Event)
    requires SystemInv(policy, s) && RegistryInRange(s) && CanHappen(s, event)
    ensures L.Inv(View(Next(policy, s, event)))
  {
    match event
    case Boot(restore) => L.ListKeeps(View(s), restore);
    case ReconcileListed(record, faults) => ReconcileKeeps(s, record, faults);
    case Serve => L.ServeKeeps(View(s));
    case ListTombstones => L.ListKeeps(View(s), false);
    case MountRequest(id, config) => MountKeeps(s, id, config);
    case EntryStep(i, a) =>
      StepMoves(policy, s.objects[i].entry, a);
      EffectKeeps(s, i, a, Apply(policy, s.objects[i].entry, a));
    case Crash =>
      L.CrashKeeps(View(s));
      assert Faces([]) == [];
  }

  // ---------------------------------------------------------------- every event keeps the invariant

  /** An entry step moves one entry and leaves the others as they are. */
  lemma EffectEntries(s: System, i: nat, a: Action, e': Entry)
    requires i < |s.objects| && WriteCanSucceed(s.repo, s.objects[i].entry, a)
    ensures var s' := Effect(s, i, a, e');
      && |s'.objects| == |s.objects|
      && (forall j :: 0 <= j < |s.objects| ==> s'.objects[j].entry == if j == i then e' else s.objects[j].entry)
  {
    var moved := Move(s, i, e').objects;
    if a == DeleteReturns(true) {
      assert Effect(s, i, a, e').objects == Disown(moved, s.objects[i].entry.info.id);
    } else if a != CreateReturns(true) {
      assert Effect(s, i, a, e').objects == moved;
    }
  }

  lemma EntryStepKeepsControllers(policy: Policy, s: System, i: nat, a: Action, e': Entry)
    requires ControllersOk(policy, s) && i < |s.objects| && Inv(policy, e')
    requires WriteCanSucceed(s.repo, s.objects[i].entry, a)
    ensures ControllersOk(policy, Effect(s, i, a, e'))
  {
    EffectEntries(s, i, a, e');
  }

  lemma NewEntryKeepsControllers(policy: Policy, s: System, o: Object, s': System)
    requires ControllersOk(policy, s) && Initial(o.entry) && s'.objects == s.objects + [o]
    ensures ControllersOk(policy, s')
  {
    CT.InitialInv(policy, o.entry);
  }

  lemma ControllersStep(policy: Policy, s: System, event: Event)
    requires ControllersOk(policy, s) && RegistryInRange(s) && CanHappen(s, event)
    ensures ControllersOk(policy, Next(policy, s, event))
  {
    match event
    case ReconcileListed(record, faults) =>
      if R.Decide(record, record.info.id in s.registry, faults) == R.Remount {
        NewEntryKeepsControllers(policy, s, Object(Restore(record), true), Next(policy, s, event));
      }
    case MountRequest(id, config) =>
      var stored := config.(path := Clean(config.path));
      NewEntryKeepsControllers(policy, s, Object(NewMount(id, stored), false), Next(policy, s, event));
    case EntryStep(i, a) =>
      InvStep(policy, s.objects[i].entry, a);
      EntryStepKeepsControllers(policy, s, i, a, Apply(policy, s.objects[i].entry, a));
    case _ =>
  }

  lemma SystemStep(policy: Policy, s: System, event: Event)
    requires SystemInv(policy, s) && RegistryInRange(s) && CanHappen(s, event)
    ensures SystemInv(policy, Next(policy, s, event)) && RegistryInRange(Next(policy, s, event))
  {
    ControllersStep(policy, s, event);
    LedgerStep(policy, s, event);
    InRange(Next(policy, s, event));
  }
}
