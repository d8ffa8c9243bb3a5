/** Shutdown, then a crash of what is left and a restart: exactly which mounts are managed again. */
module RestartTheorems {
  import opened MountTypes
  import opened Controller
  import opened ControllerProofs
  import opened Durable
  import opened DurableProofs
  import opened DurableTheorems
  import opened Repository
  import L = Ledger

  // ---------------------------------------------------------------- a drained daemon

  /** No Mount or Unmount request is in flight, as after the listeners have drained. */
  predicate Drained(s: System) {
    forall i :: 0 <= i < |s.objects| ==>
      !s.objects[i].entry.operation.Tombstoning? && !s.objects[i].entry.operation.Creating?
  }

  /** The mount is managed by the owner of its record and not being unmounted. */
  predicate OwnedAndActive(s: System, id: string) {
    && id in s.registry && s.registry[id] < |s.objects|
    && s.objects[s.registry[id]].owns && !s.objects[s.registry[id]].entry.unmounting
  }

  /** An entry step while shutting down: anything but a new request. */
  predicate DrainEvent(event: Event) {
    event.EntryStep? && !event.action.UnmountRequested?
  }

  lemma DrainedStep(s: System, i: nat, a: Action, e': Entry)
    requires i < |s.objects| && WriteCanSucceed(s.repo, s.objects[i].entry, a) && Drained(s)
    requires NoNewRequest(s.objects[i].entry, e')
    ensures Drained(Effect(s, i, a, e'))
  {
    EffectEntries(s, i, a, e');
  }

  /** What is known of object `i` of a drained daemon, and of the record of its ID. */
  predicate DrainFacts(s: System, i: nat, a: Action)
    requires i < |s.objects|
  {
    var o := s.objects[i];
    var id := o.entry.info.id;
    && a != CreateReturns(true) && a != TombstoneReturns(true)
    && o.entry.unmounting == o.entry.accepted
    && (a == DeleteReturns(true) || a.Unregister? || !o.entry.accepted ==> id in s.registry && s.registry[id] == i)
    && (a == DeleteReturns(true) || a.Unregister? ==> o.entry.unmounting)
    && (o.owns ==>
          && id in s.repo.records
          && (id !in s.foreign ==> s.repo.records[id].info.config == o.entry.info.config)
          && (id !in s.foreign && o.entry.accepted ==> s.repo.records[id].tombstone))
    && (a == DeleteReturns(true) && id !in s.foreign && id in s.repo.records ==> s.repo.records[id].tombstone)
  }

  lemma DrainedEntry(s: System, i: nat, a: Action, e': Entry)
    requires L.Inv(View(s)) && Ready(s, i, a, e') && Drained(s)
    ensures DrainFacts(s, i, a)
  {
    var f := View(s).faces[i];
    assert f == FaceOf(s.objects[i]);
    assert f.owns ==> L.HoldsRight(View(s), f);
    assert f.id !in s.foreign && f.id in s.final ==> L.Tombstone(View(s), f.id);
  }

  lemma DeleteFrame(s: System, i: nat, e': Entry)
    requires i < |s.objects| && WriteCanSucceed(s.repo, s.objects[i].entry, DeleteReturns(true))
    requires e'.info.id == s.objects[i].entry.info.id
    ensures var s' := Effect(s, i, DeleteReturns(true), e'); var id := e'.info.id;
      && s'.repo.records == s.repo.records - {id} && s'.registry == s.registry && |s'.objects| == |s.objects|
      && (forall j :: 0 <= j < |s.objects| && s.objects[j].entry.info.id != id ==> s'.objects[j] == s.objects[j])
      && s'.objects[i].entry == e'
  {
  }

  predicate CanDrain(s: System, i: nat, a: Action, e': Entry) {
    && Ready(s, i, a, e') && Drained(s) && !a.UnmountRequested? && NoNewRequest(s.objects[i].entry, e')
  }

  lemma MoveFrame(s: System, i: nat, a: Action, e': Entry)
    requires i < |s.objects| && WriteCanSucceed(s.repo, s.objects[i].entry, a)
    requires !WritesRecord(a) || a == PersistReturns(true)
    ensures Effect(s, i, a, e').objects == s.objects[i := s.objects[i].(entry := e')]
  {
  }

  // ---------------------------------------------------------------- one step

  predicate RegistryIds(s: System) {
    forall id :: id in s.registry ==>
      s.registry[id] < |s.objects| && s.objects[s.registry[id]].entry.info.id == id
  }

  lemma IdsOfRegistry(s: System)
    requires L.Inv(View(s))
    ensures RegistryIds(s)
  {
    forall id | id in s.registry
      ensures s.registry[id] < |s.objects| && s.objects[s.registry[id]].entry.info.id == id
    {
      assert View(s).faces[s.registry[id]] == FaceOf(s.objects[s.registry[id]]);
    }
  }

  /** Draining neither makes a mount active nor ends its being so. */
  predicate SameActive(s: System, s': System, id: string) {
    && (OwnedAndActive(s, id) <==> OwnedAndActive(s', id))
    && (OwnedAndActive(s, id) ==> s'.registry[id] == s.registry[id])
  }

  lemma ActiveStep(s: System, i: nat, a: Action, e': Entry, id: string)
    requires CanDrain(s, i, a, e') && DrainFacts(s, i, a) && RegistryIds(s)
    ensures SameActive(s, Effect(s, i, a, e'), id)
  {
    if a == DeleteReturns(true) {
      DeleteFrame(s, i, e');
    } else {
      MoveFrame(s, i, a, e');
      if a == PersistReturns(true) {
        PersistFrame(s, i, e');
      } else {
        QuietFrame(s, i, a, e');
      }
    }
  }

  /** The record of `id` becomes ordinary by its active owner's persist, and stays ordinary. */
  predicate OrdinaryAfter(s: System, i: nat, a: Action, s': System, id: string) {
    && (Ordinary(s'.repo, id) <==>
          Ordinary(s.repo, id) || (OwnedAndActive(s, id) && s.registry[id] == i && a == PersistReturns(true)))
    && SameConfig(s, s', id)
  }

  /** The record, if it is there at all, was there before with the same configuration. */
  predicate SameConfig(s: System, s': System, id: string) {
    id in s'.repo.records ==>
      id in s.repo.records && s'.repo.records[id].info.config == s.repo.records[id].info.config
  }

  lemma OrdinaryStep(s: System, i: nat, a: Action, e': Entry, id: string)
    requires CanDrain(s, i, a, e') && DrainFacts(s, i, a) && RegistryIds(s)
    requires id !in s.foreign && id !in Effect(s, i, a, e').foreign
    ensures OrdinaryAfter(s, i, a, Effect(s, i, a, e'), id)
  {
    if a == DeleteReturns(true) {
      DeleteFrame(s, i, e');
    } else if a == PersistReturns(true) {
      PersistFrame(s, i, e');
    } else {
      QuietFrame(s, i, a, e');
    }
  }

  lemma DrainStep(policy: Policy, s: System, event: Event, id: string)
    requires SystemInv(policy, s) && RegistryInRange(s) && CanHappen(s, event) && Drained(s) && DrainEvent(event)
    requires id !in s.foreign && id !in Next(policy, s, event).foreign
    ensures Drained(Next(policy, s, event)) && SameActive(s, Next(policy, s, event), id)
    ensures OrdinaryAfter(s, event.i, event.action, Next(policy, s, event), id)
  {
    var i, a := event.i, event.action;
    var e' := Apply(policy, s.objects[i].entry, a);
    StepMoves(policy, s.objects[i].entry, a);
    RequestOrigin(policy, s.objects[i].entry, a);
    DrainedStep(s, i, a, e');
    DrainedEntry(s, i, a, e');
    IdsOfRegistry(s);
    ActiveStep(s, i, a, e', id);
    OrdinaryStep(s, i, a, e', id);
  }

  // ---------------------------------------------------------------- over a run

  /** Some persist of object `i` succeeds in the run. */
  predicate Persists(run: seq<Event>, i: nat) {
    exists k :: 0 <= k < |run| && run[k] == EntryStep(i, PersistReturns(true))
  }

  lemma PersistsCons(run: seq<Event>, i: nat)
    requires run != []
    ensures Persists(run, i) <==> run[0] == EntryStep(i, PersistReturns(true)) || Persists(run[1..], i)
  {
    if Persists(run, i) {
      var k :| 0 <= k < |run| && run[k] == EntryStep(i, PersistReturns(true));
      assert k > 0 ==> run[1..][k - 1] == run[k];
    }
    if Persists(run[1..], i) {
      var k :| 0 <= k < |run| - 1 && run[1..][k] == EntryStep(i, PersistReturns(true));
      assert run[k + 1] == run[1..][k];
    }
  }

  /** The mount will be restored: its record is ordinary, or its active owner persists it before the end. */
  predicate Restorable(s: System, run: seq<Event>, id: string) {
    Ordinary(s.repo, id) || (OwnedAndActive(s, id) && Persists(run, s.registry[id]))
  }

  lemma RestorableCons(s: System, run: seq<Event>, s1: System, id: string)
    requires run != [] && run[0].EntryStep? && SameActive(s, s1, id)
    requires OrdinaryAfter(s, run[0].i, run[0].action, s1, id)
    ensures Restorable(s, run, id) <==> Restorable(s1, run[1..], id)
  {
    if OwnedAndActive(s, id) {
      PersistsCons(run, s.registry[id]);
    }
  }

  lemma DrainOne(policy: Policy, s: System, run: seq<Event>, id: string) returns (s1: System)
    requires SystemInv(policy, s) && CanHappenAll(policy, s, run) && Drained(s) && run != [] && DrainEvent(run[0])
    requires NeverForeign(policy, s, run, id)
    ensures s1 == Next(policy, s, run[0]) && SystemInv(policy, s1) && Drained(s1) && SameConfig(s, s1, id)
    ensures Restorable(s, run, id) <==> Restorable(s1, run[1..], id)
  {
    s1 := Next(policy, s, run[0]);
    SystemStep(policy, s, run[0]);
    assert NeverForeign(policy, s1, run[1..], id);
    DrainStep(policy, s, run[0], id);
    RestorableCons(s, run, s1, id);
  }

  /**
   * However the drained daemon's goroutines, timers and shutdown steps interleave: a record that no foreign
   * entry overwrites is ordinary at the end exactly if it was ordinary, or belongs to an active mount of
   * which some persist succeeds; and it keeps its configuration.
   */
  lemma {:induction false} DrainRun(policy: Policy, s: System, run: seq<Event>, id: string)
    requires SystemInv(policy, s) && CanHappenAll(policy, s, run) && Drained(s)
    requires (forall i :: 0 <= i < |run| ==> DrainEvent(run[i])) && NeverForeign(policy, s, run, id)
    ensures Ordinary(NextAll(policy, s, run).repo, id) <==> Restorable(s, run, id)
    ensures SameConfig(s, NextAll(policy, s, run), id)
    decreases |run|
  {
    if run != [] {
      var s1 := DrainOne(policy, s, run, id);
      DrainRun(policy, s1, run[1..], id);
    }
  }

  // ---------------------------------------------------------------- shutdown, then restart

  /** `s'` is reached from `s` by draining, a crash, and a fault-free restoring start that has finished. */
  ghost predicate Restarted(policy: Policy, s: System, drain: seq<Event>, start: seq<Event>, s': System) {
    && CanHappenAll(policy, s, drain)
    && (forall i :: 0 <= i < |drain| ==> DrainEvent(drain[i]))
    && (forall i :: 0 <= i < |start| ==> StartEvent(start[i]))
    && var down := AfterCrash(NextAll(policy, s, drain));
       && CanHappenAll(policy, down, [Boot(true)] + start) && s' == NextAll(policy, down, [Boot(true)] + start)
       && s'.listed == {}
       && (forall id :: id in down.repo.records ==> down.repo.records[id].info.config.client != Unrecognized)
  }

  lemma CrashIsSafe(policy: Policy, s: System)
    requires SystemInv(policy, s)
    ensures SystemInv(policy, AfterCrash(s))
  {
    InRange(s);
    SystemStep(policy, s, Crash);
  }

  lemma RestoresWhatIsLeft(policy: Policy, s: System, drain: seq<Event>, start: seq<Event>, s': System)
    requires SystemInv(policy, s) && Restarted(policy, s, drain, start, s')
    ensures RestoredExactly(NextAll(policy, s, drain).repo, s')
  {
    var s1 := NextAll(policy, s, drain);
    RunKeepsInv(policy, s, drain);
    CrashIsSafe(policy, s1);
    StartIsExact(policy, AfterCrash(s1), start);
  }

  /**
   * Shutdown and restart: a mount whose record no foreign entry overwrites is managed again, with its ID and
   * configuration, if and only if its record was ordinary, or it was owned and active and some persist of it
   * succeeded during the shutdown. The records are those of the managed mounts, and no tombstone is left.
   */
  lemma RestartIsIdentity(policy: Policy, s: System, drain: seq<Event>, start: seq<Event>, s': System, id: string)
    requires SystemInv(policy, s) && Drained(s) && Restarted(policy, s, drain, start, s')
    requires NeverForeign(policy, s, drain, id)
    ensures id in s'.registry <==> Restorable(s, drain, id)
    ensures id in s'.registry ==> id in s'.repo.records && SameConfig(s, s', id)
    ensures s'.registry.Keys == s'.repo.records.Keys
    ensures forall x :: x in s'.repo.records ==> !s'.repo.records[x].tombstone
  {
    DrainRun(policy, s, drain, id);
    RestoresWhatIsLeft(policy, s, drain, start, s');
    Compose(s, NextAll(policy, s, drain), s', id);
  }

  lemma Compose(s: System, s1: System, s': System, id: string)
    requires RestoredExactly(s1.repo, s') && SameConfig(s, s1, id)
    ensures id in s'.registry <==> Ordinary(s1.repo, id)
    ensures id in s'.registry ==> id in s'.repo.records && SameConfig(s, s', id)
    ensures s'.registry.Keys == s'.repo.records.Keys
    ensures forall x :: x in s'.repo.records ==> !s'.repo.records[x].tombstone
  {
  }
}
