/** The window between an Unmount request and the result of its tombstone write. */
module RejectedUnmount {
  import opened Controller
  import opened ControllerProofs
  import opened Repository
  import opened Durable
  import opened DurableProofs
  import opened DurableTheorems
  import opened RestartTheorems
  import L = Ledger

  // ---------------------------------------------------------------- the entry in its window

  lemma TombstoningStays(policy: Policy, e: Entry, a: Action)
    requires e.operation.Tombstoning? && Enabled(e, a) && !a.TombstoneReturns?
    ensures Apply(policy, e, a).operation == e.operation
  {
    assert a.ByThread() || a.PersistReturns?;
  }

  /** Object `i` owns its record and waits for the write of its tombstone. */
  predicate InWindow(s: System, i: nat) {
    i < |s.objects| && s.objects[i].owns && s.objects[i].entry.operation.Tombstoning?
  }

  /** What the window means for the registry, the record and the other objects. */
  predicate WindowFacts(s: System, i: nat)
    requires i < |s.objects|
  {
    var id := s.objects[i].entry.info.id;
    && s.objects[i].entry.unmounting && id in s.registry && s.registry[id] == i && id in s.repo.records
    && (forall j :: 0 <= j < |s.objects| && j != i && s.objects[j].entry.info.id == id ==>
          !s.objects[j].owns && !s.objects[j].entry.registered)
  }

  lemma WindowHolds(policy: Policy, s: System, i: nat)
    requires SystemInv(policy, s) && InWindow(s, i)
    ensures WindowFacts(s, i)
  {
    var v := View(s);
    assert v.faces[i] == FaceOf(s.objects[i]) && L.HoldsRight(v, v.faces[i]);
    assert Inv(policy, s.objects[i].entry);
    forall j | 0 <= j < |s.objects| && j != i && s.objects[j].entry.info.id == s.objects[i].entry.info.id
      ensures !s.objects[j].owns && !s.objects[j].entry.registered
    {
      assert v.faces[j] == FaceOf(s.objects[j]);
    }
  }

  // ---------------------------------------------------------------- one event

  /** The window goes on, and the record turns into a tombstone exactly if the entry persists. */
  predicate WindowKept(s: System, i: nat, persisted: bool, s': System)
    requires i < |s.objects|
  {
    var id := s.objects[i].entry.info.id;
    && InWindow(s', i) && s'.objects[i].entry.info.id == id
    && (Ordinary(s'.repo, id) <==> Ordinary(s.repo, id) && !persisted)
  }

  lemma OwnStep(s: System, i: nat, a: Action, e': Entry)
    requires InWindow(s, i) && WindowFacts(s, i) && WriteCanSucceed(s.repo, s.objects[i].entry, a)
    requires Enabled(s.objects[i].entry, a) && !a.TombstoneReturns?
    requires e'.operation.Tombstoning? && e'.info.id == s.objects[i].entry.info.id
    ensures WindowKept(s, i, a == PersistReturns(true), Effect(s, i, a, e'))
  {
    MoveFrame(s, i, a, e');
    if a == PersistReturns(true) {
      PersistFrame(s, i, e');
    } else {
      QuietFrame(s, i, a, e');
    }
  }

  lemma OtherDelete(s: System, i: nat, j: nat, e': Entry)
    requires InWindow(s, i) && WindowFacts(s, i) && j < |s.objects| && j != i && Ready(s, j, DeleteReturns(true), e')
    ensures WindowKept(s, i, false, Effect(s, j, DeleteReturns(true), e'))
  {
    DeleteFrame(s, j, e');
    assert s.objects[j].entry.registered;
  }

  lemma OtherUpdate(s: System, i: nat, j: nat, tombstone: bool, e': Entry)
    requires InWindow(s, i) && WindowFacts(s, i) && j < |s.objects| && j != i
    requires Update(s.repo, InfoToWrite(s.objects[j].entry, tombstone)).Stored?
    requires s.objects[i].entry.info.id !in AfterUpdate(s, j, tombstone, e').foreign
    ensures WindowKept(s, i, false, AfterUpdate(s, j, tombstone, e'))
  {
    assert s.objects[j].entry.info.id != s.objects[i].entry.info.id;
  }

  lemma OtherCreate(s: System, i: nat, j: nat, e': Entry)
    requires InWindow(s, i) && WindowFacts(s, i) && j < |s.objects| && j != i
    requires Create(s.repo, InfoToWrite(s.objects[j].entry, false)).Stored?
    ensures WindowKept(s, i, false, AfterCreated(s, j, e'))
  {
  }

  /** An entry step of another object writes another record, unless it is a foreign overwrite. */
  lemma OtherStep(s: System, i: nat, j: nat, a: Action, e': Entry)
    requires InWindow(s, i) && WindowFacts(s, i) && j < |s.objects| && j != i && Ready(s, j, a, e')
    requires s.objects[i].entry.info.id !in Effect(s, j, a, e').foreign
    ensures WindowKept(s, i, false, Effect(s, j, a, e'))
  {
    if a == DeleteReturns(true) {
      OtherDelete(s, i, j, e');
    } else if a == CreateReturns(true) {
      OtherCreate(s, i, j, e');
    } else if Updates(a) {
      OtherUpdate(s, i, j, a.TombstoneReturns? || s.objects[j].entry.unmounting, e');
    } else {
      MoveFrame(s, j, a, e');
      QuietFrame(s, j, a, e');
    }
  }

  lemma ElseStep(policy: Policy, s: System, i: nat, event: Event)
    requires InWindow(s, i) && WindowFacts(s, i) && RegistryInRange(s) && CanHappen(s, event)
    requires !event.EntryStep? && !event.Crash?
    ensures WindowKept(s, i, false, Next(policy, s, event))
  {
  }

  predicate EndsWindow(event: Event, i: nat) {
    event.Crash? || (event.EntryStep? && event.i == i && event.action.TombstoneReturns?)
  }

  lemma WindowStep(policy: Policy, s: System, i: nat, event: Event)
    requires SystemInv(policy, s) && RegistryInRange(s) && CanHappen(s, event) && InWindow(s, i)
    requires !EndsWindow(event, i) && s.objects[i].entry.info.id !in Next(policy, s, event).foreign
    ensures WindowKept(s, i, event == EntryStep(i, PersistReturns(true)), Next(policy, s, event))
  {
    WindowHolds(policy, s, i);
    if !event.EntryStep? {
      ElseStep(policy, s, i, event);
    } else {
      var e := s.objects[event.i].entry;
      StepMoves(policy, e, event.action);
      if event.i == i {
        TombstoningStays(policy, e, event.action);
        OwnStep(s, i, event.action, Apply(policy, e, event.action));
      } else {
        OtherStep(s, i, event.i, event.action, Apply(policy, e, event.action));
      }
    }
  }

  // ---------------------------------------------------------------- the whole window

  predicate WithinWindow(run: seq<Event>, i: nat) {
    forall k :: 0 <= k < |run| ==> !EndsWindow(run[k], i)
  }

  predicate Waits(s: System, i: nat, id: string) {
    InWindow(s, i) && s.objects[i].entry.info.id == id
  }

  /** One event of the window, and what is left of the claim about the whole of it. */
  lemma WindowOne(policy: Policy, s: System, i: nat, run: seq<Event>, id: string) returns (s1: System)
    requires SystemInv(policy, s) && Waits(s, i, id) && CanHappenAll(policy, s, run) && run != []
    requires WithinWindow(run, i) && NeverForeign(policy, s, run, id)
    ensures s1 == Next(policy, s, run[0]) && SystemInv(policy, s1) && Waits(s1, i, id)
    ensures WithinWindow(run[1..], i) && NeverForeign(policy, s1, run[1..], id)
    ensures Ordinary(s.repo, id) && !Persists(run, i) <==> Ordinary(s1.repo, id) && !Persists(run[1..], i)
  {
    s1 := Next(policy, s, run[0]);
    SystemStep(policy, s, run[0]);
    assert NeverForeign(policy, s1, run[1..], id);
    WindowStep(policy, s, i, run[0]);
    PersistsCons(run, i);
  }

  lemma {:induction false} WindowRun(policy: Policy, s: System, i: nat, run: seq<Event>, id: string)
    requires SystemInv(policy, s) && Waits(s, i, id) && CanHappenAll(policy, s, run)
    requires WithinWindow(run, i) && NeverForeign(policy, s, run, id)
    ensures Ordinary(NextAll(policy, s, run).repo, id) <==> Ordinary(s.repo, id) && !Persists(run, i)
    decreases |run|
  {
    if run != [] {
      var s1 := WindowOne(policy, s, i, run, id);
      WindowRun(policy, s1, i, run[1..], id);
    }
  }

  lemma RefusalWritesNothing(policy: Policy, s: System, i: nat)
    requires RegistryInRange(s) && CanHappen(s, EntryStep(i, TombstoneReturns(false)))
    ensures Next(policy, s, EntryStep(i, TombstoneReturns(false))).repo == s.repo
  {
    QuietFrame(s, i, TombstoneReturns(false), Apply(policy, s.objects[i].entry, TombstoneReturns(false)));
  }

  /**
   * A refused Unmount -- its tombstone write has failed -- leaves an ordinary record if and only if the record
   * was ordinary when the write began and no persist of the entry has succeeded since.
   */
  lemma RejectedLeavesOrdinaryIff(policy: Policy, s: System, i: nat, run: seq<Event>, id: string)
    requires SystemInv(policy, s) && Waits(s, i, id) && CanHappenAll(policy, s, run)
    requires WithinWindow(run, i) && NeverForeign(policy, s, run, id)
    requires RegistryInRange(NextAll(policy, s, run))
    requires CanHappen(NextAll(policy, s, run), EntryStep(i, TombstoneReturns(false)))
    ensures var s1 := NextAll(policy, s, run);
      Ordinary(Next(policy, s1, EntryStep(i, TombstoneReturns(false))).repo, id) <==>
        Ordinary(s.repo, id) && !Persists(run, i)
  {
    WindowRun(policy, s, i, run, id);
    RefusalWritesNothing(policy, NextAll(policy, s, run), i);
  }
}
