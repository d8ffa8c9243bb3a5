/** An entry whose Create failed while its ID has no record: nothing removes it before the process ends. */
module BlockedEntry {
  import opened MountTypes
  import opened Paths
  import opened Controller
  import opened ControllerProofs
  import opened Repository
  import opened Durable
  import opened DurableProofs
  import opened DurableTheorems
  import opened RestartTheorems
  import opened OverwriteWitnesses
  import L = Ledger

  /** Object `i` is registered, its Create has failed, and there is no record of its ID. */
  predicate Blocked(s: System, i: nat, id: string) {
    && i < |s.objects| && s.objects[i].entry.info.id == id && id in s.registry && s.registry[id] == i
    && !s.objects[i].owns && s.objects[i].entry.registered && !s.objects[i].entry.accepted
    && !s.objects[i].entry.operation.Creating? && id !in s.repo.records && s.phase == L.Serving
  }

  /** No other object of the ID can create or remove its record. */
  predicate Alone(s: System, i: nat, id: string) {
    forall j :: 0 <= j < |s.objects| && j != i && s.objects[j].entry.info.id == id ==>
      !s.objects[j].entry.registered && !s.objects[j].entry.operation.Creating?
  }

  lemma BlockedIsAlone(policy: Policy, s: System, i: nat, id: string)
    requires SystemInv(policy, s) && Blocked(s, i, id)
    ensures Alone(s, i, id)
  {
    forall j | 0 <= j < |s.objects| && j != i && s.objects[j].entry.info.id == id
      ensures !s.objects[j].entry.registered && !s.objects[j].entry.operation.Creating?
    {
      assert View(s).faces[j] == FaceOf(s.objects[j]);
      assert Inv(policy, s.objects[j].entry);
    }
  }

  lemma StillNotCreating(policy: Policy, e: Entry, a: Action)
    requires Enabled(e, a) && !e.operation.Creating?
    ensures !Apply(policy, e, a).operation.Creating?
  {
    if !a.UnmountRequested? {
      RequestOrigin(policy, e, a);
    }
  }

  lemma OwnBlocked(s: System, i: nat, a: Action, e': Entry, id: string)
    requires Blocked(s, i, id) && Ready(s, i, a, e') && !e'.operation.Creating?
    ensures Blocked(Effect(s, i, a, e'), i, id)
  {
  }

  lemma OtherWrites(s: System, i: nat, j: nat, a: Action, e': Entry, id: string)
    requires Blocked(s, i, id) && Alone(s, i, id) && j != i && Ready(s, j, a, e') && WritesRecord(a)
    ensures Blocked(Effect(s, j, a, e'), i, id)
  {
    var s' := Effect(s, j, a, e');
    if a == DeleteReturns(true) {
      DeleteFrame(s, j, e');
      assert s.objects[j].entry.registered;
    } else {
      assert s.objects[j].entry.info.id != id;
      assert s'.objects[i] == s.objects[i] && s'.registry == s.registry && s'.phase == s.phase;
    }
  }

  lemma OtherMoves(s: System, i: nat, j: nat, a: Action, e': Entry, id: string)
    requires Blocked(s, i, id) && Alone(s, i, id) && j != i && Ready(s, j, a, e') && !WritesRecord(a)
    ensures Blocked(Effect(s, j, a, e'), i, id)
  {
    MoveFrame(s, j, a, e');
    QuietFrame(s, j, a, e');
    if a.Unregister? {
      assert s.objects[j].entry.registered;
    }
  }

  lemma OtherBlocked(s: System, i: nat, j: nat, a: Action, e': Entry, id: string)
    requires Blocked(s, i, id) && Alone(s, i, id) && j != i && Ready(s, j, a, e')
    ensures Blocked(Effect(s, j, a, e'), i, id)
  {
    if WritesRecord(a) {
      OtherWrites(s, i, j, a, e', id);
    } else {
      OtherMoves(s, i, j, a, e', id);
    }
  }

  lemma EventBlocked(policy: Policy, s: System, i: nat, event: Event, id: string)
    requires Blocked(s, i, id) && RegistryInRange(s) && CanHappen(s, event) && !event.EntryStep? && !event.Crash?
    ensures Blocked(Next(policy, s, event), i, id)
  {
  }

  lemma BlockedStep(policy: Policy, s: System, i: nat, event: Event, id: string)
    requires SystemInv(policy, s) && RegistryInRange(s) && Blocked(s, i, id) && CanHappen(s, event) && !event.Crash?
    ensures Blocked(Next(policy, s, event), i, id)
  {
    BlockedIsAlone(policy, s, i, id);
    if !event.EntryStep? {
      EventBlocked(policy, s, i, event, id);
    } else {
      var e := s.objects[event.i].entry;
      var e' := Apply(policy, e, event.action);
      StepMoves(policy, e, event.action);
      if event.i == i {
        StillNotCreating(policy, e, event.action);
        OwnBlocked(s, i, event.action, e', id);
      } else {
        OtherBlocked(s, i, event.i, event.action, e', id);
      }
    }
  }

  predicate NoCrash(run: seq<Event>) {
    forall k :: 0 <= k < |run| ==> !run[k].Crash?
  }

  lemma BlockedOne(policy: Policy, s: System, run: seq<Event>, i: nat, id: string) returns (s1: System)
    requires SystemInv(policy, s) && Blocked(s, i, id) && CanHappenAll(policy, s, run) && run != [] && NoCrash(run)
    ensures s1 == Next(policy, s, run[0]) && SystemInv(policy, s1) && Blocked(s1, i, id) && NoCrash(run[1..])
  {
    s1 := Next(policy, s, run[0]);
    BlockedStep(policy, s, i, run[0], id);
    SystemStep(policy, s, run[0]);
  }

  /**
   * Whatever happens until the process ends: the entry stays registered, no Unmount of it is ever accepted, and
   * neither its ID nor its path can be mounted.
   */
  lemma {:induction false} BlockedForever(policy: Policy, s: System, run: seq<Event>, i: nat, id: string)
    requires SystemInv(policy, s) && Blocked(s, i, id) && CanHappenAll(policy, s, run) && NoCrash(run)
    ensures Blocked(NextAll(policy, s, run), i, id)
    decreases |run|
  {
    if run != [] {
      var s1 := BlockedOne(policy, s, run, i, id);
      BlockedForever(policy, s1, run[1..], i, id);
    }
  }

  lemma BlockedRefuses(s: System, i: nat, id: string, other: string, config: MountConfig)
    requires Blocked(s, i, id) && RegistryInRange(s)
    requires other == id || Clean(config.path) == Clean(s.objects[i].entry.info.config.path)
    ensures !CanHappen(s, MountRequest(other, config))
    ensures !CanHappen(s, EntryStep(i, TombstoneReturns(true)))
  {
  }

  /** A Mount whose Create fails on an empty repository. */
  lemma BlockedExists(policy: Policy, id: string, config: MountConfig) returns (s: System)
    requires Acceptable(id, config)
    ensures Reachable(policy, s) && Blocked(s, 0, id)
  {
    IdleAtFirst(policy);
    var o := Refuse(policy, EMPTY, NOTHING, id, config);
    s := Single(EMPTY, o, NOTHING);
  }
}
