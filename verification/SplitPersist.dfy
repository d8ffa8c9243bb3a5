/**
 * A persist taken apart: its snapshot under the lock, and its write after the lock is released. One entry that
 * owns its record, and only its own writes; a snapshot is what matters of it here, the tombstone flag.
 */
module SplitPersist {
  import opened Options
  import opened Controller
  import opened ControllerProofs
  import opened ControllerTheorems

  /** `record`: the tombstone flag of the stored record, if there is one. */
  datatype Split = Split(entry: Entry, record: Option<bool>, inFlight: seq<bool>)

  datatype Event = Do(action: Action) | Snapshot | Write(k: nat, ok: bool)

  /** An Update can succeed only if there is a record, and a Create only if there is none. */
  predicate CanHappen(s: Split, event: Event) {
    match event
    case Do(a) =>
      && Enabled(s.entry, a) && !a.PersistReturns?
      && (a == CreateReturns(true) ==> s.record.None?) && (a == TombstoneReturns(true) ==> s.record.Some?)
    case Snapshot => s.entry.pendingPersists > 0
    case Write(k, ok) => k < |s.inFlight| && (ok ==> s.record.Some?)
  }

  function Recorded(record: Option<bool>, a: Action): Option<bool> {
    match a
    case CreateReturns(true) => Some(false)
    case TombstoneReturns(true) => Some(true)
    case DeleteReturns(true) => None
    case _ => record
  }

  function Next(policy: Policy, s: Split, event: Event): Split
    requires CanHappen(s, event)
  {
    match event
    case Do(a) => Split(Apply(policy, s.entry, a), Recorded(s.record, a), s.inFlight)
    case Snapshot => Split(Apply(policy, s.entry, PersistReturns(true)), s.record, s.inFlight + [s.entry.unmounting])
    case Write(k, ok) =>
      Split(s.entry, if ok then Some(s.inFlight[k]) else s.record, s.inFlight[..k] + s.inFlight[k + 1..])
  }

  ghost predicate CanHappenAll(policy: Policy, s: Split, run: seq<Event>)
    decreases |run|
  {
    run == [] || (CanHappen(s, run[0]) && CanHappenAll(policy, Next(policy, s, run[0]), run[1..]))
  }

  ghost function NextAll(policy: Policy, s: Split, run: seq<Event>): Split
    requires CanHappenAll(policy, s, run)
    decreases |run|
  {
    if run == [] then s else NextAll(policy, Next(policy, s, run[0]), run[1..])
  }

  // ---------------------------------------------------------------- after an accepted Unmount

  /** The Unmount is accepted, and nothing in flight would write an ordinary record. */
  ghost predicate Buried(policy: Policy, s: Split) {
    && Inv(policy, s.entry) && s.entry.accepted && s.record != Some(false)
    && forall k :: 0 <= k < |s.inFlight| ==> s.inFlight[k]
  }

  lemma BuriedAction(policy: Policy, s: Split, a: Action)
    requires Buried(policy, s) && CanHappen(s, Do(a))
    ensures Buried(policy, Next(policy, s, Do(a)))
  {
    InvStep(policy, s.entry, a);
    SupersededStep(policy, s.entry, a);
    assert !a.CreateReturns?;
  }

  lemma BuriedSnapshot(policy: Policy, s: Split)
    requires Buried(policy, s) && CanHappen(s, Snapshot)
    ensures Buried(policy, Next(policy, s, Snapshot))
  {
    InvStep(policy, s.entry, PersistReturns(true));
    SupersededStep(policy, s.entry, PersistReturns(true));
  }

  lemma BuriedStep(policy: Policy, s: Split, event: Event)
    requires Buried(policy, s) && CanHappen(s, event)
    ensures Buried(policy, Next(policy, s, event))
  {
    match event
    case Do(a) => BuriedAction(policy, s, a);
    case Snapshot => BuriedSnapshot(policy, s);
    case Write(k, ok) =>
  }

  lemma {:induction false} BuriedRun(policy: Policy, s: Split, run: seq<Event>)
    requires Buried(policy, s) && CanHappenAll(policy, s, run)
    ensures NextAll(policy, s, run).record != Some(false)
    decreases |run|
  {
    if run != [] {
      BuriedStep(policy, s, run[0]);
      BuriedRun(policy, Next(policy, s, run[0]), run[1..]);
    }
  }

  ghost predicate CanRevive(policy: Policy, s: Split) {
    exists run :: CanHappenAll(policy, s, run) && NextAll(policy, s, run).record == Some(false)
  }

  /**
   * The tombstone of an accepted Unmount can become ordinary again if and only if a snapshot that was taken before
   * the Unmount is still to be written.
   */
  lemma RevivedIff(policy: Policy, s: Split)
    requires Inv(policy, s.entry) && s.entry.accepted && s.record == Some(true)
    ensures CanRevive(policy, s) <==> false in s.inFlight
  {
    if false in s.inFlight {
      var k :| 0 <= k < |s.inFlight| && !s.inFlight[k];
      var event := Write(k, true);
      var s1 := Next(policy, s, event);
      assert [event][1..] == [];
      assert CanHappenAll(policy, s1, []) && NextAll(policy, s1, []) == s1;
      assert CanHappenAll(policy, s, [event]) && NextAll(policy, s, [event]) == s1;
    } else {
      forall run | CanHappenAll(policy, s, run)
        ensures NextAll(policy, s, run).record != Some(false)
      {
        BuriedRun(policy, s, run);
      }
    }
  }

  /** A deleted record stays deleted, whatever is still to be written. */
  lemma {:induction false} DeletedForever(policy: Policy, s: Split, run: seq<Event>)
    requires Inv(policy, s.entry) && s.entry.accepted && s.record.None? && CanHappenAll(policy, s, run)
    ensures NextAll(policy, s, run).record.None?
    decreases |run|
  {
    if run != [] {
      var event := run[0];
      var a := if event.Do? then event.action else PersistReturns(true);
      if !event.Write? {
        InvStep(policy, s.entry, a);
        SupersededStep(policy, s.entry, a);
        assert !a.CreateReturns?;
      }
      DeletedForever(policy, Next(policy, s, event), run[1..]);
    }
  }

  // ---------------------------------------------------------------- a concrete run

  /** The entry of a new Mount with a persist to come, as after waitForMount has seen the mount. */
  predicate Ready(e: Entry) {
    e.operation.Free? && e.registered && e.pendingPersists > 0 && !e.unmounting
  }

  /** The snapshot is taken, an Unmount is accepted, and then the snapshot is written. */
  lemma LateWriteRevives(policy: Policy, e: Entry) returns (run: seq<Event>)
    requires Inv(policy, e) && Ready(e)
    ensures CanHappenAll(policy, Split(e, Some(false), []), run)
    ensures var s := NextAll(policy, Split(e, Some(false), []), run);
      s.entry.accepted && s.record == Some(true) && false in s.inFlight && CanRevive(policy, s)
  {
    var s0 := Split(e, Some(false), []);
    var s1 := Snapped(policy, e);
    var s2 := Requested(policy, s1);
    var s3 := Accepted(policy, s2);
    run := [Snapshot, Do(UnmountRequested), Do(TombstoneReturns(true))];
    Three(policy, s0, s1, s2, s3, run);
    RevivedIff(policy, s3);
  }

  lemma Snapped(policy: Policy, e: Entry) returns (s: Split)
    requires Inv(policy, e) && Ready(e)
    ensures s == Next(policy, Split(e, Some(false), []), Snapshot) && Inv(policy, s.entry)
    ensures s.entry.operation.Free? && s.entry.registered && s.record == Some(false) && s.inFlight == [false]
  {
    s := Next(policy, Split(e, Some(false), []), Snapshot);
    InvStep(policy, e, PersistReturns(true));
    assert s.entry == AfterPersist(e);
  }

  lemma Requested(policy: Policy, s: Split) returns (s': Split)
    requires Inv(policy, s.entry) && s.entry.operation.Free? && s.entry.registered
    ensures s' == Next(policy, s, Do(UnmountRequested)) && Inv(policy, s'.entry)
    ensures s'.entry.operation.Tombstoning? && s'.record == s.record && s'.inFlight == s.inFlight
  {
    s' := Next(policy, s, Do(UnmountRequested));
    InvStep(policy, s.entry, UnmountRequested);
    assert s'.entry == AfterUnmountRequested(s.entry);
  }

  lemma Accepted(policy: Policy, s: Split) returns (s': Split)
    requires Inv(policy, s.entry) && s.entry.operation.Tombstoning? && s.record.Some?
    ensures s' == Next(policy, s, Do(TombstoneReturns(true))) && Inv(policy, s'.entry)
    ensures s'.entry.accepted && s'.record == Some(true) && s'.inFlight == s.inFlight
  {
    s' := Next(policy, s, Do(TombstoneReturns(true)));
    InvStep(policy, s.entry, TombstoneReturns(true));
    assert s'.entry == AfterTombstoneReturns(s.entry, true);
  }

  lemma Three(policy: Policy, s0: Split, s1: Split, s2: Split, s3: Split, run: seq<Event>)
    requires |run| == 3 && CanHappen(s0, run[0]) && s1 == Next(policy, s0, run[0])
    requires CanHappen(s1, run[1]) && s2 == Next(policy, s1, run[1])
    requires CanHappen(s2, run[2]) && s3 == Next(policy, s2, run[2])
    ensures CanHappenAll(policy, s0, run) && NextAll(policy, s0, run) == s3
  {
    assert run[1..][0] == run[1] && run[1..][1..] == run[2..] && run[2..][0] == run[2] && run[2..][1..] == [];
    assert CanHappenAll(policy, s3, []) && NextAll(policy, s3, []) == s3;
    assert CanHappenAll(policy, s2, run[2..]) && NextAll(policy, s2, run[2..]) == s3;
    assert CanHappenAll(policy, s1, run[1..]) && NextAll(policy, s1, run[1..]) == s3;
  }
}
