/** What a subscriber is sent: only what it asked for, the initial snapshots exactly, and every announced change. */
module EventDelivery {
  import opened Options
  import opened Events
  import opened EventTheorems

  /** The filter of a request: the mount IDs it names, empty ones not counting. */
  function FilterOf(ids: seq<string>): set<string> {
    set id | id in ids && id != ""
  }

  /** The event is a snapshot of an existing mount under its own ID, not from the future. */
  predicate Genuine(s: Hub, e: Event) {
    e.obj < |s.mounts| && e.id == s.mounts[e.obj].id && e.version <= s.mounts[e.obj].version
  }

  predicate AllGenuine(s: Hub, events: seq<Event>) {
    forall i :: 0 <= i < |events| ==> Genuine(s, events[i])
  }

  predicate AllWanted(filter: set<string>, events: seq<Event>) {
    forall i :: 0 <= i < |events| ==> Wanted(filter, events[i].id)
  }

  /** The wanted ones of these mounts, in order. */
  function WantedMounts(filter: set<string>, events: seq<Event>): seq<nat> {
    if events == [] then []
    else (if Wanted(filter, events[0].id) then [events[0].obj] else []) + WantedMounts(filter, events[1..])
  }

  function Mounts(events: seq<Event>): seq<nat> {
    seq(|events|, i requires 0 <= i < |events| => events[i].obj)
  }

  lemma {:induction false} WantedAppend(filter: set<string>, a: seq<Event>, b: seq<Event>)
    ensures WantedMounts(filter, a + b) == WantedMounts(filter, a) + WantedMounts(filter, b)
  {
    if a == [] {
      assert a + b == b;
    } else {
      assert (a + b)[1..] == a[1..] + b;
      WantedAppend(filter, a[1..], b);
    }
  }

  /** The initial snapshots sent, and those to come, are those of the wanted listed mounts. */
  predicate OrderOk(s: Hub) {
    match s.phase
    case Snapping(todo, taken) => WantedMounts(s.filter, taken + todo) == WantedMounts(s.filter, s.listed)
    case Sending(queue) => Mounts(s.delivered) + WantedMounts(s.filter, queue) == WantedMounts(s.filter, s.listed)
    case Open => WantedMounts(s.filter, s.listed) <= Mounts(s.delivered)
    case _ => true
  }

  predicate QueueOk(s: Hub) {
    match s.phase
    case Snapping(todo, taken) => s.delivered == [] && AllGenuine(s, todo) && AllGenuine(s, taken)
    case Sending(queue) => AllGenuine(s, queue)
    case Open => true
    case _ => s.delivered == []
  }

  predicate SendersOk(s: Hub) {
    forall p :: 0 <= p < |s.publishers| ==>
      && s.publishers[p].obj < |s.mounts| && s.publishers[p].id == s.mounts[s.publishers[p].obj].id
      && (s.publishers[p].snap.Some? ==> s.publishers[p].snap.value <= s.mounts[s.publishers[p].obj].version)
  }

  predicate Delivers(s: Hub) {
    OrderOk(s) && QueueOk(s) && SendersOk(s) && AllGenuine(s, s.delivered) && AllWanted(s.filter, s.delivered)
  }

  // ---------------------------------------------------------------- every step

  /** Only mounts and publishers move, and mounts only forward. */
  lemma OutsideStep(s: Hub, s': Hub)
    requires Delivers(s) && SameSubscriber(s, s') && SendersOk(s')
    ensures Delivers(s')
  {
  }

  lemma PublishDelivers(s: Hub, p: nat)
    requires Delivers(s) && Can(s, Publish(p))
    ensures Delivers(AfterPublish(s, p))
  {
    var s' := AfterPublish(s, p);
    if s'.delivered != s.delivered {
      assert Mounts(s'.delivered) == Mounts(s.delivered) + [s.publishers[p].obj];
    }
  }

  lemma ListedDelivers(s: Hub, items: seq<Event>, born: nat)
    requires Delivers(s) && s.phase.Registered? && AllGenuine(s, items)
    ensures Delivers(s.(phase := Snapping(items, []), listed := items, born := born))
  {
    assert [] + items == items;
  }

  lemma ListDelivers(s: Hub, order: seq<nat>)
    requires Delivers(s) && Can(s, List(order))
    ensures Delivers(AfterList(s, order))
  {
    ListedDelivers(s, Listing(order, s.mounts), |s.mounts|);
  }

  lemma StartDelivers(s: Hub)
    requires Delivers(s) && Can(s, StartSending)
    ensures Delivers(Do(s, StartSending))
  {
    assert s.phase.taken + [] == s.phase.taken && Mounts([]) == [];
  }

  lemma ReturnDelivers(s: Hub)
    requires Delivers(s) && Can(s, Return)
    ensures Delivers(Do(s, Return))
  {
    assert Mounts(s.delivered) + [] == Mounts(s.delivered);
  }

  lemma EntryDelivers(s: Hub, s': Hub)
    requires Delivers(s)
    requires || (s.phase.Absent? && s' == s.(phase := Registered))
             || (s.phase.Open? && s' == s.(received := s.received + 1))
    ensures Delivers(s')
  {
  }

  lemma TakeDelivers(s: Hub)
    requires Delivers(s) && Can(s, TakeSnapshot)
    ensures Delivers(AfterTake(s))
  {
    var todo, taken := s.phase.todo, s.phase.taken;
    var e := todo[0];
    var last := [e.(version := s.mounts[e.obj].version)];
    assert todo == [e] + todo[1..] && taken + todo == taken + [e] + todo[1..];
    assert [e][1..] == [] && last[1..] == [];
    WantedAppend(s.filter, taken + [e], todo[1..]);
    WantedAppend(s.filter, taken, [e]);
    WantedAppend(s.filter, taken + last, todo[1..]);
    WantedAppend(s.filter, taken, last);
    assert AllGenuine(AfterTake(s), taken + last);
  }

  lemma SendDelivers(s: Hub)
    requires Delivers(s) && Can(s, Send)
    ensures Delivers(AfterSend(s))
  {
    var s' := AfterSend(s);
    var e := s.phase.queue[0];
    if Wanted(s.filter, e.id) {
      assert s'.delivered == s.delivered + [e];
      assert Mounts(s'.delivered) == Mounts(s.delivered) + [e.obj];
      assert Mounts(s.delivered) + ([e.obj] + WantedMounts(s.filter, s'.phase.queue))
          == Mounts(s'.delivered) + WantedMounts(s.filter, s'.phase.queue);
    }
  }

  lemma ChangeDelivers(s: Hub, obj: nat, announced: bool)
    requires Delivers(s) && obj < |s.mounts|
    ensures Delivers(AfterChange(s, obj, announced))
  {
    OutsideStep(s, AfterChange(s, obj, announced));
  }

  lemma RemoveDelivers(s: Hub, obj: nat, seen: nat)
    requires Delivers(s) && Can(s, Remove(obj, seen))
    ensures Delivers(AfterRemove(s, obj, seen))
  {
    OutsideStep(s, AfterRemove(s, obj, seen));
  }

  lemma SnapshotDelivers(s: Hub, p: nat)
    requires Delivers(s) && Can(s, Snapshot(p))
    ensures Delivers(AfterSnapshot(s, p))
  {
    OutsideStep(s, AfterSnapshot(s, p));
  }

  lemma DeliversStep(s: Hub, step: Step)
    requires Delivers(s) && Can(s, step)
    ensures Delivers(Do(s, step))
  {
    match step
    case Add(id) => OutsideStep(s, s.(mounts := s.mounts + [Mount(id, 0, true)]));
    case Change(obj, announced) => ChangeDelivers(s, obj, announced);
    case Remove(obj, seen) => RemoveDelivers(s, obj, seen);
    case Snapshot(p) => SnapshotDelivers(s, p);
    case Publish(p) => PublishDelivers(s, p);
    case Register => EntryDelivers(s, s.(phase := Registered));
    case List(order) => ListDelivers(s, order);
    case TakeSnapshot => TakeDelivers(s);
    case StartSending => StartDelivers(s);
    case Send => SendDelivers(s);
    case Return => ReturnDelivers(s);
    case Receive => EntryDelivers(s, s.(received := s.received + 1));
  }

  lemma {:induction false} DeliversRun(s: Hub, run: seq<Step>)
    requires Delivers(s) && CanAll(s, run)
    ensures Delivers(DoAll(s, run))
    decreases |run|
  {
    if run != [] {
      DeliversStep(s, run[0]);
      DeliversRun(Do(s, run[0]), run[1..]);
    }
  }

  // ---------------------------------------------------------------- over every run

  /** Everything delivered is of an existing mount that the request names, or the request names none. */
  lemma OnlyWantedDelivered(ids: seq<string>, run: seq<Step>, i: nat)
    requires CanAll(Start(FilterOf(ids)), run) && i < |DoAll(Start(FilterOf(ids)), run).delivered|
    ensures var s := DoAll(Start(FilterOf(ids)), run);
      var e := s.delivered[i];
      && ((e.id in ids && e.id != "") || (forall id :: id in ids ==> id == ""))
      && e.obj < |s.mounts| && e.id == s.mounts[e.obj].id && e.version <= s.mounts[e.obj].version
  {
    var filter := FilterOf(ids);
    DeliversRun(Start(filter), run);
    FilterKept(Start(filter), run);
    var s := DoAll(Start(filter), run);
    assert Wanted(filter, s.delivered[i].id) && Genuine(s, s.delivered[i]);
    forall id | id in ids && filter == {}
      ensures id == ""
    {
      assert id != "" ==> id in filter;
    }
  }

  /** What is listed is exactly what is managed at that moment, each mount once. */
  lemma ListsTheManaged(s: Hub, order: seq<nat>)
    requires Can(s, List(order))
    ensures var s' := Do(s, List(order));
      && (forall m: nat :: Among(m, s'.listed) <==> m < |s.mounts| && s.mounts[m].managed)
      && (forall i, j :: 0 <= i < j < |s'.listed| ==> s'.listed[i].obj != s'.listed[j].obj)
      && (forall i :: 0 <= i < |s'.listed| ==> s'.listed[i].id == s.mounts[s'.listed[i].obj].id)
      && s'.born == |s.mounts|
  {
    var s' := Do(s, List(order));
    forall m: nat | m < |s.mounts| && s.mounts[m].managed
      ensures Among(m, s'.listed)
    {
      var i :| 0 <= i < |order| && order[i] == m;
      assert s'.listed[i].obj == m;
    }
  }

  /** Once subscribing has returned, the stream begins with one snapshot of each wanted listed mount, in order. */
  lemma SnapshotsFirst(filter: set<string>, run: seq<Step>)
    requires CanAll(Start(filter), run) && DoAll(Start(filter), run).phase.Open?
    ensures var s := DoAll(Start(filter), run); WantedMounts(filter, s.listed) <= Mounts(s.delivered)
  {
    DeliversRun(Start(filter), run);
    FilterKept(Start(filter), run);
  }

  /** Before that nothing but those snapshots is in the channel. */
  lemma NothingElseFirst(filter: set<string>, run: seq<Step>)
    requires CanAll(Start(filter), run) && DoAll(Start(filter), run).phase == Sending([])
    ensures var s := DoAll(Start(filter), run); Mounts(s.delivered) == WantedMounts(filter, s.listed)
  {
    DeliversRun(Start(filter), run);
    FilterKept(Start(filter), run);
    var s := DoAll(Start(filter), run);
    assert Mounts(s.delivered) + [] == Mounts(s.delivered);
  }

  // ---------------------------------------------------------------- announcements

  /**
   * An announced change whose goroutine is not held up reaches the subscriber with the very version it made, exactly
   * if the mount is wanted and fewer than 64 events wait; a wanted one that finds the channel full is dropped.
   */
  lemma AnnouncedIsDeliveredIff(s: Hub, obj: nat)
    requires s.phase.Open? && obj < |s.mounts|
    ensures var p := |s.publishers|;
      var run := [Change(obj, true), Snapshot(p), Publish(p)];
      var wanted := s.filter == {} || s.mounts[obj].id in s.filter;
      var fits := |s.delivered| - s.received < 64;
      && CanAll(s, run)
      && DoAll(s, run).delivered ==
           s.delivered + (if wanted && fits
                          then [Event(obj, s.mounts[obj].id, s.mounts[obj].version + 1, false)] else [])
      && (DoAll(s, run).dropped <==> s.dropped || (wanted && !fits))
  {
    var p := |s.publishers|;
    var run := [Change(obj, true), Snapshot(p), Publish(p)];
    var s1 := AfterChange(s, obj, true);
    var s2 := AfterSnapshot(s1, p);
    var s3 := AfterPublish(s2, p);
    var version := s.mounts[obj].version + 1;
    assert s2.publishers[p] == Publisher(obj, s.mounts[obj].id, version, false, Some(version), false, false);
    ThreeSteps(s, run, s1, s2, s3);
  }

  lemma ThreeSteps(s: Hub, run: seq<Step>, s1: Hub, s2: Hub, s3: Hub)
    requires |run| == 3 && Can(s, run[0]) && s1 == Do(s, run[0])
    requires Can(s1, run[1]) && s2 == Do(s1, run[1]) && Can(s2, run[2]) && s3 == Do(s2, run[2])
    ensures CanAll(s, run) && DoAll(s, run) == s3
  {
    assert run[1..][1..] == [run[2]] && run[1..][0] == run[1];
    assert [run[2]][1..] == [] && CanAll(s3, []);
    assert CanAll(s2, [run[2]]) && DoAll(s2, [run[2]]) == s3;
    assert CanAll(s1, run[1..]) && DoAll(s1, run[1..]) == s3;
  }

  /** A removal is announced with the snapshot that was taken before it. */
  lemma RemovalIsDeliveredIff(s: Hub, obj: nat, seen: nat)
    requires s.phase.Open? && Can(s, Remove(obj, seen))
    ensures var p := |s.publishers|;
      var s1 := Do(s, Remove(obj, seen));
      var wanted := s.filter == {} || s.mounts[obj].id in s.filter;
      && !s1.mounts[obj].managed && Can(s1, Publish(p))
      && Do(s1, Publish(p)).delivered ==
           s.delivered + (if wanted && |s.delivered| - s.received < 64
                          then [Event(obj, s.mounts[obj].id, seen, true)] else [])
  {
    var s1 := Do(s, Remove(obj, seen));
    assert s1.publishers[|s.publishers|] == Publisher(obj, s.mounts[obj].id, 0, true, Some(seen), false, false);
  }
}
