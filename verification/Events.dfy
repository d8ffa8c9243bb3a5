/**
 * Mount events and one subscriber that asks for the current mounts first.
 *
 * A transition changes an entry under its own lock; its goroutine then takes a snapshot and publishes it
 * under eventMutex. Subscribing holds eventMutex from registration to the last initial snapshot. Any
 * interleaving of these steps is a run. An entry's info is represented by its version.
 */
module Events {
  import opened Options

  const BUFFER := 64

  datatype Mount = Mount(id: string, version: nat, managed: bool)

  /** A snapshot of mount number `obj`, as sent to the subscriber. */
  datatype Event = Event(obj: nat, id: string, version: nat, removal: bool)

  /** A goroutine that has to publish a transition to version `due`, or a removal. `live`: it did so while Open. */
  datatype Publisher = Publisher(
    obj: nat, id: string, due: nat, removal: bool, snap: Option<nat>, sent: bool, live: bool)

  datatype Phase =
    | Absent                                          // not subscribed yet
    | Registered                                      // eventMutex held from here
    | Snapping(todo: seq<Event>, taken: seq<Event>)   // snapshotMounts
    | Sending(queue: seq<Event>)
    | Open                                            // eventMutex released, the channel returned

  datatype Hub = Hub(
    mounts: seq<Mount>,
    publishers: seq<Publisher>,
    filter: set<string>,
    phase: Phase,
    delivered: seq<Event>,   // everything ever put into the subscriber's channel
    received: nat,           // how much of it the subscriber has taken out
    // history
    dropped: bool,           // some event found the channel full
    listed: seq<Event>,      // what snapshotMounts listed
    born: nat                // how many mounts there were by then
  )

  function Start(filter: set<string>): Hub {
    Hub([], [], filter, Absent, [], 0, false, [], 0)
  }

  predicate Matches(s: Hub, id: string) {
    s.filter == {} || id in s.filter
  }

  predicate Room(s: Hub) {
    |s.delivered| - s.received < BUFFER
  }

  predicate Unlocked(s: Hub) {
    s.phase.Absent? || s.phase.Open?
  }

  datatype Step =
    | Add(id: string)
    | Change(obj: nat, announced: bool)
    | Remove(obj: nat, seen: nat)       // `seen`: the version of the snapshot the removal event carries
    | Snapshot(p: nat)
    | Publish(p: nat)
    | Register
    | List(order: seq<nat>)             // the managed mounts, in the order of the map iteration
    | TakeSnapshot
    | StartSending
    | Send
    | Return
    | Receive

  ghost predicate Enumerates(order: seq<nat>, mounts: seq<Mount>) {
    && (forall i :: 0 <= i < |order| ==> order[i] < |mounts| && mounts[order[i]].managed)
    && (forall m :: 0 <= m < |mounts| && mounts[m].managed ==> m in order)
    && (forall i, j :: 0 <= i < j < |order| ==> order[i] != order[j])
  }

  ghost predicate Can(s: Hub, step: Step) {
    match step
    case Add(_) => true
    case Change(obj, _) => obj < |s.mounts|
    case Remove(obj, seen) => obj < |s.mounts| && s.mounts[obj].managed && seen <= s.mounts[obj].version
    case Snapshot(p) => p < |s.publishers| && s.publishers[p].snap.None? && s.publishers[p].obj < |s.mounts|
    case Publish(p) => Unlocked(s) && p < |s.publishers| && s.publishers[p].snap.Some? && !s.publishers[p].sent
    case Register => s.phase.Absent?
    case List(order) => s.phase.Registered? && Enumerates(order, s.mounts)
    case TakeSnapshot => s.phase.Snapping? && s.phase.todo != [] && s.phase.todo[0].obj < |s.mounts|
    case StartSending => s.phase.Snapping? && s.phase.todo == []
    case Send => s.phase.Sending? && s.phase.queue != [] && (Matches(s, s.phase.queue[0].id) ==> Room(s))
    case Return => s.phase == Sending([])
    case Receive => s.phase.Open? && s.received < |s.delivered|
  }

  function AfterChange(s: Hub, obj: nat, announced: bool): Hub
    requires obj < |s.mounts|
  {
    var m := s.mounts[obj].(version := s.mounts[obj].version + 1);
    var s1 := s.(mounts := s.mounts[obj := m]);
    var t := Publisher(obj, m.id, m.version, false, None, false, false);
    if announced then s1.(publishers := s.publishers + [t]) else s1
  }

  function AfterRemove(s: Hub, obj: nat, seen: nat): Hub
    requires obj < |s.mounts|
  {
    s.(mounts := s.mounts[obj := s.mounts[obj].(managed := false)],
       publishers := s.publishers + [Publisher(obj, s.mounts[obj].id, 0, true, Some(seen), false, false)])
  }

  function AfterSnapshot(s: Hub, p: nat): Hub
    requires p < |s.publishers| && s.publishers[p].obj < |s.mounts|
  {
    s.(publishers := s.publishers[p := s.publishers[p].(snap := Some(s.mounts[s.publishers[p].obj].version))])
  }

  function AfterPublish(s: Hub, p: nat): Hub
    requires p < |s.publishers| && s.publishers[p].snap.Some?
  {
    var t := s.publishers[p];
    var s1 := s.(publishers := s.publishers[p := t.(sent := true, live := s.phase.Open?)]);
    if !s.phase.Open? || !Matches(s, t.id) then s1
    else if Room(s) then s1.(delivered := s.delivered + [Event(t.obj, t.id, t.snap.value, t.removal)])
    else s1.(dropped := true)
  }

  function Listing(order: seq<nat>, mounts: seq<Mount>): (r: seq<Event>)
    requires forall i :: 0 <= i < |order| ==> order[i] < |mounts|
    ensures |r| == |order|
    ensures forall i :: 0 <= i < |r| ==> r[i] == Event(order[i], mounts[order[i]].id, 0, false)
  {
    seq(|order|, i requires 0 <= i < |order| => Event(order[i], mounts[order[i]].id, 0, false))
  }

  function AfterList(s: Hub, order: seq<nat>): Hub
    requires forall i :: 0 <= i < |order| ==> order[i] < |s.mounts|
  {
    var items := Listing(order, s.mounts);
    s.(phase := Snapping(items, []), listed := items, born := |s.mounts|)
  }

  function AfterTake(s: Hub): Hub
    requires s.phase.Snapping? && s.phase.todo != [] && s.phase.todo[0].obj < |s.mounts|
  {
    var e := s.phase.todo[0];
    s.(phase := Snapping(s.phase.todo[1..], s.phase.taken + [e.(version := s.mounts[e.obj].version)]))
  }

  function AfterSend(s: Hub): Hub
    requires s.phase.Sending? && s.phase.queue != []
  {
    var e := s.phase.queue[0];
    var s1 := s.(phase := Sending(s.phase.queue[1..]));
    if Matches(s, e.id) then s1.(delivered := s.delivered + [e]) else s1
  }

  function Do(s: Hub, step: Step): Hub
    requires Can(s, step)
  {
    match step
    case Add(id) => s.(mounts := s.mounts + [Mount(id, 0, true)])
    case Change(obj, announced) => AfterChange(s, obj, announced)
    case Remove(obj, seen) => AfterRemove(s, obj, seen)
    case Snapshot(p) => AfterSnapshot(s, p)
    case Publish(p) => AfterPublish(s, p)
    case Register => s.(phase := Registered)
    case List(order) => AfterList(s, order)
    case TakeSnapshot => AfterTake(s)
    case StartSending => s.(phase := Sending(s.phase.taken))
    case Send => AfterSend(s)
    case Return => s.(phase := Open)
    case Receive => s.(received := s.received + 1)
  }

  ghost predicate CanAll(s: Hub, run: seq<Step>)
    decreases |run|
  {
    run == [] || (Can(s, run[0]) && CanAll(Do(s, run[0]), run[1..]))
  }

  ghost function DoAll(s: Hub, run: seq<Step>): Hub
    requires CanAll(s, run)
    decreases |run|
  {
    if run == [] then s else DoAll(Do(s, run[0]), run[1..])
  }
}
