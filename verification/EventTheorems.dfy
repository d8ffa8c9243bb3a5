/** The event stream has no gaps, and exactly when subscribing returns. */
module EventTheorems {
  import opened Events

  // ---------------------------------------------------------------- what must be reflected

  /** The event shows what the publisher announces: that version or a later one, or the removal. */
  predicate Reflects(e: Event, t: Publisher) {
    e.obj == t.obj && (if t.removal then e.removal else e.version >= t.due)
  }

  ghost predicate Shown(events: seq<Event>, t: Publisher) {
    exists i :: 0 <= i < |events| && Reflects(events[i], t)
  }

  ghost predicate Among(obj: nat, events: seq<Event>) {
    exists i :: 0 <= i < |events| && events[i].obj == obj
  }

  /** The subscriber asked for this mount: by its ID, or by asking for none in particular. */
  predicate Wanted(filter: set<string>, id: string) {
    filter == {} || id in filter
  }

  /** A published transition of a wanted mount that was listed or came later, or that was published since. */
  ghost predicate Relevant(s: Hub, t: Publisher) {
    t.sent && Wanted(s.filter, t.id) && (Among(t.obj, s.listed) || t.obj >= s.born || t.live)
  }

  ghost predicate Covered(s: Hub, t: Publisher) {
    match s.phase
    case Snapping(todo, taken) => !t.removal && (Among(t.obj, todo) || Shown(taken, t))
    case Sending(queue) => !t.removal && (Shown(queue, t) || Shown(s.delivered, t))
    case Open => s.dropped || Shown(s.delivered, t)
    case _ => true
  }

  predicate PublisherOk(s: Hub, t: Publisher) {
    && t.obj < |s.mounts| && t.id == s.mounts[t.obj].id
    && (t.removal ==> !s.mounts[t.obj].managed)
    && (t.sent ==> t.snap.Some?)
    && (!t.removal ==> t.due <= s.mounts[t.obj].version && (t.snap.Some? ==> t.due <= t.snap.value))
    && (s.phase.Snapping? || s.phase.Sending? ==> t.sent ==> t.obj < s.born)
    && (t.live ==> s.phase.Open?)
  }

  predicate EventsOk(s: Hub, events: seq<Event>) {
    forall i :: 0 <= i < |events| ==> events[i].obj < |s.mounts| && events[i].id == s.mounts[events[i].obj].id
  }

  predicate PhaseOk(s: Hub) {
    match s.phase
    case Snapping(todo, taken) => EventsOk(s, todo) && EventsOk(s, taken)
    case Sending(queue) => EventsOk(s, queue)
    case _ => true
  }

  /** How many of these events are of wanted mounts. */
  function Count(filter: set<string>, events: seq<Event>): nat {
    if events == [] then 0 else (if Wanted(filter, events[0].id) then 1 else 0) + Count(filter, events[1..])
  }

  predicate CapacityOk(s: Hub) {
    && s.received <= |s.delivered| && |s.delivered| - s.received <= BUFFER
    && (!s.phase.Open? ==> s.received == 0)
    && match s.phase
       case Snapping(todo, taken) =>
         s.delivered == [] && Count(s.filter, todo) + Count(s.filter, taken) == Count(s.filter, s.listed)
       case Sending(queue) => |s.delivered| + Count(s.filter, queue) == Count(s.filter, s.listed)
       case Open => Count(s.filter, s.listed) <= BUFFER
       case _ => s.delivered == []
  }

  ghost predicate Inv(s: Hub) {
    && PhaseOk(s) && CapacityOk(s)
    && (forall p :: 0 <= p < |s.publishers| ==> PublisherOk(s, s.publishers[p]))
    && (forall p :: 0 <= p < |s.publishers| && Relevant(s, s.publishers[p]) ==> Covered(s, s.publishers[p]))
  }

  // ---------------------------------------------------------------- small facts

  lemma ShownMore(events: seq<Event>, more: seq<Event>, t: Publisher)
    requires Shown(events, t)
    ensures Shown(events + more, t)
  {
    var i :| 0 <= i < |events| && Reflects(events[i], t);
    assert Reflects((events + more)[i], t);
  }

  lemma ShownLast(events: seq<Event>, e: Event, t: Publisher)
    requires Reflects(e, t)
    ensures Shown(events + [e], t)
  {
    assert Reflects((events + [e])[|events|], t);
  }

  lemma ShownRest(events: seq<Event>, t: Publisher)
    requires events != [] && Shown(events, t) && !Reflects(events[0], t)
    ensures Shown(events[1..], t)
  {
    var i :| 0 <= i < |events| && Reflects(events[i], t);
    assert Reflects(events[1..][i - 1], t);
  }

  lemma {:induction false} CountAppend(filter: set<string>, a: seq<Event>, b: seq<Event>)
    ensures Count(filter, a + b) == Count(filter, a) + Count(filter, b)
  {
    if a == [] {
      assert a + b == b;
    } else {
      assert (a + b)[1..] == a[1..] + b;
      CountAppend(filter, a[1..], b);
    }
  }

  // ---------------------------------------------------------------- transitions

  /** The subscriber's side is untouched, and mounts keep their IDs and never go back. */
  predicate SameSubscriber(s: Hub, s': Hub) {
    && s'.phase == s.phase && s'.filter == s.filter && s'.delivered == s.delivered && s'.received == s.received
    && s'.dropped == s.dropped && s'.listed == s.listed && s'.born == s.born
    && |s.mounts| <= |s'.mounts|
    && (forall m :: 0 <= m < |s.mounts| ==>
          && s'.mounts[m].id == s.mounts[m].id && s'.mounts[m].version >= s.mounts[m].version
          && (s'.mounts[m].managed ==> s.mounts[m].managed))
  }

  lemma SubscriberKept(s: Hub, s': Hub)
    requires SameSubscriber(s, s') && PhaseOk(s) && CapacityOk(s)
    ensures PhaseOk(s') && CapacityOk(s')
  {
  }

  /** Old publishers stay as they are, or only take their snapshot; a new one has not sent anything. */
  predicate SamePublishers(s: Hub, s': Hub) {
    && |s.publishers| <= |s'.publishers|
    && (forall p :: 0 <= p < |s.publishers| ==>
          || s'.publishers[p] == s.publishers[p]
          || (!s.publishers[p].sent && !s'.publishers[p].sent && PublisherOk(s', s'.publishers[p])))
    && (forall p :: |s.publishers| <= p < |s'.publishers| ==>
          !s'.publishers[p].sent && PublisherOk(s', s'.publishers[p]))
  }

  lemma QuietStep(s: Hub, s': Hub)
    requires Inv(s) && SameSubscriber(s, s') && SamePublishers(s, s')
    ensures Inv(s')
  {
    SubscriberKept(s, s');
    forall p | 0 <= p < |s'.publishers|
      ensures PublisherOk(s', s'.publishers[p])
      ensures Relevant(s', s'.publishers[p]) ==> Covered(s', s'.publishers[p])
    {
      if p < |s.publishers| && s'.publishers[p] == s.publishers[p] {
        assert PublisherOk(s, s.publishers[p]);
      }
    }
  }

  lemma ChangeStep(s: Hub, obj: nat, announced: bool)
    requires Inv(s) && obj < |s.mounts|
    ensures Inv(AfterChange(s, obj, announced))
  {
    QuietStep(s, AfterChange(s, obj, announced));
  }

  lemma RemoveStep(s: Hub, obj: nat, seen: nat)
    requires Inv(s) && obj < |s.mounts|
    ensures Inv(AfterRemove(s, obj, seen))
  {
    QuietStep(s, AfterRemove(s, obj, seen));
  }

  lemma SnapshotStep(s: Hub, p: nat)
    requires Inv(s) && p < |s.publishers| && s.publishers[p].snap.None? && s.publishers[p].obj < |s.mounts|
    ensures Inv(AfterSnapshot(s, p))
  {
    assert PublisherOk(s, s.publishers[p]);
    QuietStep(s, AfterSnapshot(s, p));
  }

  // ---------------------------------------------------------------- publishing

  lemma PublishShows(s: Hub, p: nat)
    requires Inv(s) && s.phase.Open? && p < |s.publishers| && s.publishers[p].snap.Some?
    requires !AfterPublish(s, p).dropped && Wanted(s.filter, s.publishers[p].id)
    ensures Shown(AfterPublish(s, p).delivered, s.publishers[p].(sent := true, live := true))
  {
    var t := s.publishers[p];
    assert PublisherOk(s, t);
    ShownLast(s.delivered, Event(t.obj, t.id, t.snap.value, t.removal), t.(sent := true, live := true));
  }

  lemma PublishStep(s: Hub, p: nat)
    requires Inv(s) && Can(s, Publish(p))
    ensures Inv(AfterPublish(s, p))
  {
    var s' := AfterPublish(s, p);
    forall q | 0 <= q < |s'.publishers|
      ensures PublisherOk(s', s'.publishers[q])
      ensures Relevant(s', s'.publishers[q]) ==> Covered(s', s'.publishers[q])
    {
      assert PublisherOk(s, s.publishers[q]);
      if s.phase.Open? && !s'.dropped && Relevant(s', s'.publishers[q]) {
        if q == p {
          PublishShows(s, p);
        } else {
          assert Relevant(s, s.publishers[q]) && Covered(s, s.publishers[q]);
          if s'.delivered != s.delivered {
            ShownMore(s.delivered, [s'.delivered[|s.delivered|]], s.publishers[q]);
          }
        }
      }
    }
  }

  // ---------------------------------------------------------------- subscribing

  lemma ListStep(s: Hub, order: seq<nat>)
    requires Inv(s) && Can(s, List(order))
    ensures Inv(AfterList(s, order))
  {
    var s' := AfterList(s, order);
    forall q | 0 <= q < |s'.publishers| && Relevant(s', s'.publishers[q])
      ensures Covered(s', s'.publishers[q])
    {
      var t := s.publishers[q];
      assert PublisherOk(s, t);
      var i :| 0 <= i < |s'.listed| && s'.listed[i].obj == t.obj;
      assert s.mounts[order[i]].managed;
    }
    assert forall q :: 0 <= q < |s.publishers| ==> PublisherOk(s, s.publishers[q]);
  }

  lemma TakeCovers(s: Hub, t: Publisher)
    requires Can(s, TakeSnapshot) && PublisherOk(s, t) && Covered(s, t)
    ensures Covered(AfterTake(s), t)
  {
    var e := s.phase.todo[0];
    var taken := e.(version := s.mounts[e.obj].version);
    if Shown(s.phase.taken, t) {
      ShownMore(s.phase.taken, [taken], t);
    } else if e.obj == t.obj {
      ShownLast(s.phase.taken, taken, t);
    } else {
      var i :| 0 <= i < |s.phase.todo| && s.phase.todo[i].obj == t.obj;
      assert s.phase.todo[1..][i - 1].obj == t.obj;
    }
  }

  /** Steps of the subscriber change neither mounts nor publishers. */
  lemma SubscriberStep(s: Hub, s': Hub)
    requires Inv(s) && s'.mounts == s.mounts && s'.publishers == s.publishers && s'.filter == s.filter
    requires s'.listed == s.listed && s'.born == s.born && PhaseOk(s') && CapacityOk(s')
    requires s'.phase.Snapping? || s'.phase.Sending? ==> s.phase.Snapping? || s.phase.Sending?
    requires s.phase.Open? ==> s'.phase.Open?
    requires forall t :: PublisherOk(s, t) && Relevant(s, t) && Covered(s, t) ==> Covered(s', t)
    ensures Inv(s')
  {
    forall p | 0 <= p < |s'.publishers|
      ensures PublisherOk(s', s'.publishers[p])
      ensures Relevant(s', s'.publishers[p]) ==> Covered(s', s'.publishers[p])
    {
      assert PublisherOk(s, s.publishers[p]);
      assert Relevant(s', s'.publishers[p]) ==> Relevant(s, s.publishers[p]);
    }
  }

  lemma TakeStep(s: Hub)
    requires Inv(s) && Can(s, TakeSnapshot)
    ensures Inv(AfterTake(s))
  {
    var s' := AfterTake(s);
    var e := s.phase.todo[0];
    var last := [e.(version := s.mounts[e.obj].version)];
    CountAppend(s.filter, s.phase.taken, last);
    assert last[1..] == [];
    forall t | PublisherOk(s, t) && Relevant(s, t) && Covered(s, t)
      ensures Covered(s', t)
    {
      TakeCovers(s, t);
    }
    SubscriberStep(s, s');
  }

  lemma StartSendingStep(s: Hub)
    requires Inv(s) && Can(s, StartSending)
    ensures Inv(Do(s, StartSending))
  {
    var s' := Do(s, StartSending);
    SubscriberStep(s, s');
  }

  lemma SendCovers(s: Hub, t: Publisher)
    requires Can(s, Send) && PhaseOk(s) && PublisherOk(s, t) && Relevant(s, t) && Covered(s, t)
    ensures Covered(AfterSend(s), t)
  {
    var e := s.phase.queue[0];
    if Shown(s.delivered, t) {
      ShownMore(s.delivered, [e], t);
    } else if Reflects(e, t) {
      assert e.id == t.id;
      ShownLast(s.delivered, e, t);
    } else {
      ShownRest(s.phase.queue, t);
    }
  }

  lemma SendStep(s: Hub)
    requires Inv(s) && Can(s, Send)
    ensures Inv(AfterSend(s))
  {
    var s' := AfterSend(s);
    forall t | PublisherOk(s, t) && Relevant(s, t) && Covered(s, t)
      ensures Covered(s', t)
    {
      SendCovers(s, t);
    }
    SubscriberStep(s, s');
  }

  lemma ReturnStep(s: Hub)
    requires Inv(s) && Can(s, Return)
    ensures Inv(Do(s, Return))
  {
    SubscriberStep(s, Do(s, Return));
  }

  lemma ReceiveStep(s: Hub)
    requires Inv(s) && Can(s, Receive)
    ensures Inv(Do(s, Receive))
  {
    SubscriberStep(s, Do(s, Receive));
  }

  // ---------------------------------------------------------------- over every run

  lemma InvStep(s: Hub, step: Step)
    requires Inv(s) && Can(s, step)
    ensures Inv(Do(s, step))
  {
    match step
    case Add(_) => QuietStep(s, Do(s, step));
    case Change(obj, announced) => ChangeStep(s, obj, announced);
    case Remove(obj, seen) => RemoveStep(s, obj, seen);
    case Snapshot(p) => SnapshotStep(s, p);
    case Publish(p) => PublishStep(s, p);
    case Register => SubscriberStep(s, Do(s, step));
    case List(order) => ListStep(s, order);
    case TakeSnapshot => TakeStep(s);
    case StartSending => StartSendingStep(s);
    case Send => SendStep(s);
    case Return => ReturnStep(s);
    case Receive => ReceiveStep(s);
  }

  lemma {:induction false} InvRun(s: Hub, run: seq<Step>)
    requires Inv(s) && CanAll(s, run)
    ensures Inv(DoAll(s, run))
    decreases |run|
  {
    if run != [] {
      InvStep(s, run[0]);
      InvRun(Do(s, run[0]), run[1..]);
    }
  }

  lemma {:induction false} FilterKept(s: Hub, run: seq<Step>)
    requires CanAll(s, run)
    ensures DoAll(s, run).filter == s.filter
    decreases |run|
  {
    if run != [] {
      FilterKept(Do(s, run[0]), run[1..]);
    }
  }

  /**
   * With the channel never full: every published transition of a mount that the subscriber asked for, be it by ID or
   * by giving no IDs at all, is shown by an initial snapshot or by an event taken at or after it, if the mount was
   * managed when the subscriber listed the mounts, or was added later, or the transition was published since; and so
   * is every published removal.
   */
  lemma GapFree(filter: set<string>, run: seq<Step>, p: nat)
    requires CanAll(Start(filter), run)
    requires var s := DoAll(Start(filter), run); s.phase.Open? && !s.dropped && p < |s.publishers|
    ensures var s := DoAll(Start(filter), run);
      var t := s.publishers[p];
      && t.sent && (filter == {} || t.id in filter) && (Among(t.obj, s.listed) || t.obj >= s.born || t.live) ==>
           Shown(s.delivered, t)
  {
    InvRun(Start(filter), run);
    FilterKept(Start(filter), run);
  }

  /** A subscriber that names no mount misses none of them. */
  lemma UnfilteredMissesNothing(run: seq<Step>)
    requires CanAll(Start({}), run)
    requires var s := DoAll(Start({}), run); s.phase.Open? && !s.dropped
    ensures var s := DoAll(Start({}), run);
      forall p :: 0 <= p < |s.publishers| && s.publishers[p].sent
                  && (Among(s.publishers[p].obj, s.listed) || s.publishers[p].obj >= s.born || s.publishers[p].live) ==>
        Shown(s.delivered, s.publishers[p])
  {
    var s := DoAll(Start({}), run);
    forall p | 0 <= p < |s.publishers| && s.publishers[p].sent
               && (Among(s.publishers[p].obj, s.listed) || s.publishers[p].obj >= s.born || s.publishers[p].live)
      ensures Shown(s.delivered, s.publishers[p])
    {
      GapFree({}, run, p);
    }
  }

  // ---------------------------------------------------------------- when subscribing returns

  /** Sending the next initial snapshot blocks. */
  predicate Stuck(s: Hub) {
    s.phase.Sending? && s.phase.queue != [] && Wanted(s.filter, s.phase.queue[0].id) && |s.delivered| - s.received >= 64
  }

  lemma StuckStep(s: Hub, step: Step)
    requires Stuck(s) && Can(s, step)
    ensures var s' := Do(s, step); Stuck(s') && s'.phase == s.phase && s'.delivered == s.delivered
    ensures var s' := Do(s, step); forall p :: 0 <= p < |s.publishers| && !s.publishers[p].sent ==>
      p < |s'.publishers| && !s'.publishers[p].sent
  {
  }

  /** Once blocked, Subscribe never returns, and no event is ever published again. */
  lemma {:induction false} StuckForever(s: Hub, run: seq<Step>, p: nat)
    requires Stuck(s) && CanAll(s, run) && p < |s.publishers| && !s.publishers[p].sent
    ensures var s' := DoAll(s, run);
      Stuck(s') && s'.delivered == s.delivered && p < |s'.publishers| && !s'.publishers[p].sent
    decreases |run|
  {
    if run != [] {
      StuckStep(s, run[0]);
      StuckForever(Do(s, run[0]), run[1..], p);
    }
  }

  /** The subscriber's own next step. */
  function Next(s: Hub): Step
    requires s.phase.Snapping? || s.phase.Sending?
  {
    if s.phase.Snapping? then (if s.phase.todo == [] then StartSending else TakeSnapshot)
    else if s.phase.queue == [] then Return else Send
  }

  ghost predicate CanReturn(s: Hub) {
    exists run :: CanAll(s, run) && DoAll(s, run).phase.Open?
  }

  lemma ReturnsLater(s: Hub, step: Step)
    requires Can(s, step) && CanReturn(Do(s, step))
    ensures CanReturn(s)
  {
    var rest :| CanAll(Do(s, step), rest) && DoAll(Do(s, step), rest).phase.Open?;
    var run := [step] + rest;
    assert run[1..] == rest;
    assert CanAll(s, run) && DoAll(s, run) == DoAll(Do(s, step), rest);
  }

  function Remaining(s: Hub): nat {
    match s.phase
    case Snapping(todo, taken) => 2 * |todo| + |taken| + 2
    case Sending(queue) => |queue| + 1
    case _ => 0
  }

  lemma NextEnabled(s: Hub)
    requires Inv(s) && (s.phase.Snapping? || s.phase.Sending?) && Count(s.filter, s.listed) <= BUFFER
    ensures Can(s, Next(s))
    ensures var s' := Do(s, Next(s));
      Remaining(s') < Remaining(s) && s'.listed == s.listed && s'.filter == s.filter
      && (s'.phase.Snapping? || s'.phase.Sending? || s'.phase.Open?)
  {
  }

  lemma {:induction false} ReturnsWithinBuffer(s: Hub)
    requires Inv(s) && (s.phase.Snapping? || s.phase.Sending? || s.phase.Open?) && Count(s.filter, s.listed) <= BUFFER
    ensures CanReturn(s)
    decreases Remaining(s)
  {
    if s.phase.Open? {
      assert CanAll(s, []) && DoAll(s, []) == s;
    } else {
      NextEnabled(s);
      InvStep(s, Next(s));
      ReturnsWithinBuffer(Do(s, Next(s)));
      ReturnsLater(s, Next(s));
    }
  }

  lemma {:induction false} ListedKept(s: Hub, run: seq<Step>)
    requires CanAll(s, run) && (s.phase.Snapping? || s.phase.Sending? || s.phase.Open?)
    ensures DoAll(s, run).listed == s.listed && DoAll(s, run).filter == s.filter
    decreases |run|
  {
    if run != [] {
      ListedKept(Do(s, run[0]), run[1..]);
    }
  }

  /** Subscribing can return if and only if at most 64 of the listed mounts are wanted. */
  lemma SubscribeReturnsIff(filter: set<string>, run: seq<Step>)
    requires CanAll(Start(filter), run)
    requires var s := DoAll(Start(filter), run); s.phase.Snapping? || s.phase.Sending? || s.phase.Open?
    ensures var s := DoAll(Start(filter), run); CanReturn(s) <==> Count(filter, s.listed) <= 64
  {
    var s := DoAll(Start(filter), run);
    InvRun(Start(filter), run);
    FilterKept(Start(filter), run);
    if Count(s.filter, s.listed) <= BUFFER {
      ReturnsWithinBuffer(s);
    }
    if CanReturn(s) {
      var rest :| CanAll(s, rest) && DoAll(s, rest).phase.Open?;
      InvRun(s, rest);
      ListedKept(s, rest);
    }
  }
}
