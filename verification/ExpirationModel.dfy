/**
 The expiration scheduler as a transition system: handlers mutate the store and append commands to
 a FIFO channel; the scheduler task drains the channel into a lazy min-heap with a map of latest
 deadlines, and its timer passes close what is due.
 */
module ExpirationModel {
  import opened Support
  import opened IdAllocation
  import opened Notifications
  import opened StoreModel

  datatype Command = Schedule(id: Id, deadline: Instant) | Cancel(id: Id)

  datatype Item = Item(id: Id, deadline: Instant)

  /** Heap entries may be stale; `scheduled` holds the latest deadline per id. */
  datatype Timers = Timers(heap: multiset<Item>, scheduled: map<Id, Instant>)

  datatype System = System(store: StoreState, queue: seq<Command>, timers: Timers)

  const COMPACT_FLOOR: nat := 128

  function ApplyToMap(scheduled: map<Id, Instant>, cmd: Command): map<Id, Instant> {
    match cmd
    case Schedule(id, deadline) => scheduled[id := deadline]
    case Cancel(id) => scheduled - {id}
  }

  function ApplyCommand(t: Timers, cmd: Command): Timers {
    Timers(
      if cmd.Schedule? then t.heap + multiset{Item(cmd.id, cmd.deadline)} else t.heap,
      ApplyToMap(t.scheduled, cmd))
  }

  function LiveItems(scheduled: map<Id, Instant>): set<Item> {
    set id | id in scheduled :: Item(id, scheduled[id])
  }

  function Threshold(scheduled: map<Id, Instant>): nat {
    if 4 * |scheduled| < COMPACT_FLOOR then COMPACT_FLOOR else 4 * |scheduled|
  }

  function MaybeCompact(t: Timers): Timers {
    if |t.scheduled| == 0 then Timers(multiset{}, t.scheduled)
    else if |t.heap| <= Threshold(t.scheduled) then t
    else Timers(multiset(LiveItems(t.scheduled)), t.scheduled)
  }

  /** One received command; an empty heap takes the path without compaction. */
  function Receive(t: Timers, cmd: Command): Timers {
    if |t.heap| == 0 then ApplyCommand(t, cmd) else MaybeCompact(ApplyCommand(t, cmd))
  }

  /** The deadlines the scheduler will know once it has read the whole channel. */
  function Replay(queue: seq<Command>, scheduled: map<Id, Instant>): map<Id, Instant> {
    if queue == [] then scheduled
    else ApplyToMap(Replay(queue[..|queue| - 1], scheduled), queue[|queue| - 1])
  }

  // ---------------------------------------------------------------------------------------------
  // The invariant
  // ---------------------------------------------------------------------------------------------

  ghost predicate NoTimerLost(s: System) {
    forall id :: id in s.store.expirations ==>
      && id in Replay(s.queue, s.timers.scheduled)
      && Replay(s.queue, s.timers.scheduled)[id] == s.store.expirations[id]
  }

  ghost predicate HeapCovers(t: Timers) {
    forall id :: id in t.scheduled ==> Item(id, t.scheduled[id]) in t.heap
  }

  ghost predicate HeapBounded(t: Timers) {
    |t.heap| <= Threshold(t.scheduled)
  }

  /** What holds at every moment, also in the middle of a timer pass. */
  ghost predicate Sound(l: Limits, s: System) {
    Good(l, s.store) && NoTimerLost(s) && HeapCovers(s.timers)
  }

  ghost predicate Inv(l: Limits, s: System) {
    Sound(l, s) && HeapBounded(s.timers)
  }

  // ---------------------------------------------------------------------------------------------
  // Steps
  // ---------------------------------------------------------------------------------------------

  function CommandFor(id: Id, deadline: Option<Instant>): Command {
    match deadline
    case Some(at) => Schedule(id, at)
    case None => Cancel(id)
  }

  function Cancels(ids: seq<Id>): seq<Command> {
    Map((id: Id) => Cancel(id), ids)
  }

  datatype Event =
    | Notified(n: Notification, replacesId: Id, dropAll: bool, deadline: Option<Instant>)
    | Closed(id: Id, reason: CloseReason)
    | Dismissed(dismissed: Id)
    | Cleared
    | Received
    | Passed(now: Instant, fired: seq<Id>)

  ghost function NotifyStep(l: Limits, s: System, n: Notification, replacesId: Id, dropAll: bool,
                            deadline: Option<Instant>): System
  {
    var (store, outcome) := Insert(l, s.store, n, replacesId, dropAll);
    if outcome.dropped then s.(store := store)
    else
      var id := outcome.notification.id;
      s.(store := SetExpiration(store, id, deadline), queue := s.queue + [CommandFor(id, deadline)])
  }

  /** A close cancels its timer only when a live row was removed. */
  function CloseStep(l: Limits, s: System, id: Id, reason: CloseReason): System {
    s.(store := Close(l, s.store, id, reason),
       queue := s.queue + if Find(s.store.active, id).Some? then [Cancel(id)] else [])
  }

  function DismissStep(s: System, id: Id): System {
    s.(store := Dismiss(s.store, id),
       queue := s.queue + if Find(s.store.active, id).Some? then [Cancel(id)] else [])
  }

  function ClearStep(s: System): System {
    s.(store := ClearAll(s.store), queue := s.queue + Cancels(Reverse(Ids(s.store.active))))
  }

  function ReceiveStep(s: System): System
    requires s.queue != []
  {
    s.(queue := s.queue[1..], timers := Receive(s.timers, s.queue[0]))
  }

  /** Scheduled for now or earlier, and the store still expects exactly that deadline. */
  predicate Due(s: System, id: Id, now: Instant) {
    && id in s.timers.scheduled && s.timers.scheduled[id] <= now
    && id in s.store.expirations && s.store.expirations[id] == s.timers.scheduled[id]
  }

  /** The latest deadline known for an item's id is the item's own. */
  predicate Current(t: Timers, item: Item) {
    item.id in t.scheduled && t.scheduled[item.id] == item.deadline
  }

  /** A popped item is forgotten when it is current, and its id closed when the store agrees. */
  function PopStep(l: Limits, s: System, item: Item): System {
    var heap := s.timers.heap - multiset{item};
    if !Current(s.timers, item) then s.(timers := s.timers.(heap := heap))
    else
      var popped := s.(timers := Timers(heap, s.timers.scheduled - {item.id}));
      if item.id in s.store.expirations && s.store.expirations[item.id] == item.deadline
      then CloseStep(l, popped, item.id, Expired)
      else popped
  }

  function CloseAll(l: Limits, s: System, ids: seq<Id>): System {
    if ids == [] then s
    else CloseStep(l, CloseAll(l, s, ids[..|ids| - 1]), ids[|ids| - 1], Expired)
  }

  /** The items of `heap` that are later than `now`, with their multiplicity. */
  ghost predicate LaterOnly(heap: multiset<Item>, now: Instant, rest: multiset<Item>) {
    forall it: Item :: rest[it] == if it.deadline > now then heap[it] else 0
  }

  function LaterMap(scheduled: map<Id, Instant>, now: Instant): map<Id, Instant> {
    map id | id in scheduled && scheduled[id] > now :: scheduled[id]
  }

  function DeadlineOf(s: System, id: Id): Instant {
    if id in s.timers.scheduled then s.timers.scheduled[id] else 0
  }

  /** What a pass closes: exactly the due ids, once each, earliest deadline first. */
  ghost predicate FiresDue(s: System, now: Instant, fired: seq<Id>) {
    && Distinct(fired)
    && (forall id :: id in fired <==> Due(s, id, now))
    && (forall i, j :: 0 <= i < j < |fired| ==> DeadlineOf(s, fired[i]) <= DeadlineOf(s, fired[j]))
  }

  /** A timer pass as a filter over the maps; nothing is said about pops. */
  ghost predicate PassStep(l: Limits, s: System, now: Instant, fired: seq<Id>, s': System) {
    && FiresDue(s, now, fired)
    && s'.store == CloseAll(l, s, fired).store
    && s'.queue == CloseAll(l, s, fired).queue
    && exists rest :: LaterOnly(s.timers.heap, now, rest) &&
                      s'.timers == MaybeCompact(Timers(rest, LaterMap(s.timers.scheduled, now)))
  }

  ghost predicate Step(l: Limits, s: System, e: Event, s': System) {
    match e
    case Notified(n, replacesId, dropAll, deadline) => s' == NotifyStep(l, s, n, replacesId, dropAll, deadline)
    case Closed(id, reason) => s' == CloseStep(l, s, id, reason)
    case Dismissed(id) => s' == DismissStep(s, id)
    case Cleared => s' == ClearStep(s)
    case Received => s.queue != [] && s' == ReceiveStep(s)
    case Passed(now, fired) => PassStep(l, s, now, fired, s')
  }

  const INITIAL := System(EMPTY_STORE, [], Timers(multiset{}, map[]))

  /** A run lists states; `events[i]` leads from state `i` to state `i + 1`. */
  ghost predicate IsRun(l: Limits, states: seq<System>, events: seq<Event>) {
    && |states| == |events| + 1 && states[0] == INITIAL
    && forall i :: 0 <= i < |events| ==> Step(l, states[i], events[i], states[i + 1])
  }

  // ---------------------------------------------------------------------------------------------
  // Replay
  // ---------------------------------------------------------------------------------------------

  lemma {:induction false} ReplayHead(queue: seq<Command>, scheduled: map<Id, Instant>)
    requires queue != []
    ensures Replay(queue, scheduled) == Replay(queue[1..], ApplyToMap(scheduled, queue[0]))
  {
    if |queue| > 1 {
      var init := queue[..|queue| - 1];
      ReplayHead(init, scheduled);
      assert init[1..] == queue[1..][..|queue| - 2];
    }
  }

  ghost predicate Mentions(queue: seq<Command>, id: Id) {
    exists k :: 0 <= k < |queue| && queue[k].id == id
  }

  /** A command in the channel decides the outcome for its id; without one the map decides. */
  lemma {:induction false} ReplayDecides(queue: seq<Command>, a: map<Id, Instant>, b: map<Id, Instant>, id: Id)
    requires Mentions(queue, id) || ((id in a <==> id in b) && (id in a ==> a[id] == b[id]))
    ensures id in Replay(queue, a) <==> id in Replay(queue, b)
    ensures id in Replay(queue, a) ==> Replay(queue, a)[id] == Replay(queue, b)[id]
  {
    if queue != [] {
      var init, last := queue[..|queue| - 1], queue[|queue| - 1];
      if last.id != id {
        if Mentions(queue, id) {
          var k :| 0 <= k < |queue| && queue[k].id == id;
          assert init[k].id == id;
        }
        ReplayDecides(init, a, b, id);
      }
    }
  }

  lemma {:induction false} ReplaySilent(queue: seq<Command>, a: map<Id, Instant>, id: Id)
    requires !Mentions(queue, id)
    ensures id in Replay(queue, a) <==> id in a
    ensures id in a ==> Replay(queue, a)[id] == a[id]
  {
    if queue != [] {
      var init, last := queue[..|queue| - 1], queue[|queue| - 1];
      assert queue[|queue| - 1].id != id;
      forall k | 0 <= k < |init|
        ensures init[k].id != id
      {
        assert queue[k].id != id;
      }
      ReplaySilent(init, a, id);
    }
  }

  lemma ReplaySnoc(queue: seq<Command>, scheduled: map<Id, Instant>, cmd: Command)
    ensures Replay(queue + [cmd], scheduled) == ApplyToMap(Replay(queue, scheduled), cmd)
  {
  }

  // ---------------------------------------------------------------------------------------------
  // Heap
  // ---------------------------------------------------------------------------------------------

  lemma {:induction false} LiveItemsSize(scheduled: map<Id, Instant>)
    ensures |LiveItems(scheduled)| == |scheduled|
    decreases |scheduled|
  {
    if scheduled == map[] {
      assert LiveItems(scheduled) == {};
    } else {
      var id :| id in scheduled;
      var rest := scheduled - {id};
      assert rest.Keys == scheduled.Keys - {id};
      LiveItemsSize(rest);
      forall it: Item
        ensures it in LiveItems(scheduled) <==> it in LiveItems(rest) + {Item(id, scheduled[id])}
      {
        assert it.id in scheduled <==> it.id in rest || it.id == id;
      }
      assert LiveItems(scheduled) == LiveItems(rest) + {Item(id, scheduled[id])};
      assert Item(id, scheduled[id]) !in LiveItems(rest);
    }
  }

  /** Compaction restores the bound and never drops the item of a live timer. */
  lemma CompactKeepsLive(t: Timers)
    requires HeapCovers(t)
    ensures HeapCovers(MaybeCompact(t)) && HeapBounded(MaybeCompact(t))
    ensures MaybeCompact(t).scheduled == t.scheduled
  {
    LiveItemsSize(t.scheduled);
  }

  lemma ReceiveKeepsHeap(t: Timers, cmd: Command)
    requires HeapCovers(t)
    ensures HeapCovers(Receive(t, cmd)) && HeapBounded(Receive(t, cmd))
    ensures Receive(t, cmd).scheduled == ApplyToMap(t.scheduled, cmd)
  {
    hide MaybeCompact;
    CompactKeepsLive(ApplyCommand(t, cmd));
  }

  // ---------------------------------------------------------------------------------------------
  // Every step keeps every timer
  // ---------------------------------------------------------------------------------------------

  lemma NotifyKeeps(l: Limits, s: System, n: Notification, replacesId: Id, dropAll: bool, deadline: Option<Instant>)
    requires Sound(l, s)
    ensures Sound(l, NotifyStep(l, s, n, replacesId, dropAll, deadline))
  {
    InsertKeepsGood(l, s.store, n, replacesId, dropAll);
    InsertOnlyDropsTimers(l, s.store, n, replacesId, dropAll);
    hide StoreModel.Insert, Good;
    var (store, outcome) := Insert(l, s.store, n, replacesId, dropAll);
    if !outcome.dropped {
      SetExpirationKeepsGood(l, store, outcome.notification.id, deadline);
      ReplaySnoc(s.queue, s.timers.scheduled, CommandFor(outcome.notification.id, deadline));
    }
  }

  lemma InsertOnlyDropsTimers(l: Limits, s: StoreState, n: Notification, replacesId: Id, dropAll: bool)
    ensures forall id :: id in Insert(l, s, n, replacesId, dropAll).0.expirations ==>
              id in s.expirations && Insert(l, s, n, replacesId, dropAll).0.expirations[id] == s.expirations[id]
  {
  }

  lemma CloseKeeps(l: Limits, s: System, id: Id, reason: CloseReason)
    requires Sound(l, s)
    ensures Sound(l, CloseStep(l, s, id, reason))
  {
    CloseKeepsGood(l, s.store, id, reason);
    ReplaySnoc(s.queue, s.timers.scheduled, Cancel(id));
    assert s.queue + [] == s.queue;
  }

  lemma DismissKeeps(l: Limits, s: System, id: Id)
    requires Sound(l, s)
    ensures Sound(l, DismissStep(s, id))
  {
    DismissKeepsGood(l, s.store, id);
    ReplaySnoc(s.queue, s.timers.scheduled, Cancel(id));
    assert s.queue + [] == s.queue;
  }

  lemma ClearKeeps(l: Limits, s: System)
    requires Sound(l, s)
    ensures Sound(l, ClearStep(s))
  {
  }

  /** A current item that the store does not expect can be forgotten. */
  lemma ForgetKeeps(l: Limits, s: System, item: Item)
    requires Sound(l, s) && Current(s.timers, item)
    requires item.id in s.store.expirations ==> s.store.expirations[item.id] != item.deadline
    ensures Sound(l, s.(timers := Timers(s.timers.heap - multiset{item}, s.timers.scheduled - {item.id})))
  {
    hide Good;
    var left := s.timers.scheduled - {item.id};
    forall id | id in s.store.expirations
      ensures id in Replay(s.queue, left) && Replay(s.queue, left)[id] == s.store.expirations[id]
    {
      if !Mentions(s.queue, id) {
        ReplaySilent(s.queue, s.timers.scheduled, id);
      }
      ReplayDecides(s.queue, s.timers.scheduled, left, id);
    }
  }

  function Untimed(s: StoreState, id: Id): StoreState {
    s.(expirations := s.expirations - {id})
  }

  lemma UntimedSound(l: Limits, s: System, id: Id)
    requires Sound(l, s)
    ensures Sound(l, s.(store := Untimed(s.store, id)))
  {
  }

  /** A close drops the deadline anyway. */
  lemma CloseDropsDeadline(l: Limits, s: System, id: Id)
    ensures CloseStep(l, s.(store := Untimed(s.store, id)), id, Expired) == CloseStep(l, s, id, Expired)
  {
    assert s.store.expirations - {id} - {id} == s.store.expirations - {id};
  }

  /** Handling a popped item loses no timer that is still needed. */
  lemma PopStepKeeps(l: Limits, s: System, item: Item)
    requires Sound(l, s) && item in s.timers.heap
    ensures Sound(l, PopStep(l, s, item))
  {
    if !Current(s.timers, item) {
      StaleItemKeeps(l, s, item);
    } else if item.id in s.store.expirations && s.store.expirations[item.id] == item.deadline {
      hide Sound, CloseStep;
      var popped := s.(timers := Timers(s.timers.heap - multiset{item}, s.timers.scheduled - {item.id}));
      var store := Untimed(s.store, item.id);
      UntimedSound(l, s, item.id);
      ForgetKeeps(l, s.(store := store), item);
      CloseKeeps(l, popped.(store := store), item.id, Expired);
      CloseDropsDeadline(l, popped, item.id);
    } else {
      ForgetKeeps(l, s, item);
    }
  }

  lemma StaleItemKeeps(l: Limits, s: System, item: Item)
    requires Sound(l, s) && !Current(s.timers, item)
    ensures Sound(l, s.(timers := s.timers.(heap := s.timers.heap - multiset{item})))
  {
    hide Good, Replay;
  }

  lemma ReceiveKeeps(l: Limits, s: System)
    requires Inv(l, s) && s.queue != []
    ensures Inv(l, ReceiveStep(s))
  {
    ReceiveKeepsHeap(s.timers, s.queue[0]);
    ReplayHead(s.queue, s.timers.scheduled);
  }

  lemma {:induction false} CloseAllFacts(l: Limits, s: System, ids: seq<Id>)
    requires Sound(l, s)
    ensures Sound(l, CloseAll(l, s, ids))
    ensures CloseAll(l, s, ids).timers == s.timers
    ensures CloseAll(l, s, ids).store.expirations == s.store.expirations - Elements(ids)
    ensures IdSet(CloseAll(l, s, ids).store.active) == IdSet(s.store.active) - Elements(ids)
  {
    hide Sound, Step;
    if ids == [] {
      assert s.store.expirations - {} == s.store.expirations;
    } else {
      var init, id := ids[..|ids| - 1], ids[|ids| - 1];
      CloseAllFacts(l, s, init);
      var before := CloseAll(l, s, init);
      CloseKeeps(l, before, id, Expired);
      CloseDropsId(l, before.store, id);
      assert ids == init + [id];
      assert Elements(ids) == Elements(init) + {id};
      assert s.store.expirations - Elements(init) - {id} == s.store.expirations - Elements(ids);
    }
  }

  lemma CloseDropsId(l: Limits, s: StoreState, id: Id)
    ensures Close(l, s, id, Expired).expirations == s.expirations - {id}
    ensures IdSet(Close(l, s, id, Expired).active) == IdSet(s.active) - {id}
  {
    FindMeans(s.active, id);
    WithoutMeans(s.active, id);
  }

  lemma LaterKeepsHeap(t: Timers, now: Instant, rest: multiset<Item>)
    requires HeapCovers(t) && LaterOnly(t.heap, now, rest)
    ensures HeapCovers(Timers(rest, LaterMap(t.scheduled, now)))
  {
  }

  lemma PassKeeps(l: Limits, s: System, now: Instant, fired: seq<Id>, s': System)
    requires Inv(l, s) && PassStep(l, s, now, fired, s')
    ensures Inv(l, s')
  {
    CloseAllFacts(l, s, fired);
    var mid := CloseAll(l, s, fired);
    var rest :| LaterOnly(s.timers.heap, now, rest) &&
                s'.timers == MaybeCompact(Timers(rest, LaterMap(s.timers.scheduled, now)));
    LaterKeepsHeap(s.timers, now, rest);
    CompactKeepsLive(Timers(rest, LaterMap(s.timers.scheduled, now)));
    assert NoTimerLost(s') by {
      forall id | id in s'.store.expirations
        ensures id in Replay(s'.queue, s'.timers.scheduled)
        ensures Replay(s'.queue, s'.timers.scheduled)[id] == s'.store.expirations[id]
      {
        if !Mentions(mid.queue, id) {
          ReplaySilent(mid.queue, mid.timers.scheduled, id);
          assert !Due(s, id, now);
        }
        ReplayDecides(mid.queue, mid.timers.scheduled, s'.timers.scheduled, id);
      }
    }
  }

  lemma StepKeepsTimers(l: Limits, s: System, e: Event, s': System)
    requires Inv(l, s) && Step(l, s, e, s')
    ensures Inv(l, s')
  {
    match e
    case Notified(n, replacesId, dropAll, deadline) => NotifyKeeps(l, s, n, replacesId, dropAll, deadline);
    case Closed(id, reason) => CloseKeeps(l, s, id, reason);
    case Dismissed(id) => DismissKeeps(l, s, id);
    case Cleared => ClearKeeps(l, s);
    case Received => ReceiveKeeps(l, s);
    case Passed(now, fired) => PassKeeps(l, s, now, fired, s');
  }

  lemma InitialInv(l: Limits)
    ensures Inv(l, INITIAL)
  {
  }

  /** No timer is ever lost: the invariant holds in every state of every run. */
  lemma {:induction false} RunKeepsTimers(l: Limits, states: seq<System>, events: seq<Event>, i: nat)
    requires IsRun(l, states, events) && i < |states|
    ensures Inv(l, states[i])
  {
    hide Inv, Step;
    if i == 0 {
      InitialInv(l);
    } else {
      RunKeepsTimers(l, states, events, i - 1);
      StepKeepsTimers(l, states[i - 1], events[i - 1], states[i]);
    }
  }

  // ---------------------------------------------------------------------------------------------
  // Cancelled timers
  // ---------------------------------------------------------------------------------------------

  lemma {:induction false} CancelsForget(queue: seq<Command>, scheduled: map<Id, Instant>, ids: seq<Id>)
    ensures forall id :: id in Replay(queue + Cancels(ids), scheduled) <==>
                         id in Replay(queue, scheduled) && id !in ids
  {
    if ids == [] {
      assert queue + Cancels(ids) == queue;
    } else {
      var before, last := ids[..|ids| - 1], ids[|ids| - 1];
      CancelsForget(queue, scheduled, before);
      assert ids == before + [last] && Cancels(ids) == Cancels(before) + [Cancel(last)];
      assert queue + Cancels(ids) == (queue + Cancels(before)) + [Cancel(last)];
      ReplaySnoc(queue + Cancels(before), scheduled, Cancel(last));
    }
  }

  /** A row that leaves the live queue by a close, a dismissal or a clear leaves no timer behind. */
  lemma GoneRowsAreForgotten(l: Limits, s: System, e: Event, s': System, id: Id)
    requires (e.Closed? || e.Dismissed? || e.Cleared?) && Step(l, s, e, s')
    requires id in IdSet(s.store.active) && id !in IdSet(s'.store.active)
    ensures id !in Replay(s'.queue, s'.timers.scheduled)
  {
    match e
    case Closed(closed, reason) =>
      FindMeans(s.store.active, closed);
      WithoutMeans(s.store.active, closed);
      ReplaySnoc(s.queue, s.timers.scheduled, Cancel(closed));
    case Dismissed(gone) =>
      FindMeans(s.store.active, gone);
      WithoutMeans(s.store.active, gone);
      ReplaySnoc(s.queue, s.timers.scheduled, Cancel(gone));
    case Cleared =>
      var ids := Ids(s.store.active);
      CancelsForget(s.queue, s.timers.scheduled, Reverse(ids));
      var row :| row in s.store.active && row.id == id;
      var i :| 0 <= i < |s.store.active| && s.store.active[i] == row;
      ReverseAt(ids, |ids| - 1 - i);
      assert Reverse(ids)[|ids| - 1 - i] == id;
  }

  /** A notify tells the scheduler exactly the deadline it asked for, or that there is none. */
  lemma NotifyTells(l: Limits, s: System, n: Notification, replacesId: Id, deadline: Option<Instant>)
    ensures var s' := NotifyStep(l, s, n, replacesId, false, deadline);
            var id := Insert(l, s.store, n, replacesId, false).1.notification.id;
            var known := Replay(s'.queue, s'.timers.scheduled);
            && (id in known <==> deadline.Some?) && (deadline.Some? ==> known[id] == deadline.value)
            && (forall x :: x != id ==>
                  && (x in known <==> x in Replay(s.queue, s.timers.scheduled))
                  && (x in known ==> known[x] == Replay(s.queue, s.timers.scheduled)[x]))
  {
    var id := Insert(l, s.store, n, replacesId, false).1.notification.id;
    ReplaySnoc(s.queue, s.timers.scheduled, CommandFor(id, deadline));
  }

  // ---------------------------------------------------------------------------------------------
  // What the invariant buys
  // ---------------------------------------------------------------------------------------------

  predicate PastDeadline(s: System, id: Id, now: Instant) {
    id in s.store.expirations && s.store.expirations[id] <= now
  }

  /**
   In any state of a run, a pass closes no row early, and it closes every expired row whose id has
   no command left in the channel; what it closes is gone from the live queue and from the
   deadlines, and every other deadline stays.
   */
  lemma PassFiresExpired(l: Limits, states: seq<System>, events: seq<Event>, i: nat)
    requires IsRun(l, states, events) && i < |events| && events[i].Passed?
    ensures var s, s', now, fired := states[i], states[i + 1], events[i].now, events[i].fired;
            && (forall id :: id in fired ==> PastDeadline(s, id, now))
            && (forall id :: PastDeadline(s, id, now) && !Mentions(s.queue, id) ==> id in fired)
            && s'.store.expirations == s.store.expirations - Elements(fired)
            && IdSet(s'.store.active) == IdSet(s.store.active) - Elements(fired)
  {
    var s, s', now, fired := states[i], states[i + 1], events[i].now, events[i].fired;
    RunKeepsTimers(l, states, events, i);
    CloseAllFacts(l, s, fired);
    forall id | PastDeadline(s, id, now) && !Mentions(s.queue, id)
      ensures id in fired
    {
      ReplaySilent(s.queue, s.timers.scheduled, id);
      assert Due(s, id, now);
    }
  }

  /** A pass closes each row once, in the order of the stored deadlines. */
  lemma PassFiresInOrder(l: Limits, states: seq<System>, events: seq<Event>, i: nat)
    requires IsRun(l, states, events) && i < |events| && events[i].Passed?
    ensures var deadlines, fired := states[i].store.expirations, events[i].fired;
            forall j, k :: 0 <= j < k < |fired| ==>
              && fired[j] != fired[k] && fired[j] in deadlines && fired[k] in deadlines
              && deadlines[fired[j]] <= deadlines[fired[k]]
  {
    var s, now, fired := states[i], events[i].now, events[i].fired;
    assert Step(l, s, events[i], states[i + 1]);
    forall j | 0 <= j < |fired|
      ensures fired[j] in s.store.expirations && s.store.expirations[fired[j]] == DeadlineOf(s, fired[j])
    {
      assert fired[j] in fired;
      assert Due(s, fired[j], now);
    }
  }

  /** With the channel drained, a pass leaves exactly the deadlines that lie in the future. */
  lemma DrainedPassFiresAll(l: Limits, states: seq<System>, events: seq<Event>, i: nat)
    requires IsRun(l, states, events) && i < |events| && events[i].Passed? && states[i].queue == []
    ensures forall id :: id in states[i + 1].store.expirations <==>
                         (id in states[i].store.expirations && states[i].store.expirations[id] > events[i].now)
  {
    PassFiresExpired(l, states, events, i);
  }

  /** With the channel drained, the earliest heap entry is never later than a stored deadline. */
  lemma SleepNeverOvershoots(l: Limits, states: seq<System>, events: seq<Event>, i: nat, id: Id)
    requires IsRun(l, states, events) && i < |states| && states[i].queue == []
    requires id in states[i].store.expirations
    ensures Item(id, states[i].store.expirations[id]) in states[i].timers.heap
    ensures forall it :: it in states[i].timers.heap &&
                         (forall other :: other in states[i].timers.heap ==> it.deadline <= other.deadline)
                         ==> it.deadline <= states[i].store.expirations[id]
  {
    RunKeepsTimers(l, states, events, i);
  }

  /** At every loop head the heap is at most four times the live timers, or the fixed floor. */
  lemma HeapStaysBounded(l: Limits, states: seq<System>, events: seq<Event>, i: nat)
    requires IsRun(l, states, events) && i < |states|
    ensures |states[i].timers.heap| <= 4 * |states[i].timers.scheduled| || |states[i].timers.heap| <= 128
  {
    RunKeepsTimers(l, states, events, i);
  }
}
