/** The daemon's handlers and the scheduler task, over mutable state, proved against the model. */
module Daemons {
  import opened Support
  import opened IdAllocation
  import opened Notifications
  import StoreModel
  import opened NotificationStores
  import opened ExpirationModel
  import opened TimerPasses

  /** The heap and the deadline map owned by the scheduler task. */
  class ExpirationTask {
    var heap: multiset<Item>
    var scheduled: map<Id, Instant>

    ghost function View(): Timers
      reads this
    {
      Timers(heap, scheduled)
    }

    constructor ()
      ensures View() == Timers(multiset{}, map[])
    {
      heap, scheduled := multiset{}, map[];
    }

    method ApplyCommand(cmd: Command)
      modifies this
      ensures View() == ExpirationModel.ApplyCommand(old(View()), cmd)
    {
      match cmd {
        case Schedule(id, deadline) =>
          scheduled := scheduled[id := deadline];
          heap := heap + multiset{Item(id, deadline)};
        case Cancel(id) =>
          scheduled := scheduled - {id};
      }
    }

    /** Drops everything when nothing is live; rebuilds from the live deadlines past the threshold. */
    method MaybeCompact()
      modifies this
      ensures View() == ExpirationModel.MaybeCompact(old(View()))
    {
      var live := |scheduled|;
      if live == 0 {
        heap := multiset{};
        return;
      }
      var threshold := if 4 * live < COMPACT_FLOOR then COMPACT_FLOOR else 4 * live;
      if |heap| <= threshold {
        return;
      }
      var rebuilt: multiset<Item> := multiset{};
      var left := scheduled;
      assert LiveItems(scheduled) - LiveItems(left) == {};
      while left != map[]
        modifies {}
        invariant left.Keys <= scheduled.Keys
        invariant forall id :: id in left ==> left[id] == scheduled[id]
        invariant rebuilt == multiset(LiveItems(scheduled) - LiveItems(left))
        decreases |left|
      {
        var id :| id in left;
        RebuildStep(scheduled, left, id);
        rebuilt := rebuilt + multiset{Item(id, left[id])};
        left := left - {id};
      }
      assert LiveItems(scheduled) - LiveItems(left) == LiveItems(scheduled);
      heap := rebuilt;
    }

    /** BinaryHeap::pop under the reversed order: some item with the earliest deadline. */
    method PopEarliest() returns (item: Item)
      requires heap != multiset{}
      modifies this`heap
      ensures item in old(heap) && heap == old(heap) - multiset{item}
      ensures forall other :: other in old(heap) ==> item.deadline <= other.deadline
    {
      item := Earliest(heap);
      heap := heap - multiset{item};
    }
  }

  /** Shared daemon state: the store, the scheduler task and the channel between them. */
  class Daemon {
    const store: NotificationStore
    const task: ExpirationTask
    var queue: seq<Command>
    /** The scheduler is in the middle of a timer pass. */
    ghost var passing: bool

    ghost predicate Ready()
      reads store, store.history
    {
      store.Valid()
    }

    /** The scheduler invariant of the model; during a pass the heap bound may be missed. */
    ghost predicate Valid()
      reads this, store, store.history, task
    {
      && Ready() && Sound(store.limits, View())
      && (!passing ==> Inv(store.limits, View()))
    }

    ghost function View(): System
      requires Ready()
      reads this, store, store.history, task
    {
      System(store.View(), queue, task.View())
    }

    constructor (limits: StoreModel.Limits, dndDefault: bool)
      ensures Valid() && View() == INITIAL && store.limits == limits && !passing
    {
      store := new NotificationStore(limits, dndDefault);
      task := new ExpirationTask();
      queue, passing := [], false;
      new;
      InitialInv(limits);
    }

    /** Insert, record the resolved deadline, then tell the scheduler. */
    method Notify(n: Notification, replacesId: Id, dropAll: bool, deadline: Option<Instant>) returns (id: Id)
      requires Valid()
      modifies this`queue, store, store.history
      ensures Valid()
      ensures Step(store.limits, old(View()), Notified(n, replacesId, dropAll, deadline), View())
      ensures id >= 1
    {
      hide StoreModel.Insert, StoreModel.Good, Sound;
      NotifyKeeps(store.limits, View(), n, replacesId, dropAll, deadline);
      StoreModel.InsertKeepsGood(store.limits, store.View(), n, replacesId, dropAll);
      var outcome := store.Insert(n, replacesId, dropAll);
      id := outcome.notification.id;
      if outcome.dropped {
        return;
      }
      store.SetExpiration(id, deadline);
      queue := queue + [CommandFor(id, deadline)];
    }

    method CloseNotification(id: Id, reason: CloseReason)
      requires Ready()
      modifies this`queue, store, store.history
      ensures Ready() && (old(Valid()) ==> Valid())
      ensures Step(store.limits, old(View()), Closed(id, reason), View())
    {
      hide Sound;
      if Valid() {
        CloseKeeps(store.limits, View(), id, reason);
      }
      ghost var before := View();
      var removed := store.Close(id, reason);
      if removed.None? {
        assert before.queue + [] == before.queue;
        assert View() == CloseStep(store.limits, before, id, reason);
        return;
      }
      queue := queue + [Cancel(id)];
      assert View() == CloseStep(store.limits, before, id, reason);
    }

    method DismissFromPanel(id: Id)
      requires Valid()
      modifies this`queue, store, store.history
      ensures Valid()
      ensures Step(store.limits, old(View()), Dismissed(id), View())
    {
      hide Sound, StoreModel.Dismiss;
      DismissKeeps(store.limits, View(), id);
      FindMeans(store.View().active, id);
      assert queue + [] == queue;
      var outcome := store.DismissFromPanel(id);
      if outcome.removedActive {
        queue := queue + [Cancel(id)];
      }
    }

    method ClearAll()
      requires Valid()
      modifies this`queue, store, store.history
      ensures Valid()
      ensures Step(store.limits, old(View()), Cleared, View())
    {
      hide Sound, Reverse;
      ClearKeeps(store.limits, View());
      var ids := store.DrainActiveIds();
      store.ClearHistory();
      var sent := 0;
      ghost var before := queue;
      while sent < |ids|
        modifies this`queue
        invariant 0 <= sent <= |ids|
        invariant queue == before + Cancels(ids[..sent])
      {
        queue := queue + [Cancel(ids[sent])];
        assert ids[..sent + 1] == ids[..sent] + [ids[sent]];
        assert Cancels(ids[..sent + 1]) == Cancels(ids[..sent]) + [Cancel(ids[sent])];
        sent := sent + 1;
      }
      assert ids[..sent] == ids;
    }

    /** One turn of the scheduler loop that reads a command. */
    method ReceiveCommand()
      requires Valid() && !passing && queue != []
      modifies this`queue, task
      ensures Valid()
      ensures Step(store.limits, old(View()), Received, View())
    {
      hide Inv, Sound, ExpirationModel.MaybeCompact, NotificationStore.Valid, ApplyToMap, ExpirationModel.ApplyCommand;
      ReceiveKeeps(store.limits, View());
      InvIsSound(store.limits, ReceiveStep(View()));
      var cmd := queue[0];
      queue := queue[1..];
      var wasEmpty := task.heap == multiset{};
      task.ApplyCommand(cmd);
      if !wasEmpty {
        task.MaybeCompact();
      }
    }

    /** The store and the channel as `fired` closes leave them. */
    ghost predicate ClosedSoFar(s: System, fired: seq<Id>)
      reads this, store, store.history
    {
      && Ready()
      && store.View() == CloseAll(store.limits, s, fired).store
      && queue == CloseAll(store.limits, s, fired).queue
    }

    /** A popped item: skipped when stale, dropped when the store moved on, closed otherwise. */
    method HandlePopped(item: Item, fired: seq<Id>, ghost s: System, ghost now: Instant,
                        ghost popped: multiset<Item>, ghost before: System)
      returns (fired': seq<Id>)
      requires Ready() && Sound(store.limits, before) && item in before.timers.heap
      requires View() == before.(timers := before.timers.(heap := before.timers.heap - multiset{item}))
      requires ClosedSoFar(s, fired)
      requires Progress(s, now, popped, before.timers.heap, task.scheduled, fired)
      requires PopsNext(before.timers.heap, item, now)
      modifies this`queue, store, store.history, task`scheduled
      ensures Ready() && Sound(store.limits, View()) && View() == PopStep(store.limits, before, item)
      ensures ClosedSoFar(s, fired')
      ensures Progress(s, now, popped + multiset{item}, task.heap, task.scheduled, fired')
    {
      hide Sound, CloseAll, Progress, PopsNext;
      PopStepKeeps(store.limits, before, item);
      if item.id !in task.scheduled || task.scheduled[item.id] != item.deadline {
        StaleStep(s, now, popped, before.timers.heap, task.scheduled, fired, item);
        return fired;
      }
      CurrentStep(s, now, popped, before.timers.heap, task.scheduled, fired, item);
      StoreAgreesIff(store.limits, s, now, popped, before, fired, item);
      if item.id in store.expirations && store.expirations[item.id] == item.deadline {
        fired' := fired + [item.id];
        CloseAllSnoc(store.limits, s, fired, item.id);
        task.scheduled := task.scheduled - {item.id};
        CloseNotification(item.id, CloseReason.Expired);
      } else {
        fired' := fired;
        task.scheduled := task.scheduled - {item.id};
      }
    }

    /** One turn of the scheduler loop that wakes on a deadline. */
    method TimerPass(now: Instant) returns (fired: seq<Id>)
      requires Valid() && !passing
      modifies this, store, store.history, task
      ensures Valid() && !passing
      ensures Step(store.limits, old(View()), Passed(now, fired), View())
    {
      hide CloseAll, Progress, Sound, PopStep, PassStep, Inv, ExpirationModel.MaybeCompact;
      hide NotificationStore.Valid, NotificationStore.View, Ready;
      ghost var s := View();
      ghost var popped: multiset<Item> := multiset{};
      fired := [];
      SoundCovers(store.limits, s);
      PassBegins(store.limits, s, now);
      passing := true;
      while task.heap != multiset{}
        invariant ClosedSoFar(s, fired) && Sound(store.limits, View()) && passing
        invariant Progress(s, now, popped, task.heap, task.scheduled, fired)
        decreases |task.heap|
      {
        var next := Earliest(task.heap);
        if next.deadline > now {
          break;
        }
        ghost var before := View();
        var item := task.PopEarliest();
        fired := HandlePopped(item, fired, s, now, popped, before);
        popped := popped + multiset{item};
      }
      ghost var left := task.View();
      RestIsInv(store.limits, View());
      task.MaybeCompact();
      passing := false;
      PassEnds(store.limits, s, now, popped, left, fired, View());
    }
  }

  lemma InvIsSound(l: StoreModel.Limits, s: System)
    requires Inv(l, s)
    ensures Sound(l, s)
  {
  }

  lemma SoundCovers(l: StoreModel.Limits, s: System)
    requires Sound(l, s)
    ensures HeapCovers(s.timers)
  {
  }

  /** The compaction at the end of a pass restores the full invariant. */
  lemma RestIsInv(l: StoreModel.Limits, s: System)
    requires Sound(l, s)
    ensures Inv(l, s.(timers := ExpirationModel.MaybeCompact(s.timers)))
    ensures Sound(l, s.(timers := ExpirationModel.MaybeCompact(s.timers)))
  {
    CompactKeepsLive(s.timers);
  }

  lemma {:induction false} CloseAllDeadlines(l: StoreModel.Limits, s: System, ids: seq<Id>)
    ensures CloseAll(l, s, ids).store.expirations == s.store.expirations - Elements(ids)
  {
    if ids == [] {
      assert s.store.expirations - {} == s.store.expirations;
    } else {
      var init, id := ids[..|ids| - 1], ids[|ids| - 1];
      CloseAllDeadlines(l, s, init);
      assert ids == init + [id];
      assert Elements(ids) == Elements(init) + {id};
      assert s.store.expirations - Elements(init) - {id} == s.store.expirations - Elements(ids);
    }
  }

  /** After the closes of a pass the store still decides about a current item as it did before. */
  lemma StoreAgreesIff(l: StoreModel.Limits, s: System, now: Instant, popped: multiset<Item>, before: System,
                       fired: seq<Id>, item: Item)
    requires Progress(s, now, popped, before.timers.heap, before.timers.scheduled, fired)
    requires PopsNext(before.timers.heap, item, now) && Current(before.timers, item)
    ensures var expirations := CloseAll(l, s, fired).store.expirations;
            (item.id in expirations && expirations[item.id] == item.deadline) <==> Agreed(s, item.id)
  {
    CloseAllDeadlines(l, s, fired);
    CurrentStep(s, now, popped, before.timers.heap, before.timers.scheduled, fired, item);
  }

  lemma CloseAllSnoc(l: StoreModel.Limits, s: System, ids: seq<Id>, id: Id)
    ensures CloseAll(l, s, ids + [id]) == CloseStep(l, CloseAll(l, s, ids), id, CloseReason.Expired)
  {
  }

  /** BinaryHeap::peek under the reversed order. */
  method Earliest(heap: multiset<Item>) returns (item: Item)
    requires heap != multiset{}
    ensures item in heap
    ensures forall other :: other in heap ==> item.deadline <= other.deadline
  {
    item :| item in heap;
    var left := heap - multiset{item};
    while left != multiset{}
      invariant item in heap && left <= heap
      invariant forall other :: other in heap ==> other in left || item.deadline <= other.deadline
      decreases |left|
    {
      var next :| next in left;
      if next.deadline < item.deadline {
        item := next;
      }
      left := left[next := 0];
    }
  }

  lemma LiveItemsMember(scheduled: map<Id, Instant>, it: Item)
    ensures it in LiveItems(scheduled) <==> it.id in scheduled && scheduled[it.id] == it.deadline
  {
  }

  lemma RebuildStep(scheduled: map<Id, Instant>, left: map<Id, Instant>, id: Id)
    requires left.Keys <= scheduled.Keys && id in left
    requires forall x :: x in left ==> left[x] == scheduled[x]
    ensures |left - {id}| < |left|
    ensures multiset(LiveItems(scheduled) - LiveItems(left - {id}))
         == multiset(LiveItems(scheduled) - LiveItems(left)) + multiset{Item(id, left[id])}
  {
    assert (left - {id}).Keys == left.Keys - {id};
    var item := Item(id, left[id]);
    var done := LiveItems(scheduled) - LiveItems(left);
    LiveItemsMember(left, item);
    forall it: Item
      ensures it in LiveItems(scheduled) - LiveItems(left - {id}) <==> it in done + {item}
    {
      LiveItemsMember(left, it);
      LiveItemsMember(left - {id}, it);
      LiveItemsMember(scheduled, it);
    }
    assert LiveItems(scheduled) - LiveItems(left - {id}) == done + {item};
  }
}
