/** Loop reasoning for a timer pass: what the pops done so far have achieved. */
module TimerPasses {
  import opened Support
  import opened IdAllocation
  import opened Notifications
  import opened StoreModel
  import opened ExpirationModel

  /** The item recorded for an id when the pass began has been popped. */
  predicate Reached(s: System, popped: multiset<Item>, id: Id) {
    id in s.timers.scheduled && Item(id, s.timers.scheduled[id]) in popped
  }

  /** The store and the scheduler agreed on this id's deadline when the pass began. */
  predicate Agreed(s: System, id: Id) {
    && id in s.timers.scheduled && id in s.store.expirations
    && s.store.expirations[id] == s.timers.scheduled[id]
  }

  ghost predicate HeapSplit(s: System, now: Instant, heap: multiset<Item>, popped: multiset<Item>) {
    && heap + popped == s.timers.heap
    && (forall it :: it in popped ==> it.deadline <= now)
    && (forall it, other :: it in popped && other in heap ==> it.deadline <= other.deadline)
  }

  ghost predicate MapLags(s: System, popped: multiset<Item>, scheduled: map<Id, Instant>) {
    && (forall id :: id in scheduled <==> id in s.timers.scheduled && !Reached(s, popped, id))
    && (forall id :: id in scheduled ==> scheduled[id] == s.timers.scheduled[id])
  }

  ghost predicate FiredSoFar(s: System, popped: multiset<Item>, fired: seq<Id>) {
    && Distinct(fired)
    && (forall id :: id in fired <==> Reached(s, popped, id) && Agreed(s, id))
    && (forall i, j :: 0 <= i < j < |fired| ==> DeadlineOf(s, fired[i]) <= DeadlineOf(s, fired[j]))
  }

  ghost predicate Progress(s: System, now: Instant, popped: multiset<Item>, heap: multiset<Item>,
                           scheduled: map<Id, Instant>, fired: seq<Id>) {
    && HeapSplit(s, now, heap, popped)
    && MapLags(s, popped, scheduled)
    && FiredSoFar(s, popped, fired)
  }

  ghost predicate PopsNext(heap: multiset<Item>, item: Item, now: Instant) {
    && item in heap && item.deadline <= now
    && (forall other :: other in heap ==> item.deadline <= other.deadline)
  }

  lemma SplitStep(s: System, now: Instant, popped: multiset<Item>, heap: multiset<Item>, item: Item)
    requires HeapSplit(s, now, heap, popped) && PopsNext(heap, item, now)
    ensures HeapSplit(s, now, heap - multiset{item}, popped + multiset{item})
  {
  }

  lemma StaleStep(s: System, now: Instant, popped: multiset<Item>, heap: multiset<Item>,
                  scheduled: map<Id, Instant>, fired: seq<Id>, item: Item)
    requires Progress(s, now, popped, heap, scheduled, fired) && PopsNext(heap, item, now)
    requires !(item.id in scheduled && scheduled[item.id] == item.deadline)
    ensures Progress(s, now, popped + multiset{item}, heap - multiset{item}, scheduled, fired)
  {
  }

  /** The popped item was current, so its id leaves the map, and fires if the store agrees. */
  lemma CurrentStep(s: System, now: Instant, popped: multiset<Item>, heap: multiset<Item>,
                    scheduled: map<Id, Instant>, fired: seq<Id>, item: Item)
    requires Progress(s, now, popped, heap, scheduled, fired) && PopsNext(heap, item, now)
    requires item.id in scheduled && scheduled[item.id] == item.deadline
    ensures item.id !in fired
    ensures Progress(s, now, popped + multiset{item}, heap - multiset{item}, scheduled - {item.id},
                     if Agreed(s, item.id) then fired + [item.id] else fired)
  {
    SplitStep(s, now, popped, heap, item);
    var popped' := popped + multiset{item};
    forall id
      ensures Reached(s, popped', id) <==> Reached(s, popped, id) || id == item.id
    {
    }
    assert MapLags(s, popped', scheduled - {item.id});
    if Agreed(s, item.id) {
      FiredGrows(s, now, popped, heap, fired, item);
    }
  }

  lemma FiredGrows(s: System, now: Instant, popped: multiset<Item>, heap: multiset<Item>, fired: seq<Id>, item: Item)
    requires HeapSplit(s, now, heap, popped) && FiredSoFar(s, popped, fired) && PopsNext(heap, item, now)
    requires Agreed(s, item.id) && s.timers.scheduled[item.id] == item.deadline
    requires !Reached(s, popped, item.id)
    ensures FiredSoFar(s, popped + multiset{item}, fired + [item.id])
  {
    var fired', popped' := fired + [item.id], popped + multiset{item};
    forall id
      ensures id in fired' <==> Reached(s, popped', id) && Agreed(s, id)
    {
      assert id in fired' <==> id in fired || id == item.id;
    }
    forall i, j | 0 <= i < j < |fired'|
      ensures DeadlineOf(s, fired'[i]) <= DeadlineOf(s, fired'[j])
    {
      if j == |fired| {
        assert fired[i] in fired;
        assert Item(fired[i], s.timers.scheduled[fired[i]]) in popped;
      }
    }
  }

  /** When everything left is later than `now`, the pops add up to the filter over the maps. */
  lemma PassDone(s: System, now: Instant, popped: multiset<Item>, heap: multiset<Item>,
                 scheduled: map<Id, Instant>, fired: seq<Id>)
    requires HeapCovers(s.timers)
    requires Progress(s, now, popped, heap, scheduled, fired)
    requires forall it :: it in heap ==> it.deadline > now
    ensures FiresDue(s, now, fired)
    ensures LaterOnly(s.timers.heap, now, heap)
    ensures scheduled == LaterMap(s.timers.scheduled, now)
  {
  }

  lemma PassBegins(l: Limits, s: System, now: Instant)
    ensures CloseAll(l, s, []) == s
    ensures Progress(s, now, multiset{}, s.timers.heap, s.timers.scheduled, [])
  {
  }

  /** The pops, the closes and the final compaction make up one pass step. */
  lemma PassEnds(l: Limits, s: System, now: Instant, popped: multiset<Item>, left: Timers, fired: seq<Id>, s': System)
    requires HeapCovers(s.timers)
    requires Progress(s, now, popped, left.heap, left.scheduled, fired)
    requires forall it :: it in left.heap ==> it.deadline > now
    requires s' == CloseAll(l, s, fired).(timers := MaybeCompact(left))
    ensures PassStep(l, s, now, fired, s')
  {
    PassDone(s, now, popped, left.heap, left.scheduled, fired);
    assert LaterOnly(s.timers.heap, now, left.heap);
  }
}
