/** The bounded archive: rows keyed by id, plus the insertion order of the ids. */
module HistoryStores {
  import opened Support
  import opened IdAllocation
  import opened Notifications

  /** `order` lists every key once, and every row sits under its own id. */
  ghost predicate Ordered(entries: map<Id, Notification>, order: seq<Id>) {
    && Distinct(order)
    && (forall id :: id in order <==> id in entries)
    && (forall id :: id in entries ==> entries[id].id == id)
  }

  /** The rows from oldest to newest. */
  ghost function RowsOf(entries: map<Id, Notification>, order: seq<Id>): seq<Notification>
    requires forall id :: id in order ==> id in entries
  {
    seq(|order|, i requires 0 <= i < |order| => entries[order[i]])
  }

  /** Newest first, skipping ids that no longer have a row. */
  function Listing(entries: map<Id, Notification>, order: seq<Id>): seq<Notification> {
    if order == [] then []
    else Listing(entries, order[1..]) +
         (if order[0] in entries then [entries[order[0]]] else [])
  }

  lemma {:induction false} ListingIsReversedRows(entries: map<Id, Notification>, order: seq<Id>)
    requires forall id :: id in order ==> id in entries
    ensures Listing(entries, order) == Reverse(RowsOf(entries, order))
  {
    if order != [] {
      ListingIsReversedRows(entries, order[1..]);
      assert RowsOf(entries, order)[1..] == RowsOf(entries, order[1..]);
    }
  }

  lemma RowsHaveOrderedIds(entries: map<Id, Notification>, order: seq<Id>)
    requires Ordered(entries, order)
    ensures DistinctIds(RowsOf(entries, order))
    ensures IdSet(RowsOf(entries, order)) == entries.Keys
    ensures |RowsOf(entries, order)| == |entries|
  {
    var rows := RowsOf(entries, order);
    forall id | id in entries
      ensures id in IdSet(rows)
    {
      var i :| 0 <= i < |order| && order[i] == id;
      assert rows[i].id == id;
    }
    IdCount(rows);
    assert |entries| == |entries.Keys|;
  }

  /** Dropping an id from the map and from the order drops exactly its row. */
  lemma {:induction false} RowsAfterDrop(entries: map<Id, Notification>, order: seq<Id>, id: Id)
    requires forall x :: x in order ==> x in entries && entries[x].id == x
    ensures forall x :: x in Filter((y: Id) => y != id, order) <==> x in order && x != id
    ensures RowsOf(entries - {id}, Filter((y: Id) => y != id, order)) == Without(RowsOf(entries, order), id)
  {
    FilterMembers((y: Id) => y != id, order);
    if order != [] {
      RowsAfterDrop(entries, order[1..], id);
      assert RowsOf(entries, order)[1..] == RowsOf(entries, order[1..]);
    }
  }

  lemma {:induction false} FilterDistinct(order: seq<Id>, id: Id)
    requires Distinct(order)
    ensures Distinct(Filter((y: Id) => y != id, order))
  {
    if order != [] {
      FilterDistinct(order[1..], id);
      FilterMembers((y: Id) => y != id, order[1..]);
    }
  }

  /** Some id recorded in `order` still has a row. */
  ghost predicate OrderReachesRow(entries: map<Id, Notification>, order: seq<Id>) {
    exists i :: 0 <= i < |order| && order[i] in entries
  }

  class HistoryStore {
    var entries: map<Id, Notification>
    var order: seq<Id>

    ghost predicate Valid()
      reads this
    {
      Ordered(entries, order)
    }

    ghost function Rows(): seq<Notification>
      requires Valid()
      reads this
    {
      RowsOf(entries, order)
    }

    constructor ()
      ensures Valid() && Rows() == []
    {
      entries, order := map[], [];
    }

    method ListViews() returns (views: seq<Notification>)
      ensures views == Listing(entries, order)
      ensures Valid() ==> views == Reverse(Rows())
    {
      views := [];
      var i := |order|;
      while i > 0
        invariant 0 <= i <= |order|
        invariant views == Listing(entries, order[i..])
      {
        i := i - 1;
        assert order[i..][1..] == order[i + 1..];
        if order[i] in entries {
          views := views + [entries[order[i]]];
        }
      }
      assert order[0..] == order;
      if Valid() {
        ListingIsReversedRows(entries, order);
      }
    }

    method Clear()
      modifies this
      ensures Valid() && Rows() == []
      ensures entries == map[]
    {
      entries, order := map[], [];
    }

    method Remove(id: Id) returns (removed: Option<Notification>)
      requires Valid()
      modifies this
      ensures Valid() && Rows() == Without(old(Rows()), id)
      ensures removed == if id in old(entries) then Some(old(entries)[id]) else None
      ensures removed.Some? <==> id in IdSet(old(Rows()))
    {
      RowsHaveOrderedIds(entries, order);
      removed := if id in entries then Some(entries[id]) else None;
      if removed.Some? {
        RowsAfterDrop(entries, order, id);
        FilterDistinct(order, id);
        entries := entries - {id};
        order := Filter((y: Id) => y != id, order);
      } else {
        WithoutAbsent(Rows(), id);
      }
    }

    method Insert(n: Notification)
      requires Valid()
      modifies this
      ensures Valid() && Rows() == Without(old(Rows()), n.id) + [n]
    {
      hide Filter, IdSet, Without;
      RowsHaveOrderedIds(entries, order);
      if n.id in entries {
        RowsAfterDrop(entries, order, n.id);
        FilterDistinct(order, n.id);
        order := Filter((y: Id) => y != n.id, order);
      } else {
        WithoutAbsent(Rows(), n.id);
      }
      AppendRow(entries, order, n);
      entries := entries[n.id := n];
      order := order + [n.id];
    }

    /**
     Terminates and bounds the archive from any state, even when `order` holds ids without a row
     or misses rows; on an ordered store it keeps exactly the newest rows.
     */
    method EvictToLimit(maxEntries: nat)
      modifies this
      ensures |entries| == if |old(entries)| <= maxEntries then |old(entries)| else maxEntries
      ensures forall id :: id in entries ==> id in old(entries) && entries[id] == old(entries)[id]
      ensures old(Valid()) ==> Valid() && Rows() == Suffix(old(Rows()), maxEntries)
    {
      hide IdSet, DistinctIds;
      ghost var ordered := Valid();
      ghost var was := if ordered then Rows() else [];
      if ordered {
        RowsHaveOrderedIds(entries, order);
      }
      if maxEntries == 0 {
        Clear();
        return;
      }
      while |entries| > maxEntries
        invariant Evicting(old(entries), entries, maxEntries)
        invariant ordered ==> NewestOf(was, entries, order)
        decreases |entries|, if OrderReachesRow(entries, order) then 0 else 1, |order|
      {
        if order == [] {
          order := KeysInSomeOrder(entries);
          if order == [] {
            break;
          }
          assert order[0] in entries;
          continue;
        }
        var id := order[0];
        if id !in entries {
          StalePopKeepsReach(entries, order);
          order := order[1..];
          continue;
        }
        if ordered {
          DropOldest(was, entries, order);
        }
        EvictOne(old(entries), entries, maxEntries, id);
        order := order[1..];
        entries := entries - {id};
      }
      if |entries| == 0 {
        order := [];
      }
      if ordered {
        RowsHaveOrderedIds(entries, order);
      }
    }
  }

  ghost predicate Evicting(was: map<Id, Notification>, now: map<Id, Notification>, maxEntries: nat) {
    && |now| <= |was|
    && (if |was| <= maxEntries then |now| == |was| else |now| >= maxEntries)
    && (forall id :: id in now ==> id in was && now[id] == was[id])
  }

  lemma EvictOne(was: map<Id, Notification>, now: map<Id, Notification>, maxEntries: nat, id: Id)
    requires Evicting(was, now, maxEntries) && |now| > maxEntries && id in now
    ensures Evicting(was, now - {id}, maxEntries) && |now - {id}| == |now| - 1
  {
  }

  /** The store holds the newest rows of `was`, in order. */
  ghost predicate NewestOf(was: seq<Notification>, entries: map<Id, Notification>, order: seq<Id>) {
    && Ordered(entries, order)
    && |order| == |entries| <= |was|
    && RowsOf(entries, order) == was[|was| - |entries|..]
  }

  lemma StalePopKeepsReach(entries: map<Id, Notification>, order: seq<Id>)
    requires order != [] && order[0] !in entries
    ensures OrderReachesRow(entries, order[1..]) <==> OrderReachesRow(entries, order)
  {
  }

  lemma OrderedTail(entries: map<Id, Notification>, order: seq<Id>)
    requires Ordered(entries, order) && order != []
    ensures Ordered(entries - {order[0]}, order[1..])
    ensures |entries - {order[0]}| == |entries| - 1
  {
    var rest, tail := entries - {order[0]}, order[1..];
    assert order == [order[0]] + tail;
    assert order[0] !in tail;
    forall id
      ensures id in tail <==> id in rest
    {
      assert id in order <==> id == order[0] || id in tail;
    }
    assert rest.Keys == entries.Keys - {order[0]};
  }

  lemma RowsTail(entries: map<Id, Notification>, order: seq<Id>)
    requires Distinct(order) && order != []
    requires forall id :: id in order ==> id in entries
    ensures forall id :: id in order[1..] ==> id in entries - {order[0]}
    ensures RowsOf(entries - {order[0]}, order[1..]) == RowsOf(entries, order)[1..]
  {
  }

  lemma DropOldest(was: seq<Notification>, entries: map<Id, Notification>, order: seq<Id>)
    requires NewestOf(was, entries, order) && order != []
    ensures NewestOf(was, entries - {order[0]}, order[1..])
  {
    OrderedTail(entries, order);
    RowsTail(entries, order);
  }

  lemma AppendRow(entries: map<Id, Notification>, order: seq<Id>, n: Notification)
    requires Distinct(order)
    requires forall id :: id in order <==> id in entries && id != n.id
    requires forall id :: id in entries ==> entries[id].id == id
    ensures Ordered(entries[n.id := n], order + [n.id])
    ensures RowsOf(entries[n.id := n], order + [n.id]) == RowsOf(entries - {n.id}, order) + [n]
  {
    var order', entries' := order + [n.id], entries[n.id := n];
    assert n.id !in order;
    assert Distinct(order');
    forall id
      ensures id in order' <==> id in entries'
    {
      assert id in order' <==> id in order || id == n.id;
    }
  }

  /** A hash map's keys, in whatever order it iterates them. */
  method KeysInSomeOrder(entries: map<Id, Notification>) returns (keys: seq<Id>)
    ensures Distinct(keys)
    ensures forall id :: id in keys <==> id in entries
  {
    keys := [];
    var left := entries.Keys;
    while left != {}
      invariant Distinct(keys)
      invariant forall id :: id in keys <==> id in entries && id !in left
      invariant left <= entries.Keys
      decreases left
    {
      var id :| id in left;
      left := left - {id};
      keys := keys + [id];
    }
  }
}
