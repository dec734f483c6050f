/** The daemon's mutable store, proved against the two-queue model. */
module NotificationStores {
  import opened Support
  import opened IdAllocation
  import opened Notifications
  import opened HistoryStores
  import opened StoreModel
  import Dnd

  /** One slot of the insertion-ordered active map. */
  datatype Entry = Entry(key: Id, row: Notification)

  function RowsIn(entries: seq<Entry>): seq<Notification> {
    Map((e: Entry) => e.row, entries)
  }

  ghost predicate KeysMatch(entries: seq<Entry>) {
    forall i :: 0 <= i < |entries| ==> entries[i].key == entries[i].row.id
  }

  /** IndexMap::get */
  function Lookup(entries: seq<Entry>, key: Id): Option<Notification> {
    if entries == [] then None
    else if entries[0].key == key then Some(entries[0].row)
    else Lookup(entries[1..], key)
  }

  /** IndexMap::shift_remove: later slots close the gap. */
  function ShiftRemove(entries: seq<Entry>, key: Id): seq<Entry> {
    Filter((e: Entry) => e.key != key, entries)
  }

  /** IndexMap::insert: a known key keeps its slot, a new one goes last. */
  function InsertSlot(entries: seq<Entry>, key: Id, row: Notification): seq<Entry> {
    if entries == [] then [Entry(key, row)]
    else if entries[0].key == key then [Entry(key, row)] + entries[1..]
    else [entries[0]] + InsertSlot(entries[1..], key, row)
  }

  lemma {:induction false} LookupIsFind(entries: seq<Entry>, key: Id)
    requires KeysMatch(entries)
    ensures Lookup(entries, key) == Find(RowsIn(entries), key)
  {
    if entries != [] {
      LookupIsFind(entries[1..], key);
      assert RowsIn(entries)[1..] == RowsIn(entries[1..]);
    }
  }

  lemma {:induction false} ShiftRemoveIsWithout(entries: seq<Entry>, key: Id)
    requires KeysMatch(entries)
    ensures KeysMatch(ShiftRemove(entries, key))
    ensures RowsIn(ShiftRemove(entries, key)) == Without(RowsIn(entries), key)
  {
    if entries != [] {
      ShiftRemoveIsWithout(entries[1..], key);
      assert RowsIn(entries)[1..] == RowsIn(entries[1..]);
    }
  }

  lemma {:induction false} InsertSlotAppends(entries: seq<Entry>, key: Id, row: Notification)
    requires KeysMatch(entries) && key == row.id && key !in IdSet(RowsIn(entries))
    ensures KeysMatch(InsertSlot(entries, key, row))
    ensures RowsIn(InsertSlot(entries, key, row)) == RowsIn(entries) + [row]
  {
    if entries != [] {
      assert RowsIn(entries)[0] in RowsIn(entries);
      var rest := InsertSlot(entries[1..], key, row);
      assert RowsIn(entries)[1..] == RowsIn(entries[1..]);
      InsertSlotAppends(entries[1..], key, row);
      assert InsertSlot(entries, key, row) == [entries[0]] + rest;
      assert RowsIn([entries[0]] + rest) == [entries[0].row] + RowsIn(rest);
      assert RowsIn(entries) == [entries[0].row] + RowsIn(entries[1..]);
    }
  }

  class NotificationStore {
    const limits: Limits
    var nextId: Id
    var active: seq<Entry>
    const history: HistoryStore
    var expirations: map<Id, Instant>
    var dndEnabled: bool
    var dndRevision: nat

    ghost predicate Linked()
      reads this, history
    {
      history.Valid() && KeysMatch(active)
    }

    ghost function View(): StoreState
      requires Linked()
      reads this, history
    {
      StoreState(RowsIn(active), history.Rows(), expirations, nextId)
    }

    ghost predicate Valid()
      reads this, history
    {
      Linked() && Good(limits, View())
    }

    ghost function Switch(): Dnd.Switch
      reads this
    {
      Dnd.Switch(dndEnabled, dndRevision)
    }

    constructor (limits: Limits, dndDefault: bool)
      ensures Valid() && fresh(history)
      ensures View() == EMPTY_STORE && this.limits == limits
      ensures Switch() == Dnd.Switch(dndDefault, 0)
    {
      this.limits := limits;
      nextId := 1;
      active := [];
      history := new HistoryStore();
      expirations := map[];
      dndEnabled, dndRevision := dndDefault, 0;
      new;
      RunKeepsGood(limits, []);
    }

    lemma HeldMeans(id: Id)
      requires Linked()
      ensures id in Held(View()) <==> Lookup(active, id).Some? || id in history.entries
    {
      LookupIsFind(active, id);
      FindMeans(RowsIn(active), id);
      RowsHaveOrderedIds(history.entries, history.order);
    }

    lemma UsedIsHeld()
      requires Linked() && Shaped(View())
      ensures |active| + |history.entries| == |Held(View())|
    {
      HeldSize(View());
      RowsHaveOrderedIds(history.entries, history.order);
    }

    /** The search loop: walks past held ids for one look more than there are held ids. */
    static method FirstFree(active: seq<Entry>, archived: map<Id, Notification>, start: Id, ghost held: set<Id>)
      returns (free: Option<Id>)
      requires forall id :: id in held <==> Lookup(active, id).Some? || id in archived
      requires |active| + |archived| == |held|
      ensures free == Search(start, held, |held| + 1)
    {
      var candidate := start;
      var used := |active| + |archived|;
      for attempt := 0 to used + 1
        invariant Search(start, held, |held| + 1) == Search(candidate, held, used + 1 - attempt)
      {
        if Lookup(active, candidate).None? && candidate !in archived {
          return Some(candidate);
        }
        candidate := Bump(candidate);
      }
      return None;
    }

    /** Moves the cursor past the id it hands out, or past its start when every id is held. */
    method NextId() returns (id: Id)
      requires Linked() && Shaped(View())
      modifies this`nextId
      ensures Linked() && View() == old(View()).(nextId := nextId)
      ensures Grant(id, nextId) == Allocate(old(nextId), Held(old(View())))
    {
      ghost var held := Held(View());
      UsedIsHeld();
      forall c: Id
        ensures c in held <==> Lookup(active, c).Some? || c in history.entries
      {
        HeldMeans(c);
      }
      var start: Id := Start(nextId);
      var free := FirstFree(active, history.entries, start, held);
      match free {
        case Some(candidate) =>
          id := candidate;
          nextId := Bump(candidate);
        case None =>
          id := start;
          nextId := Bump(start);
      }
    }

    method CanReplaceForSender(id: Id, n: Notification) returns (can: bool)
      requires Linked()
      ensures can == CanReplace(View(), id, n)
    {
      LookupIsFind(active, id);
      RowsLookup(history.entries, history.order, id);
      if Lookup(active, id).Some? {
        can := OwnedBy(Lookup(active, id).value, n.senderName, n.senderPid, n.senderStartTime);
      } else if id in history.entries {
        can := OwnedBy(history.entries[id], n.senderName, n.senderPid, n.senderStartTime);
      } else {
        can := false;
      }
    }

    /** One closed row meets the archive policy. */
    method PushHistory(n: Notification, reason: CloseReason)
      requires history.Valid() && |history.Rows()| <= limits.maxEntries
      requires n.id !in IdSet(history.Rows())
      modifies history
      ensures history.Valid()
      ensures history.Rows() == Archive(limits, old(history.Rows()), [n], reason)
    {
      ArchiveOne(limits, history.Rows(), n, reason);
      if limits.maxEntries == 0 {
        history.Clear();
        return;
      }
      if !ShouldArchive(reason, n.isTransient, limits.transientToHistory) {
        return;
      }
      WithoutAbsent(history.Rows(), n.id);
      history.Insert(ToHistory(n));
      history.EvictToLimit(limits.maxEntries);
    }

    /** Removes and archives the oldest live row. */
    method EvictOldest() returns (id: Id)
      requires Linked() && active != []
      requires |history.Rows()| <= limits.maxEntries
      requires active[0].key !in IdSet(history.Rows())
      modifies this`active, this`expirations, history
      ensures Linked() && active == old(active)[1..] && id == old(active)[0].key
      ensures expirations == old(expirations) - {id}
      ensures history.Rows() == Archive(limits, old(history.Rows()), [old(active)[0].row], Undefined)
    {
      var oldest := active[0];
      active := active[1..];
      expirations := expirations - {oldest.key};
      PushHistory(oldest.row, Undefined);
      id := oldest.key;
    }

    /** One turn of the eviction loops. */
    method EvictNext(ghost was: StoreState, ghost slots: seq<Entry>, evicted: seq<Id>) returns (more: seq<Id>)
      requires EvictedSoFar(was, slots, evicted) && active != []
      modifies this`active, this`expirations, history
      ensures EvictedSoFar(was, slots, more) && |more| == |evicted| + 1 && |active| == |old(active)| - 1
    {
      hide Archive, Shaped, KeysMatch, RowsIn, Ids, IdsOf;
      EvictionStep(was, slots, |evicted|);
      var id := EvictOldest();
      more := evicted + [id];
    }

    /** Evicts one row at a time, which adds up to moving the oldest prefix into the archive. */
    method EnforceActiveLimit() returns (evicted: seq<Id>)
      requires Linked() && Shaped(View()) && |history.Rows()| <= limits.maxEntries
      modifies this`active, this`expirations, history
      ensures Linked()
      ensures var rows := RowsIn(old(active));
              var over := Overflow(limits, rows);
              && RowsIn(active) == rows[over..]
              && evicted == Ids(rows[..over])
              && expirations == old(expirations) - IdsOf(rows[..over])
              && history.Rows() == Archive(limits, old(history.Rows()), rows[..over], Undefined)
    {
      hide Archive, Shaped, KeysMatch, RowsIn, Ids, IdsOf;
      ghost var was := View();
      ghost var slots := active;
      EvictionBegins(was, slots);
      var maxActive := limits.Cap();
      evicted := [];
      if maxActive == 0 {
        while active != []
          invariant EvictedSoFar(was, slots, evicted)
          decreases |active|
        {
          evicted := EvictNext(was, slots, evicted);
        }
      } else {
        while |active| > maxActive
          invariant EvictedSoFar(was, slots, evicted)
          invariant |evicted| > 0 ==> |active| >= maxActive
          decreases |active|
        {
          evicted := EvictNext(was, slots, evicted);
        }
      }
    }

    /** The first rows of `was` have left, in order, and nothing else changed. */
    ghost predicate EvictedSoFar(was: StoreState, slots: seq<Entry>, evicted: seq<Id>)
      reads this, history
    {
      && Linked() && Shaped(was) && was.active == RowsIn(slots) && KeysMatch(slots)
      && |was.history| <= limits.maxEntries
      && |evicted| <= |slots| && active == slots[|evicted|..]
      && evicted == Ids(was.active[..|evicted|])
      && expirations == was.expirations - IdsOf(was.active[..|evicted|])
      && history.Rows() == Archive(limits, was.history, was.active[..|evicted|], Undefined)
    }

    lemma EvictionBegins(was: StoreState, slots: seq<Entry>)
      requires was.active == RowsIn(slots)
      ensures Ids(was.active[..0]) == [] && IdsOf(was.active[..0]) == {}
      ensures was.expirations - {} == was.expirations
      ensures Archive(limits, was.history, was.active[..0], Undefined) == was.history
      ensures |was.active| == |slots|
      ensures forall k :: 0 <= k <= |slots| ==> RowsIn(slots[k..]) == was.active[k..]
    {
    }

    lemma EvictionStep(was: StoreState, slots: seq<Entry>, k: nat)
      requires Shaped(was) && was.active == RowsIn(slots) && KeysMatch(slots)
      requires |was.history| <= limits.maxEntries && k < |slots|
      ensures var h := Archive(limits, was.history, was.active[..k], Undefined);
              && |h| <= limits.maxEntries
              && slots[k].key !in IdSet(h)
              && Archive(limits, h, [slots[k].row], Undefined)
                 == Archive(limits, was.history, was.active[..k + 1], Undefined)
      ensures Ids(was.active[..k + 1]) == Ids(was.active[..k]) + [slots[k].key]
      ensures IdsOf(was.active[..k + 1]) == IdsOf(was.active[..k]) + {slots[k].key}
      ensures slots[k..][1..] == slots[k + 1..]
    {
      var rows := was.active;
      assert rows[..k + 1] == rows[..k] + [rows[k]];
      SplitIds(rows, k);
      assert rows[k..][0] == rows[k];
      ArchiveKeepsShape(limits, was.history, rows[..k], Undefined);
      ArchiveInSteps(limits, was.history, rows[..k], [rows[k]], Undefined);
      assert rows[k] in rows;
    }

    method Insert(n: Notification, replacesId: Id, dropAll: bool) returns (outcome: InsertOutcome)
      requires Valid()
      modifies this`nextId, this`active, this`expirations, history
      ensures Valid()
      ensures (View(), outcome) == StoreModel.Insert(limits, old(View()), n, replacesId, dropAll)
    {
      ghost var was := View();
      InsertKeepsGood(limits, was, n, replacesId, dropAll);
      if dropAll {
        var id := NextId();
        return InsertOutcome(n.(id := id), false, [], true);
      }
      var replaced := replacesId != 0;
      if replaced {
        replaced := CanReplaceForSender(replacesId, n);
      }
      var rowId := replacesId;
      if !replaced {
        rowId := NextId();
      }
      var row := n.(id := rowId);
      assert Good(limits, was.(nextId := nextId));
      var evicted := AdmitRow(row);
      outcome := InsertOutcome(row, replaced, evicted, false);
    }

    /** Stores a row whose id is settled and enforces the cap. */
    method AdmitRow(row: Notification) returns (evicted: seq<Id>)
      requires Valid() && row.id >= 1
      modifies this`active, this`expirations, history
      ensures Linked() && View() == Admit(limits, old(View()), row)
      ensures var rows := Without(old(View()).active, row.id) + [row];
              evicted == Ids(rows[..Overflow(limits, rows)])
    {
      ghost var was := View();
      DropCopies(row.id);
      AbsentAfterDrop(was, row.id);
      InsertSlotAppends(active, row.id, row);
      active := InsertSlot(active, row.id, row);
      ReadyToEnforce(limits, was, row);
      evicted := EnforceActiveLimit();
      AdmitBySteps(limits, was, row, View());
    }

    /** Removes every trace of an id before its fresh row goes in. */
    method DropCopies(id: Id)
      requires Linked()
      modifies this`active, this`expirations, history
      ensures Linked()
      ensures View() == StoreState(
        Without(old(View()).active, id), Without(old(View()).history, id),
        old(expirations) - {id}, nextId)
    {
      ShiftRemoveIsWithout(active, id);
      active := ShiftRemove(active, id);
      var _ := history.Remove(id);
      expirations := expirations - {id};
    }

    method Close(id: Id, reason: CloseReason) returns (removed: Option<Notification>)
      requires Valid()
      modifies this`active, this`expirations, history
      ensures Valid()
      ensures View() == StoreModel.Close(limits, old(View()), id, reason)
      ensures removed == Find(old(View()).active, id)
    {
      CloseKeepsGood(limits, View(), id, reason);
      LookupIsFind(active, id);
      FindMeans(RowsIn(active), id);
      WithoutMeans(RowsIn(active), id);
      removed := Lookup(active, id);
      if removed.None? {
        WithoutAbsent(RowsIn(active), id);
      }
      ShiftRemoveIsWithout(active, id);
      active := ShiftRemove(active, id);
      expirations := expirations - {id};
      if removed.Some? {
        PushHistory(removed.value, reason);
      }
    }

    method DismissFromPanel(id: Id) returns (outcome: DismissOutcome)
      requires Valid()
      modifies this`active, this`expirations, history
      ensures Valid()
      ensures View() == Dismiss(old(View()), id)
      ensures outcome.removedActive <==> id in IdSet(old(View()).active)
      ensures outcome.removedHistory <==> id in IdSet(old(View()).history)
    {
      DismissKeepsGood(limits, View(), id);
      LookupIsFind(active, id);
      FindMeans(RowsIn(active), id);
      ShiftRemoveIsWithout(active, id);
      var removedActive := Lookup(active, id).Some?;
      active := ShiftRemove(active, id);
      if removedActive {
        expirations := expirations - {id};
      }
      var removed := history.Remove(id);
      outcome := DismissOutcome(removedActive, removed.Some?);
    }

    /** Empties the live queue; the ids come back newest first. */
    method DrainActiveIds() returns (ids: seq<Id>)
      requires Valid()
      modifies this`active, this`expirations
      ensures Valid()
      ensures View() == old(View()).(active := [], expirations := map[])
      ensures ids == Reverse(Ids(old(View()).active)) && |ids| == |old(View()).active|
      ensures forall i :: 0 <= i < |ids| ==> ids[i] == old(View()).active[|ids| - 1 - i].id
    {
      MirrorsAll(Ids(View().active));
      ids := Reverse(Map((e: Entry) => e.key, active));
      assert Map((e: Entry) => e.key, active) == Ids(RowsIn(active));
      active := [];
      expirations := map[];
      assert IdSet(RowsIn(active)) == {};
    }

    method SetExpiration(id: Id, deadline: Option<Instant>)
      requires Valid()
      modifies this`expirations
      ensures Valid()
      ensures View() == StoreModel.SetExpiration(old(View()), id, deadline)
    {
      match deadline {
        case Some(at) => expirations := expirations[id := at];
        case None => expirations := expirations - {id};
      }
    }

    method ClearHistory()
      requires Valid()
      modifies history
      ensures Valid() && View() == old(View()).(history := [])
    {
      history.Clear();
      assert IdSet(history.Rows()) == {};
    }

    /** Newest first, for the panel. */
    method ListActive() returns (rows: seq<Notification>)
      requires Linked()
      ensures rows == Reverse(View().active) && |rows| == |View().active|
      ensures forall i :: 0 <= i < |rows| ==> rows[i] == View().active[|rows| - 1 - i]
    {
      MirrorsAll(View().active);
      rows := Reverse(RowsIn(active));
    }

    method ListHistory() returns (rows: seq<Notification>)
      requires Linked()
      ensures rows == Reverse(View().history) && |rows| == |View().history|
      ensures forall i :: 0 <= i < |rows| ==> rows[i] == View().history[|rows| - 1 - i]
    {
      MirrorsAll(View().history);
      rows := history.ListViews();
    }

    method SetDnd(enabled: bool) returns (write: Dnd.DndWrite)
      modifies this`dndEnabled, this`dndRevision
      ensures (Switch(), write) == Dnd.Write(old(Switch()), enabled)
    {
      var previous := dndEnabled;
      if previous == enabled {
        return Dnd.DndWrite(false, previous, previous, dndRevision);
      }
      dndEnabled := enabled;
      if dndRevision < Dnd.U64_MAX {
        dndRevision := dndRevision + 1;
      }
      write := Dnd.DndWrite(true, previous, enabled, dndRevision);
    }

    method ToggleDnd() returns (write: Dnd.DndWrite)
      modifies this`dndEnabled, this`dndRevision
      ensures (Switch(), write) == Dnd.Write(old(Switch()), !old(dndEnabled))
    {
      write := SetDnd(!dndEnabled);
    }

    method RollbackDndWriteIfCurrent(write: Dnd.DndWrite) returns (undone: bool)
      modifies this`dndEnabled, this`dndRevision
      ensures (Switch(), undone) == Dnd.Rollback(old(Switch()), write)
    {
      if !write.changed {
        return false;
      }
      if dndRevision != write.revision || dndEnabled != write.current {
        return false;
      }
      dndEnabled := write.previous;
      if dndRevision < Dnd.U64_MAX {
        dndRevision := dndRevision + 1;
      }
      return true;
    }
  }

  lemma ArchiveOne(l: Limits, history: seq<Notification>, n: Notification, reason: CloseReason)
    requires |history| <= l.maxEntries
    ensures l.maxEntries > 0 ==>
              Archive(l, history, [n], reason) ==
              if ShouldArchive(reason, n.isTransient, l.transientToHistory)
              then Suffix(history + [ToHistory(n)], l.maxEntries) else history
  {
    var keep := (m: Notification) => ShouldArchive(reason, m.isTransient, l.transientToHistory);
    assert Filter(keep, [n]) == if keep(n) then [n] else [];
    if !keep(n) {
      assert Archivable(l, [n], reason) == [];
      assert history + [] == history;
    } else {
      assert Archivable(l, [n], reason) == [ToHistory(n)];
    }
  }

  lemma {:induction false} RowsLookup(entries: map<Id, Notification>, order: seq<Id>, id: Id)
    requires Ordered(entries, order)
    ensures Find(RowsOf(entries, order), id) == if id in entries then Some(entries[id]) else None
  {
    var rows := RowsOf(entries, order);
    RowsHaveOrderedIds(entries, order);
    FindMeans(rows, id);
  }

  lemma AbsentAfterDrop(s: StoreState, id: Id)
    ensures id !in IdSet(Without(s.active, id)) && id !in IdSet(Without(s.history, id))
  {
    WithoutMeans(s.active, id);
    WithoutMeans(s.history, id);
  }

  /** The state right before the cap is enforced is well shaped. */
  lemma ReadyToEnforce(l: Limits, s: StoreState, row: Notification)
    requires Good(l, s) && row.id >= 1
    ensures Shaped(StoreState(Without(s.active, row.id) + [row], Without(s.history, row.id),
                              s.expirations - {row.id}, s.nextId))
    ensures |Without(s.history, row.id)| <= l.maxEntries
  {
    WithoutMeans(s.active, row.id);
    WithoutMeans(s.history, row.id);
    WithoutDistinct(s.active, row.id);
    WithoutDistinct(s.history, row.id);
  }

  /** Dropping old copies, appending and enforcing the cap is admission. */
  lemma AdmitBySteps(l: Limits, s: StoreState, row: Notification, after: StoreState)
    requires var rows := Without(s.active, row.id) + [row];
             var over := Overflow(l, rows);
             && after.active == rows[over..]
             && after.history == Archive(l, Without(s.history, row.id), rows[..over], Undefined)
             && after.expirations == s.expirations - {row.id} - IdsOf(rows[..over])
             && after.nextId == s.nextId
    ensures after == Admit(l, s, row)
  {
  }
}
