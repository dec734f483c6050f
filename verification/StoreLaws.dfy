/**
 What the store promises, in terms of the fields of rows and limits alone: who may replace a row,
 which rows stay live, and which rows reach the archive in what form.
 */
module StoreLaws {
  import opened Support
  import opened IdAllocation
  import opened Notifications
  import opened StoreModel
  import opened ExpirationModel

  // ---------------------------------------------------------------------------------------------
  // Ownership
  // ---------------------------------------------------------------------------------------------

  /** Some row, live or archived, carries this id and comes from the bus name or the process of `n`. */
  ghost predicate OwnRowHas(s: StoreState, id: Id, n: Notification) {
    exists row :: (row in s.active || row in s.history) && row.id == id && SameSender(row, n)
  }

  /** The same bus name, or the same pid with the same start time; nothing unknown matches. */
  predicate SameSender(row: Notification, n: Notification) {
    || (row.senderName.Some? && n.senderName.Some? && row.senderName.value == n.senderName.value)
    || (row.senderPid.Some? && n.senderPid.Some? && row.senderPid.value == n.senderPid.value
        && row.senderStartTime.Some? && n.senderStartTime.Some?
        && row.senderStartTime.value == n.senderStartTime.value)
  }

  lemma {:induction false} FindIsThe(rows: seq<Notification>, row: Notification)
    requires DistinctIds(rows) && row in rows
    ensures Find(rows, row.id) == Some(row)
  {
    if rows[0] != row {
      assert row in rows[1..];
      var i :| 0 <= i < |rows[1..]| && rows[1..][i] == row;
      assert rows[i + 1] == row && rows[0].id != rows[i + 1].id;
      FindIsThe(rows[1..], row);
    }
  }

  lemma OwnerIsThe(s: StoreState, row: Notification)
    requires Shaped(s) && (row in s.active || row in s.history)
    ensures Owner(s, row.id) == Some(row)
  {
    FindMeans(s.active, row.id);
    FindMeans(s.history, row.id);
    if row in s.active {
      FindIsThe(s.active, row);
    } else {
      assert row.id in IdSet(s.history);
      FindIsThe(s.history, row);
    }
  }

  lemma CanReplaceIff(s: StoreState, id: Id, n: Notification)
    requires Shaped(s)
    ensures CanReplace(s, id, n) <==> OwnRowHas(s, id, n)
  {
    FindMeans(s.active, id);
    FindMeans(s.history, id);
    if row :| (row in s.active || row in s.history) && row.id == id && SameSender(row, n) {
      OwnerIsThe(s, row);
    }
  }

  /**
   A replacement happens exactly when the requested id is that of a row of the same bus name or of
   the same process lifetime; the new row then takes that id.
   */
  lemma ReplacesIff(l: Limits, s: StoreState, n: Notification, replacesId: Id)
    requires Good(l, s)
    ensures var outcome := Insert(l, s, n, replacesId, false).1;
            && (outcome.replaced <==> replacesId != 0 && OwnRowHas(s, replacesId, n))
            && (outcome.replaced ==> outcome.notification.id == replacesId)
            && outcome.notification == n.(id := outcome.notification.id)
  {
    CanReplaceIff(s, replacesId, n);
  }

  /**
   In every reachable store with a free id, an insertion gets an id that is in use only if it asked
   for it, and the row that has it comes from the same bus name or process lifetime.
   */
  lemma UsedIdIsOwned(l: Limits, ops: seq<Op>, n: Notification, replacesId: Id, dropAll: bool)
    requires |Held(StoreModel.After(l, ops))| < CYCLE
    ensures var s := StoreModel.After(l, ops);
            var id := Insert(l, s, n, replacesId, dropAll).1.notification.id;
            id in Held(s) ==> !dropAll && id == replacesId != 0 && OwnRowHas(s, id, n)
  {
    var s := StoreModel.After(l, ops);
    RunKeepsGood(l, ops);
    InsertRespectsOwners(l, s, n, replacesId, dropAll);
    ReplacesIff(l, s, n, replacesId);
  }

  // ---------------------------------------------------------------------------------------------
  // Live rows
  // ---------------------------------------------------------------------------------------------

  function LiveLimit(l: Limits): nat {
    if l.maxActive < 12 then l.maxActive else 12
  }

  /** The rows with another id, in order. */
  function Others(rows: seq<Notification>, id: Id): seq<Notification> {
    Filter((row: Notification) => row.id != id, rows)
  }

  lemma OverflowIsRest(l: Limits, rows: seq<Notification>)
    ensures rows[Overflow(l, rows)..] == Suffix(rows, LiveLimit(l))
    ensures Overflow(l, rows) == if |rows| > LiveLimit(l) then |rows| - LiveLimit(l) else 0
  {
  }

  /** The new row joins at the end, and the newest rows up to the limit stay live. */
  lemma InsertKeepsNewestLive(l: Limits, s: StoreState, n: Notification, replacesId: Id)
    ensures var (after, outcome) := Insert(l, s, n, replacesId, false);
            var row := outcome.notification;
            && after.active == Suffix(Others(s.active, row.id) + [row], LiveLimit(l))
            && (LiveLimit(l) > 0 ==> after.active != [] && after.active[|after.active| - 1] == row)
  {
    var row := Insert(l, s, n, replacesId, false).1.notification;
    var rows := Others(s.active, row.id) + [row];
    assert Without(s.active, row.id) == Others(s.active, row.id);
    OverflowIsRest(l, rows);
  }

  // ---------------------------------------------------------------------------------------------
  // The archive
  // ---------------------------------------------------------------------------------------------

  /** What the archive keeps of a row: everything but the raw hints and the image. */
  function Stripped(row: Notification): Notification {
    Notification(row.id, row.isTransient, row.senderName, row.senderPid, row.senderStartTime, row.text, map[], [])
  }

  predicate MayBeKept(l: Limits, row: Notification) {
    !row.isTransient || l.transientToHistory
  }

  /** The rows that may be kept, in order and stripped. */
  function Keepable(l: Limits, rows: seq<Notification>): seq<Notification> {
    if rows == [] then []
    else Keepable(l, rows[..|rows| - 1]) + if MayBeKept(l, rows[|rows| - 1]) then [Stripped(rows[|rows| - 1])] else []
  }

  lemma {:induction false} ArchivableIsKeepable(l: Limits, rows: seq<Notification>, reason: CloseReason)
    requires reason != DismissedByUser
    ensures Archivable(l, rows, reason) == Keepable(l, rows)
  {
    var keep := (n: Notification) => ShouldArchive(reason, n.isTransient, l.transientToHistory);
    if rows != [] {
      var before, last := rows[..|rows| - 1], rows[|rows| - 1];
      assert rows == before + [last];
      ArchivableIsKeepable(l, before, reason);
      FilterConcat(keep, before, [last]);
      assert Filter(keep, [last]) == if keep(last) then [last] else [];
      assert Archivable(l, rows, reason)
          == Archivable(l, before, reason) + if keep(last) then [ToHistory(last)] else [];
    }
  }

  /** Archiving rows that were closed for any reason but a dismissal keeps the newest that may be kept. */
  lemma ArchiveKeepsNewest(l: Limits, history: seq<Notification>, closed: seq<Notification>, reason: CloseReason)
    requires reason != DismissedByUser && |history| <= l.maxEntries
    ensures Archive(l, history, closed, reason) == Suffix(history + Keepable(l, closed), l.maxEntries)
  {
    ArchivableIsKeepable(l, closed, reason);
    if closed == [] {
      assert history + [] == history;
    }
  }

  /** What the cap pushes out of the live queue goes to the archive, oldest first. */
  lemma InsertArchivesOverflow(l: Limits, s: StoreState, n: Notification, replacesId: Id)
    requires Good(l, s)
    ensures var (after, outcome) := Insert(l, s, n, replacesId, false);
            var row := outcome.notification;
            var rows := Others(s.active, row.id) + [row];
            var over := if |rows| > LiveLimit(l) then |rows| - LiveLimit(l) else 0;
            && after.history == Suffix(Others(s.history, row.id) + Keepable(l, rows[..over]), l.maxEntries)
            && outcome.evicted == Ids(rows[..over])
  {
    var row := Insert(l, s, n, replacesId, false).1.notification;
    assert Without(s.active, row.id) == Others(s.active, row.id);
    assert Without(s.history, row.id) == Others(s.history, row.id);
    var rows := Others(s.active, row.id) + [row];
    OverflowIsRest(l, rows);
    WithoutMeans(s.history, row.id);
    ArchiveKeepsNewest(l, Others(s.history, row.id), rows[..Overflow(l, rows)], Undefined);
  }

  /**
   Closing a live row makes it the newest archived row, stripped and otherwise unchanged, exactly
   when the user did not dismiss it and it may be kept; the archive then loses its oldest row if it
   was full. Otherwise the archive stays as it is.
   */
  lemma CloseArchives(l: Limits, s: StoreState, row: Notification, reason: CloseReason)
    requires Good(l, s) && row in s.active && l.maxEntries > 0
    ensures var after := StoreModel.Close(l, s, row.id, reason).history;
            if reason != DismissedByUser && (!row.isTransient || l.transientToHistory) then
              && after != [] && after[|after| - 1] == Stripped(row)
              && after[..|after| - 1] == if |s.history| < l.maxEntries then s.history else s.history[1..]
            else after == s.history
  {
    FindIsThe(s.active, row);
    hide Good, Find, Without;
    if reason != DismissedByUser {
      hide Archive, Suffix, Keepable;
      ArchiveKeepsNewest(l, s.history, [row], reason);
      OneKeepable(l, row);
      NewestJoins(s.history, Stripped(row), l.maxEntries);
    } else {
      DismissedIsNotArchived(l, s.history, row);
      hide Archive;
    }
  }

  lemma DismissedIsNotArchived(l: Limits, history: seq<Notification>, row: Notification)
    requires |history| <= l.maxEntries
    ensures Archive(l, history, [row], DismissedByUser) == history
  {
    FilterMembers((n: Notification) => ShouldArchive(DismissedByUser, n.isTransient, l.transientToHistory), [row]);
    assert Archivable(l, [row], DismissedByUser) == [];
    assert history + [] == history;
  }

  lemma OneKeepable(l: Limits, row: Notification)
    ensures Keepable(l, [row]) == if MayBeKept(l, row) then [Stripped(row)] else []
  {
    assert [row][..0] == [];
  }

  lemma NewestJoins<T>(s: seq<T>, x: T, n: nat)
    requires 0 < n && |s| <= n
    ensures Suffix(s + [x], n) == (if |s| < n then s else s[1..]) + [x]
    ensures Suffix(s + [], n) == s
  {
    assert s + [] == s;
  }

  /** A close takes out the row and its deadline, and nothing else that is live. */
  lemma CloseKeepsOthersLive(l: Limits, s: StoreState, id: Id, reason: CloseReason)
    ensures var after := StoreModel.Close(l, s, id, reason);
            && after.active == Others(s.active, id) && after.nextId == s.nextId
            && forall x :: (x in after.expirations <==> x in s.expirations && x != id)
                           && (x in after.expirations ==> after.expirations[x] == s.expirations[x])
  {
    FindMeans(s.active, id);
    if Find(s.active, id).None? {
      WithoutAbsent(s.active, id);
      assert Without(s.active, id) == Others(s.active, id);
    }
  }

  /** A dismissal takes the row out of both queues without archiving it. */
  lemma DismissKeepsOthers(s: StoreState, id: Id)
    ensures var after := Dismiss(s, id);
            && after.active == Others(s.active, id) && after.history == Others(s.history, id)
            && forall x :: x != id ==>
                 && (x in after.expirations <==> x in s.expirations)
                 && (x in s.expirations ==> after.expirations[x] == s.expirations[x])
    ensures (exists row :: row in s.active && row.id == id) ==> id !in Dismiss(s, id).expirations
  {
    FindMeans(s.active, id);
  }

  /** Clearing leaves no row and no deadline, and no timer once the channel is read. */
  lemma ClearLeavesNothing(l: Limits, s: System, s': System)
    requires ExpirationModel.Step(l, s, Cleared, s')
    ensures s'.store.active == [] && s'.store.history == [] && s'.store.expirations == map[]
    ensures forall row :: row in s.store.active ==> row.id !in Replay(s'.queue, s'.timers.scheduled)
  {
    forall row | row in s.store.active
      ensures row.id !in Replay(s'.queue, s'.timers.scheduled)
    {
      assert row.id in IdSet(s.store.active);
      GoneRowsAreForgotten(l, s, Cleared, s', row.id);
    }
  }

  /** A dropped notification gets an id and touches no row. */
  lemma DroppedTouchesNothing(l: Limits, s: StoreState, n: Notification, replacesId: Id)
    ensures var (after, outcome) := Insert(l, s, n, replacesId, true);
            && after.active == s.active && after.history == s.history && after.expirations == s.expirations
            && outcome.dropped && !outcome.replaced && outcome.evicted == []
  {
  }

  /** Every other close leaves the archive alone. */
  lemma CloseOfNoRow(l: Limits, s: StoreState, id: Id, reason: CloseReason)
    requires forall row :: row in s.active ==> row.id != id
    ensures StoreModel.Close(l, s, id, reason).history == s.history
    ensures StoreModel.Close(l, s, id, reason).active == s.active
  {
    FindMeans(s.active, id);
  }

  /** The live rows with these ids, in the order of the ids. */
  function RowsOf(s: StoreState, ids: seq<Id>): seq<Notification> {
    if ids == [] then []
    else
      var found := Find(s.active, ids[|ids| - 1]);
      RowsOf(s, ids[..|ids| - 1]) + if found.Some? then [found.value] else []
  }

  lemma KeepableSnoc(l: Limits, rows: seq<Notification>, row: Notification)
    ensures Keepable(l, rows + [row]) == Keepable(l, rows) + if MayBeKept(l, row) then [Stripped(row)] else []
  {
    assert (rows + [row])[..|rows|] == rows;
  }

  /** Expiring several rows leaves exactly the other live rows, in order. */
  lemma {:induction false} CloseAllKeepsOthers(l: Limits, s: System, ids: seq<Id>, id: Id)
    requires Good(l, s.store) && id !in ids
    ensures Good(l, CloseAll(l, s, ids).store)
    ensures Find(CloseAll(l, s, ids).store.active, id) == Find(s.store.active, id)
  {
    if ids != [] {
      var before, last := ids[..|ids| - 1], ids[|ids| - 1];
      assert last in ids && forall x :: x in before ==> x in ids;
      CloseAllKeepsOthers(l, s, before, id);
      var mid := CloseAll(l, s, before).store;
      CloseKeepsGood(l, mid, last, Expired);
      FindInOthers(mid.active, last, id);
    }
  }

  lemma {:induction false} FindInOthers(rows: seq<Notification>, gone: Id, id: Id)
    requires gone != id
    ensures Find(Without(rows, gone), id) == Find(rows, id)
  {
    if rows != [] {
      FindInOthers(rows[1..], gone, id);
      if rows[0].id != gone {
        assert ([rows[0]] + Without(rows[1..], gone))[1..] == Without(rows[1..], gone);
        assert Without(rows, gone) == [rows[0]] + Without(rows[1..], gone);
      } else {
        assert Without(rows, gone) == [] + Without(rows[1..], gone) == Without(rows[1..], gone);
      }
    }
  }

  lemma {:induction false} CloseAllGood(l: Limits, s: System, ids: seq<Id>)
    requires Good(l, s.store)
    ensures Good(l, CloseAll(l, s, ids).store)
  {
    if ids != [] {
      CloseAllGood(l, s, ids[..|ids| - 1]);
      CloseKeepsGood(l, CloseAll(l, s, ids[..|ids| - 1]).store, ids[|ids| - 1], Expired);
    }
  }

  /** Expired rows go to the archive in the order they expire. */
  lemma {:induction false} CloseAllArchives(l: Limits, s: System, ids: seq<Id>)
    requires Good(l, s.store) && Distinct(ids)
    ensures CloseAll(l, s, ids).store.history
         == Suffix(s.store.history + Keepable(l, RowsOf(s.store, ids)), l.maxEntries)
  {
    if ids == [] {
      assert s.store.history + [] == s.store.history;
    } else {
      hide Good, Archive;
      var before, last := ids[..|ids| - 1], ids[|ids| - 1];
      assert last !in before;
      assert ids == before + [last];
      CloseAllArchives(l, s, before);
      CloseAllGood(l, s, before);
      CloseAllKeepsOthers(l, s, before, last);
      var mid := CloseAll(l, s, before).store;
      var found := Find(s.store.active, last);
      ExpiryArchives(l, mid, last);
      var kept := Keepable(l, RowsOf(s.store, before));
      if found.Some? {
        KeepableSnoc(l, RowsOf(s.store, before), found.value);
        var added := if MayBeKept(l, found.value) then [Stripped(found.value)] else [];
        SuffixAbsorbs(s.store.history + kept, added, l.maxEntries);
        ConcatAssociates(s.store.history, kept, added);
      } else {
        assert RowsOf(s.store, ids) == RowsOf(s.store, before) + [] == RowsOf(s.store, before);
      }
    }
  }

  lemma ExpiryArchives(l: Limits, s: StoreState, id: Id)
    requires Good(l, s)
    ensures var found := Find(s.active, id);
            StoreModel.Close(l, s, id, Expired).history ==
              if found.None? then s.history
              else Suffix(s.history + if MayBeKept(l, found.value) then [Stripped(found.value)] else [], l.maxEntries)
  {
    hide Archive, Find, Without, Suffix;
    var found := Find(s.active, id);
    if found.Some? {
      ArchiveKeepsNewest(l, s.history, [found.value], Expired);
      KeepableSnoc(l, [], found.value);
      assert [] + [found.value] == [found.value] && Keepable(l, []) == [];
      assert Keepable(l, [found.value]) == if MayBeKept(l, found.value) then [Stripped(found.value)] else [];
    }
  }

  /**
   After a timer pass the archive holds the newest of what it held and of what the pass fired:
   stripped rows, in the order they fired, transient ones only when they are allowed.
   */
  lemma PassArchives(l: Limits, states: seq<System>, events: seq<Event>, i: nat)
    requires ExpirationModel.IsRun(l, states, events) && i < |events| && events[i].Passed?
    ensures states[i + 1].store.history
         == Suffix(states[i].store.history + Keepable(l, RowsOf(states[i].store, events[i].fired)), l.maxEntries)
  {
    RunKeepsTimers(l, states, events, i);
    assert ExpirationModel.Step(l, states[i], events[i], states[i + 1]);
    CloseAllArchives(l, states[i], events[i].fired);
  }

  /** One fired row: it is in the archive exactly when fewer rows than fit were kept after it. */
  lemma FiredRowIsArchivedIff(l: Limits, states: seq<System>, events: seq<Event>, i: nat, k: nat, row: Notification)
    requires ExpirationModel.IsRun(l, states, events) && i < |events| && events[i].Passed?
    requires k < |events[i].fired| && row in states[i].store.active && row.id == events[i].fired[k]
    ensures Stripped(row) in states[i + 1].store.history <==>
              && (!row.isTransient || l.transientToHistory)
              && |Keepable(l, RowsOf(states[i].store, events[i].fired[k + 1..]))| < l.maxEntries
  {
    hide Keepable, RowsOf, Suffix;
    RunKeepsTimers(l, states, events, i);
    PassArchives(l, states, events, i);
    assert ExpirationModel.Step(l, states[i], events[i], states[i + 1]);
    var fired := events[i].fired;
    assert fired == fired[..k] + [row.id] + fired[k + 1..];
    assert row.id !in fired[..k] && row.id !in fired[k + 1..];
    OneOfFired(l, states[i].store, fired[..k], row, fired[k + 1..]);
  }

  lemma OneOfFired(l: Limits, s: StoreState, before: seq<Id>, row: Notification, after: seq<Id>)
    requires Good(l, s) && row in s.active && row.id !in before && row.id !in after
    ensures Stripped(row) in Suffix(s.history + Keepable(l, RowsOf(s, before + [row.id] + after)), l.maxEntries) <==>
              MayBeKept(l, row) && |Keepable(l, RowsOf(s, after))| < l.maxEntries
  {
    FindIsThe(s.active, row);
    NotArchivedYet(s, row);
    hide Good, Find, Suffix;
    RowsOfConcat(s, before + [row.id], after);
    RowsOfConcat(s, before, [row.id]);
    assert [row.id][..0] == [];
    assert RowsOf(s, [row.id]) == [row];
    KeepableConcat(l, RowsOf(s, before) + [row], RowsOf(s, after));
    KeepableSnoc(l, RowsOf(s, before), row);
    OtherIds(l, s, before, row.id);
    OtherIds(l, s, after, row.id);
    hide RowsOf, Keepable;
    var a, c := Keepable(l, RowsOf(s, before)), Keepable(l, RowsOf(s, after));
    var b := if MayBeKept(l, row) then [Stripped(row)] else [];
    ConcatAssociates(s.history, a + b, c);
    ConcatAssociates(s.history, a, b);
    NewestHas(s.history + a, b, c, Stripped(row), l.maxEntries);
  }

  lemma NotArchivedYet(s: StoreState, row: Notification)
    requires Shaped(s) && row in s.active
    ensures forall x :: x in s.history ==> x.id != row.id
  {
    assert row.id in IdSet(s.active);
    assert forall x :: x in s.history ==> x.id in IdSet(s.history);
  }

  /** Whether the middle element is among the last `n`. */
  lemma NewestHas<T>(a: seq<T>, b: seq<T>, c: seq<T>, x: T, n: nat)
    requires x !in a && x !in c && (b == [x] || b == [])
    ensures x in Suffix(a + b + c, n) <==> b == [x] && |c| < n
  {
    var all := a + b + c;
    if b == [x] && |c| < n {
      var r := Suffix(all, n);
      assert all[|a|] == x;
      assert r[|r| - 1 - |c|] == x;
    }
    if b == [x] && |c| >= n {
      assert forall j :: |a| < j < |all| ==> all[j] == c[j - |a| - 1];
    }
  }

  lemma {:induction false} RowsOfConcat(s: StoreState, a: seq<Id>, b: seq<Id>)
    ensures RowsOf(s, a + b) == RowsOf(s, a) + RowsOf(s, b)
  {
    if b == [] {
      assert a + b == a;
    } else {
      assert (a + b)[..|a + b| - 1] == a + b[..|b| - 1];
      RowsOfConcat(s, a, b[..|b| - 1]);
    }
  }

  lemma {:induction false} KeepableConcat(l: Limits, a: seq<Notification>, b: seq<Notification>)
    ensures Keepable(l, a + b) == Keepable(l, a) + Keepable(l, b)
  {
    if b == [] {
      assert a + b == a;
    } else {
      assert (a + b)[..|a + b| - 1] == a + b[..|b| - 1];
      KeepableConcat(l, a, b[..|b| - 1]);
    }
  }

  lemma {:induction false} OtherIds(l: Limits, s: StoreState, ids: seq<Id>, id: Id)
    requires id !in ids
    ensures forall x :: x in Keepable(l, RowsOf(s, ids)) ==> x.id != id
  {
    if ids != [] {
      var before, last := ids[..|ids| - 1], ids[|ids| - 1];
      assert last in ids && forall x :: x in before ==> x in ids;
      OtherIds(l, s, before, id);
      FindMeans(s.active, last);
      var found := Find(s.active, last);
      if found.Some? {
        KeepableSnoc(l, RowsOf(s, before), found.value);
      } else {
        assert RowsOf(s, ids) == RowsOf(s, before) + [] == RowsOf(s, before);
      }
    }
  }

  /** No archived row of any run carries hints or image bytes. */
  lemma {:induction false} ArchiveIsStripped(l: Limits, ops: seq<Op>)
    ensures forall row :: row in StoreModel.After(l, ops).history ==> row.hints == map[] && row.imageData == []
  {
    if ops != [] {
      var s, op := StoreModel.After(l, ops[..|ops| - 1]), ops[|ops| - 1];
      ArchiveIsStripped(l, ops[..|ops| - 1]);
      StepStaysStripped(l, s, op);
    }
  }

  ghost predicate AllStripped(rows: seq<Notification>) {
    forall row :: row in rows ==> row.hints == map[] && row.imageData == []
  }

  lemma ArchiveStaysStripped(l: Limits, history: seq<Notification>, closed: seq<Notification>, reason: CloseReason)
    requires AllStripped(history)
    ensures AllStripped(Archive(l, history, closed, reason))
  {
    var added := Archivable(l, closed, reason);
    forall row | row in added
      ensures row.hints == map[] && row.imageData == []
    {
      var i :| 0 <= i < |added| && added[i] == row;
      assert added[i] == ToHistory(Filter((n: Notification) =>
        ShouldArchive(reason, n.isTransient, l.transientToHistory), closed)[i]);
    }
    assert forall row :: row in Suffix(history + added, l.maxEntries) ==> row in history || row in added;
  }

  lemma StepStaysStripped(l: Limits, s: StoreState, op: Op)
    requires AllStripped(s.history)
    ensures AllStripped(StoreModel.Step(l, s, op).history)
  {
    hide Archive;
    match op
    case Notify(n, replacesId, dropAll, deadline) =>
      if !dropAll {
        var row := Insert(l, s, n, replacesId, false).1.notification;
        var rows := Without(s.active, row.id) + [row];
        WithoutMeans(s.history, row.id);
        ArchiveStaysStripped(l, Without(s.history, row.id), rows[..Overflow(l, rows)], Undefined);
      }
    case CloseOne(id, reason) =>
      var found := Find(s.active, id);
      if found.Some? {
        ArchiveStaysStripped(l, s.history, [found.value], reason);
      }
    case DismissOne(id) => WithoutMeans(s.history, id);
    case ClearEverything =>
  }
}
