/**
 The store as two queues: live rows and archived rows, oldest first, with the deadlines and the
 id cursor. This is the specification the store class is proved against, and the place where its
 joint invariants are proved.
 */
module StoreModel {
  import opened Support
  import opened IdAllocation
  import opened Notifications

  const ACTIVE_HARD_CAP: nat := 12

  datatype Limits = Limits(maxActive: nat, maxEntries: nat, transientToHistory: bool) {
    function Cap(): nat {
      if maxActive < ACTIVE_HARD_CAP then maxActive else ACTIVE_HARD_CAP
    }
  }

  datatype StoreState = StoreState(
    active: seq<Notification>,
    history: seq<Notification>,
    expirations: map<Id, Instant>,
    nextId: Id)

  datatype InsertOutcome = InsertOutcome(
    notification: Notification, replaced: bool, evicted: seq<Id>, dropped: bool)

  datatype DismissOutcome = DismissOutcome(removedActive: bool, removedHistory: bool)

  ghost function Held(s: StoreState): set<Id> {
    IdSet(s.active) + IdSet(s.history)
  }

  /** Closed rows entering the archive together: the policy filters them, the newest stay. */
  function Archive(l: Limits, history: seq<Notification>, closed: seq<Notification>, reason: CloseReason)
    : seq<Notification>
  {
    if closed == [] then history
    else if l.maxEntries == 0 then []
    else Suffix(history + Archivable(l, closed, reason), l.maxEntries)
  }

  function Archivable(l: Limits, closed: seq<Notification>, reason: CloseReason): seq<Notification> {
    Map(ToHistory, Filter((n: Notification) => ShouldArchive(reason, n.isTransient, l.transientToHistory), closed))
  }

  /** How many of the oldest rows the cap pushes out. */
  function Overflow(l: Limits, rows: seq<Notification>): (over: nat)
    ensures over <= |rows|
  {
    if |rows| <= l.Cap() then 0 else |rows| - l.Cap()
  }

  function Owner(s: StoreState, id: Id): Option<Notification> {
    if Find(s.active, id).Some? then Find(s.active, id) else Find(s.history, id)
  }

  predicate CanReplace(s: StoreState, id: Id, n: Notification) {
    && Owner(s, id).Some?
    && OwnedBy(Owner(s, id).value, n.senderName, n.senderPid, n.senderStartTime)
  }

  // ---------------------------------------------------------------------------------------------
  // Operations
  // ---------------------------------------------------------------------------------------------

  /** A row whose id is settled joins the live queue; the oldest prefix overflows into history. */
  function Admit(l: Limits, s: StoreState, row: Notification): StoreState {
    var rows := Without(s.active, row.id) + [row];
    var over := Overflow(l, rows);
    StoreState(
      rows[over..],
      Archive(l, Without(s.history, row.id), rows[..over], Undefined),
      s.expirations - ({row.id} + IdsOf(rows[..over])),
      s.nextId)
  }

  function IdsOf(rows: seq<Notification>): set<Id> {
    set i | 0 <= i < |rows| :: rows[i].id
  }

  ghost function Insert(l: Limits, s: StoreState, n: Notification, replacesId: Id, dropAll: bool)
    : (StoreState, InsertOutcome)
  {
    var free := Allocate(s.nextId, Held(s));
    if dropAll then
      (s.(nextId := free.next), InsertOutcome(n.(id := free.id), false, [], true))
    else
      var replaced := replacesId != 0 && CanReplace(s, replacesId, n);
      var grant := if replaced then Grant(replacesId, s.nextId) else free;
      var row := n.(id := grant.id);
      var rows := Without(s.active, row.id) + [row];
      (Admit(l, s.(nextId := grant.next), row),
       InsertOutcome(row, replaced, Ids(rows[..Overflow(l, rows)]), false))
  }

  function SetExpiration(s: StoreState, id: Id, deadline: Option<Instant>): StoreState {
    match deadline
    case Some(at) => s.(expirations := s.expirations[id := at])
    case None => s.(expirations := s.expirations - {id})
  }

  function Close(l: Limits, s: StoreState, id: Id, reason: CloseReason): StoreState {
    match Find(s.active, id)
    case None => s.(expirations := s.expirations - {id})
    case Some(row) =>
      StoreState(Without(s.active, id), Archive(l, s.history, [row], reason), s.expirations - {id}, s.nextId)
  }

  function Dismiss(s: StoreState, id: Id): StoreState {
    StoreState(
      Without(s.active, id),
      Without(s.history, id),
      if Find(s.active, id).Some? then s.expirations - {id} else s.expirations,
      s.nextId)
  }

  function ClearAll(s: StoreState): StoreState {
    StoreState([], [], map[], s.nextId)
  }

  // ---------------------------------------------------------------------------------------------
  // The joint invariant
  // ---------------------------------------------------------------------------------------------

  /** Ids are nonzero and no id occurs twice, within a queue or across the two. */
  ghost predicate Shaped(s: StoreState) {
    && DistinctIds(s.active) && DistinctIds(s.history)
    && IdSet(s.active) !! IdSet(s.history)
    && 0 !in Held(s)
    && s.nextId >= 1
  }

  ghost predicate Good(l: Limits, s: StoreState) {
    && Shaped(s)
    && |s.active| <= l.Cap()
    && |s.history| <= l.maxEntries
  }

  /** Every pending deadline belongs to a live row. */
  ghost predicate TimersLive(s: StoreState) {
    s.expirations.Keys <= IdSet(s.active)
  }

  lemma IdsOfIsIdSet(rows: seq<Notification>)
    ensures IdsOf(rows) == IdSet(rows)
  {
  }

  lemma HeldSize(s: StoreState)
    requires Shaped(s)
    ensures |Held(s)| == |s.active| + |s.history|
  {
    IdCount(s.active);
    IdCount(s.history);
    assert |IdSet(s.active) + IdSet(s.history)| == |IdSet(s.active)| + |IdSet(s.history)|;
  }

  lemma {:induction false} ArchivableIds(l: Limits, closed: seq<Notification>, reason: CloseReason)
    requires DistinctIds(closed)
    ensures DistinctIds(Archivable(l, closed, reason))
    ensures IdSet(Archivable(l, closed, reason)) <= IdSet(closed)
  {
    var keep := (n: Notification) => ShouldArchive(reason, n.isTransient, l.transientToHistory);
    if closed == [] {
    } else {
      ArchivableIds(l, closed[1..], reason);
      assert closed == [closed[0]] + closed[1..];
      var rest := Archivable(l, closed[1..], reason);
      assert Archivable(l, closed, reason) ==
             (if keep(closed[0]) then [ToHistory(closed[0])] else []) + rest;
      forall n | n in rest
        ensures n.id != closed[0].id && n.id in IdSet(closed)
      {
        assert n.id in IdSet(closed[1..]);
      }
    }
  }

  lemma ArchiveKeepsShape(l: Limits, history: seq<Notification>, closed: seq<Notification>, reason: CloseReason)
    requires DistinctIds(history) && DistinctIds(closed) && IdSet(history) !! IdSet(closed)
    requires |history| <= l.maxEntries
    ensures DistinctIds(Archive(l, history, closed, reason))
    ensures IdSet(Archive(l, history, closed, reason)) <= IdSet(history) + IdSet(closed)
    ensures |Archive(l, history, closed, reason)| <= l.maxEntries
  {
    ArchivableIds(l, closed, reason);
    var all := history + Archivable(l, closed, reason);
    forall i, j | 0 <= i < j < |all|
      ensures all[i].id != all[j].id
    {
      if i < |history| <= j {
        assert all[i].id in IdSet(history);
        assert all[j].id in IdSet(closed);
      }
    }
  }

  /** Archiving in two batches is archiving once: overflow may be pushed row by row. */
  lemma ArchiveInSteps(l: Limits, history: seq<Notification>, a: seq<Notification>, b: seq<Notification>,
                       reason: CloseReason)
    requires |history| <= l.maxEntries
    ensures Archive(l, Archive(l, history, a, reason), b, reason) == Archive(l, history, a + b, reason)
  {
    hide Filter;
    if a == [] {
      assert a + b == b;
    } else if b == [] {
      assert a + b == a;
    } else if l.maxEntries > 0 {
      FilterConcat((n: Notification) => ShouldArchive(reason, n.isTransient, l.transientToHistory), a, b);
      assert Archivable(l, a + b, reason) == Archivable(l, a, reason) + Archivable(l, b, reason);
      assert history + (Archivable(l, a, reason) + Archivable(l, b, reason))
          == (history + Archivable(l, a, reason)) + Archivable(l, b, reason);
      SuffixAbsorbs(history + Archivable(l, a, reason), Archivable(l, b, reason), l.maxEntries);
    }
  }

  lemma AdmitKeepsGood(l: Limits, s: StoreState, row: Notification)
    requires Good(l, s) && row.id >= 1
    ensures Good(l, Admit(l, s, row))
    ensures TimersLive(s) ==> TimersLive(Admit(l, s, row))
    ensures row.id !in Admit(l, s, row).expirations
    ensures row in Admit(l, s, row).active <==> l.Cap() > 0
    ensures Held(Admit(l, s, row)) <= Held(s) + {row.id}
  {
    hide Archive, Without;
    var without, history := Without(s.active, row.id), Without(s.history, row.id);
    WithoutMeans(s.active, row.id);
    WithoutMeans(s.history, row.id);
    WithoutDistinct(s.active, row.id);
    WithoutDistinct(s.history, row.id);
    var rows := without + [row];
    assert IdSet(rows) == IdSet(without) + {row.id};
    assert DistinctIds(rows);
    var over := Overflow(l, rows);
    SplitIds(rows, over);
    IdsOfIsIdSet(rows[..over]);
    ArchiveKeepsShape(l, history, rows[..over], Undefined);
    var s' := Admit(l, s, row);
    if l.Cap() > 0 {
      assert rows[over..][|rows| - over - 1] == row;
    } else {
      assert rows[over..] == [];
    }
  }

  lemma SplitIds(rows: seq<Notification>, k: nat)
    requires DistinctIds(rows) && k <= |rows|
    ensures DistinctIds(rows[..k]) && DistinctIds(rows[k..])
    ensures IdSet(rows[..k]) !! IdSet(rows[k..])
    ensures IdSet(rows[..k]) + IdSet(rows[k..]) == IdSet(rows)
  {
  }

  lemma CloseKeepsGood(l: Limits, s: StoreState, id: Id, reason: CloseReason)
    requires Good(l, s)
    ensures Good(l, Close(l, s, id, reason))
    ensures TimersLive(s) ==> TimersLive(Close(l, s, id, reason))
    ensures Held(Close(l, s, id, reason)) <= Held(s)
    ensures id !in IdSet(Close(l, s, id, reason).active)
  {
    FindMeans(s.active, id);
    if Find(s.active, id).Some? {
      var row := Find(s.active, id).value;
      WithoutMeans(s.active, id);
      WithoutDistinct(s.active, id);
      assert IdSet([row]) == {id};
      ArchiveKeepsShape(l, s.history, [row], reason);
    }
  }

  lemma DismissKeepsGood(l: Limits, s: StoreState, id: Id)
    requires Good(l, s)
    ensures Good(l, Dismiss(s, id))
    ensures TimersLive(s) ==> TimersLive(Dismiss(s, id))
    ensures Held(Dismiss(s, id)) == Held(s) - {id}
  {
    FindMeans(s.active, id);
    WithoutMeans(s.active, id);
    WithoutMeans(s.history, id);
    WithoutDistinct(s.active, id);
    WithoutDistinct(s.history, id);
  }

  // ---------------------------------------------------------------------------------------------
  // What one insertion may touch
  // ---------------------------------------------------------------------------------------------

  lemma IdsListIdSet(rows: seq<Notification>)
    ensures forall id :: id in Ids(rows) <==> id in IdSet(rows)
  {
    forall id | id in IdSet(rows)
      ensures id in Ids(rows)
    {
      var n :| n in rows && n.id == id;
      var i :| 0 <= i < |rows| && rows[i] == n;
      assert Ids(rows)[i] == id;
    }
  }

  /** After the oldest `over` rows left, a row is still there exactly when its id did not leave. */
  lemma OverflowSplits(rows: seq<Notification>, over: nat, row: Notification)
    requires DistinctIds(rows) && over <= |rows| && row in rows
    ensures row in rows[over..] <==> row.id !in Ids(rows[..over])
  {
    SplitIds(rows, over);
    assert rows == rows[..over] + rows[over..];
    IdsListIdSet(rows[..over]);
  }

  /**
   No takeover. While some nonzero id is free, an insertion reuses the id of an existing row only
   as a replacement by that row's owner.
   */
  lemma InsertRespectsOwners(l: Limits, s: StoreState, n: Notification, replacesId: Id, dropAll: bool)
    requires Good(l, s) && |Held(s)| < CYCLE
    ensures var outcome := Insert(l, s, n, replacesId, dropAll).1;
            outcome.notification.id in Held(s) ==>
              outcome.replaced && outcome.notification.id == replacesId && CanReplace(s, replacesId, n)
  {
    AllocatedIdIsFresh(s.nextId, Held(s));
  }

  /** Every other live row stays live unless it is reported as evicted; a dropped insert moves no row. */
  lemma InsertKeepsOtherRows(l: Limits, s: StoreState, n: Notification, replacesId: Id, dropAll: bool,
                             row: Notification)
    requires Good(l, s) && row in s.active
    ensures var (s', outcome) := Insert(l, s, n, replacesId, dropAll);
            row.id != outcome.notification.id ==> (row in s'.active <==> row.id !in outcome.evicted)
    ensures dropAll ==> row in Insert(l, s, n, replacesId, dropAll).0.active
  {
    var outcome := Insert(l, s, n, replacesId, dropAll).1;
    var newRow := outcome.notification;
    if !dropAll && row.id != newRow.id {
      var without := Without(s.active, newRow.id);
      WithoutMeans(s.active, newRow.id);
      WithoutDistinct(s.active, newRow.id);
      var rows := without + [newRow];
      assert DistinctIds(rows) by {
        assert newRow.id !in IdSet(without);
      }
      OverflowSplits(rows, Overflow(l, rows), row);
    }
  }

  lemma InsertKeepsGood(l: Limits, s: StoreState, n: Notification, replacesId: Id, dropAll: bool)
    requires Good(l, s)
    ensures Good(l, Insert(l, s, n, replacesId, dropAll).0)
    ensures TimersLive(s) ==> TimersLive(Insert(l, s, n, replacesId, dropAll).0)
    ensures Insert(l, s, n, replacesId, dropAll).1.notification.id >= 1
  {
    AllocatedIdIsFresh(s.nextId, Held(s));
    if !dropAll {
      var replaced := replacesId != 0 && CanReplace(s, replacesId, n);
      var grant := if replaced then Grant(replacesId, s.nextId) else Allocate(s.nextId, Held(s));
      AdmitKeepsGood(l, s.(nextId := grant.next), n.(id := grant.id));
    }
  }

  // ---------------------------------------------------------------------------------------------
  // Whole runs
  // ---------------------------------------------------------------------------------------------

  /** Handler calls against the store; a notify inserts and then records the resolved deadline. */
  datatype Op =
    | Notify(n: Notification, replacesId: Id, dropAll: bool, deadline: Option<Instant>)
    | CloseOne(id: Id, reason: CloseReason)
    | DismissOne(dismissed: Id)
    | ClearEverything

  ghost function Step(l: Limits, s: StoreState, op: Op): StoreState {
    match op
    case Notify(n, replacesId, dropAll, deadline) =>
      var (s', outcome) := Insert(l, s, n, replacesId, dropAll);
      if outcome.dropped then s' else SetExpiration(s', outcome.notification.id, deadline)
    case CloseOne(id, reason) => Close(l, s, id, reason)
    case DismissOne(id) => Dismiss(s, id)
    case ClearEverything => ClearAll(s)
  }

  const EMPTY_STORE := StoreState([], [], map[], 1)

  ghost function After(l: Limits, ops: seq<Op>): StoreState {
    if ops == [] then EMPTY_STORE
    else Step(l, After(l, ops[..|ops| - 1]), ops[|ops| - 1])
  }

  /** Which step can leave a deadline without a live row: a timed notify when nothing may be live. */
  ghost predicate OrphansTimer(l: Limits, op: Op) {
    op.Notify? && !op.dropAll && op.deadline.Some? && l.Cap() == 0
  }

  lemma NewRowLive(l: Limits, s: StoreState, n: Notification, replacesId: Id)
    requires Good(l, s)
    ensures var (s', outcome) := Insert(l, s, n, replacesId, false);
            outcome.notification.id in IdSet(s'.active) <==> l.Cap() > 0
  {
    AllocatedIdIsFresh(s.nextId, Held(s));
    var (s', outcome) := Insert(l, s, n, replacesId, false);
    var grant := if outcome.replaced then Grant(replacesId, s.nextId) else Allocate(s.nextId, Held(s));
    AdmitKeepsGood(l, s.(nextId := grant.next), outcome.notification);
    if l.Cap() == 0 {
      assert s'.active == [];
    }
  }

  lemma SetExpirationKeepsGood(l: Limits, s: StoreState, id: Id, deadline: Option<Instant>)
    requires Good(l, s)
    ensures Good(l, SetExpiration(s, id, deadline))
    ensures TimersLive(s) ==>
              (TimersLive(SetExpiration(s, id, deadline)) <==> deadline.None? || id in IdSet(s.active))
  {
  }

  lemma StepKeepsGood(l: Limits, s: StoreState, op: Op)
    requires Good(l, s)
    ensures Good(l, Step(l, s, op))
    ensures TimersLive(s) ==> (TimersLive(Step(l, s, op)) <==> !OrphansTimer(l, op))
  {
    match op
    case Notify(n, replacesId, dropAll, deadline) =>
      InsertKeepsGood(l, s, n, replacesId, dropAll);
      var (s', outcome) := Insert(l, s, n, replacesId, dropAll);
      if !dropAll {
        NewRowLive(l, s, n, replacesId);
        SetExpirationKeepsGood(l, s', outcome.notification.id, deadline);
      }
    case CloseOne(id, reason) =>
      CloseKeepsGood(l, s, id, reason);
    case DismissOne(id) =>
      DismissKeepsGood(l, s, id);
    case ClearEverything =>
  }

  /**
   The joint invariant over every run from the empty store: distinct nonzero ids across both
   queues, both bounds, and no deadline without a live row unless the cap is zero.
   */
  lemma {:induction false} RunKeepsGood(l: Limits, ops: seq<Op>)
    ensures Good(l, After(l, ops))
    ensures |After(l, ops).active| <= ACTIVE_HARD_CAP
    ensures l.Cap() > 0 ==> TimersLive(After(l, ops))
  {
    if ops == [] {
      assert IdSet(EMPTY_STORE.active) == {} && IdSet(EMPTY_STORE.history) == {};
    } else {
      RunKeepsGood(l, ops[..|ops| - 1]);
      StepKeepsGood(l, After(l, ops[..|ops| - 1]), ops[|ops| - 1]);
    }
  }

  /** With a zero cap the claim about deadlines is false: one timed notify already breaks it. */
  lemma ZeroCapOrphansTimer(l: Limits, n: Notification, at: Instant)
    requires l.maxActive == 0
    ensures !TimersLive(After(l, [Notify(n, 0, false, Some(at))]))
  {
  }

  /** The step asks the allocator for an id. */
  ghost predicate Allocates(s: StoreState, op: Op) {
    op.Notify? && (op.dropAll || op.replacesId == 0 || !CanReplace(s, op.replacesId, op.n))
  }

  /** The allocator requests made along a run. */
  ghost function Requests(l: Limits, ops: seq<Op>): seq<Request> {
    if ops == [] then []
    else
      var before := After(l, ops[..|ops| - 1]);
      Requests(l, ops[..|ops| - 1]) +
      (if Allocates(before, ops[|ops| - 1]) then [Request(before.nextId, Held(before))] else [])
  }

  lemma StepMovesCursor(l: Limits, s: StoreState, op: Op)
    ensures Step(l, s, op).nextId ==
            if Allocates(s, op) then Allocate(s.nextId, Held(s)).next else s.nextId
  {
  }

  lemma {:induction false} RequestsFormRun(l: Limits, ops: seq<Op>)
    ensures IsRun(Requests(l, ops))
    ensures After(l, ops).nextId == CursorAfter(Requests(l, ops))
  {
    if ops == [] {
    } else {
      var init, last := ops[..|ops| - 1], ops[|ops| - 1];
      RequestsFormRun(l, init);
      RequestStep(After(l, init), Requests(l, init), l, last, init);
    }
  }

  lemma RequestStep(s: StoreState, rs: seq<Request>, l: Limits, op: Op, init: seq<Op>)
    requires s == After(l, init) && IsRun(rs) && s.nextId == CursorAfter(rs)
    ensures var rs' := rs + (if Allocates(s, op) then [Request(s.nextId, Held(s))] else []);
            IsRun(rs') && Step(l, s, op).nextId == CursorAfter(rs')
  {
    RunKeepsGood(l, init);
    StepMovesCursor(l, s, op);
    if Allocates(s, op) {
      RunExtends(rs, Request(s.nextId, Held(s)));
    } else {
      assert rs + [] == rs;
    }
  }

  ghost function CursorAfter(rs: seq<Request>): Id {
    if rs == [] then 1 else Allocate(rs[|rs| - 1].cursor, rs[|rs| - 1].held).next
  }

  lemma RunExtends(rs: seq<Request>, r: Request)
    requires IsRun(rs) && r.cursor == CursorAfter(rs) && r.cursor >= 1 && 0 !in r.held
    ensures IsRun(rs + [r])
    ensures CursorAfter(rs + [r]) == Allocate(r.cursor, r.held).next
  {
  }

  /**
   Along any run of the store, an id is allocated twice only after the cursor went round: every
   nonzero id was passed in between, held at that moment or handed out itself.
   */
  lemma StoreReusesIdsLast(l: Limits, ops: seq<Op>, i: nat, j: nat)
    requires i < j < |Requests(l, ops)|
    requires Granted(Requests(l, ops)[i]) == Granted(Requests(l, ops)[j])
    ensures forall x: Id :: x >= 1 ==> PassedBetween(Requests(l, ops), i, j, x)
  {
    RequestsFormRun(l, ops);
    ReuseOnlyAfterFullCycle(Requests(l, ops), i, j);
  }
}
