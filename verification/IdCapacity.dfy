/** Whether an id is always free: the history limits of the configuration decide. */
module IdCapacity {
  import opened Support
  import opened IdAllocation
  import opened Notifications
  import opened StoreModel

  const MAX_HISTORY_ENTRIES: nat := 5000
  const MAX_HISTORY_ACTIVE: nat := 12

  function Min(a: nat, b: nat): nat {
    if a < b then a else b
  }

  /** What loading a configuration does to the limits of the store. */
  function Sanitized(l: Limits): Limits {
    var maxEntries := Min(l.maxEntries, MAX_HISTORY_ENTRIES);
    l.(maxActive := Min(Min(l.maxActive, MAX_HISTORY_ACTIVE), maxEntries), maxEntries := maxEntries)
  }

  /** The most rows the two queues can hold. */
  function Capacity(l: Limits): nat {
    l.Cap() + l.maxEntries
  }

  lemma RunHoldsAtMost(l: Limits, ops: seq<Op>)
    ensures |Held(After(l, ops))| <= Capacity(l)
  {
    RunKeepsGood(l, ops);
    HeldSize(After(l, ops));
  }

  /** An insertion takes the id of an existing row only as a replacement by that row's owner. */
  ghost predicate NoTakeover(l: Limits, s: StoreState, n: Notification, replacesId: Id, dropAll: bool) {
    var outcome := Insert(l, s, n, replacesId, dropAll).1;
    outcome.notification.id in Held(s) ==>
      outcome.replaced && outcome.notification.id == replacesId && CanReplace(s, replacesId, n)
  }

  lemma RoomMeansNoTakeover(l: Limits, ops: seq<Op>, n: Notification, replacesId: Id, dropAll: bool)
    requires Capacity(l) < CYCLE
    ensures NoTakeover(l, After(l, ops), n, replacesId, dropAll)
  {
    RunKeepsGood(l, ops);
    RunHoldsAtMost(l, ops);
    InsertRespectsOwners(l, After(l, ops), n, replacesId, dropAll);
  }

  /** Under every configuration that can be loaded, no run of the daemon ever takes over an id. */
  lemma LoadedConfigNeverTakesOver(l: Limits, ops: seq<Op>, n: Notification, replacesId: Id, dropAll: bool)
    ensures |Held(After(Sanitized(l), ops))| <= 5012 < CYCLE
    ensures NoTakeover(Sanitized(l), After(Sanitized(l), ops), n, replacesId, dropAll)
  {
    RunHoldsAtMost(Sanitized(l), ops);
    RoomMeansNoTakeover(Sanitized(l), ops, n, replacesId, dropAll);
  }

  // ---------------------------------------------------------------------------------------------
  // Limits beyond those
  // ---------------------------------------------------------------------------------------------

  /** Live rows fill up first, and every row that leaves them fits into the archive. */
  ghost predicate FilledBy(l: Limits, s: StoreState, k: nat) {
    && Good(l, s) && |s.active| == Min(k, l.Cap()) && |s.active| + |s.history| == k
    && forall row :: row in s.active ==> !row.isTransient
  }

  lemma FreshRowFills(l: Limits, s: StoreState, k: nat, row: Notification)
    requires FilledBy(l, s, k) && k < Capacity(l)
    requires row.id >= 1 && row.id !in Held(s) && !row.isTransient
    ensures FilledBy(l, Admit(l, s, row), k + 1)
  {
    AdmitKeepsGood(l, s, row);
    WithoutAbsent(s.active, row.id);
    WithoutAbsent(s.history, row.id);
    hide Good;
    var rows := s.active + [row];
    var over := Overflow(l, rows);
    if over > 0 {
      assert over == 1;
      OneIsArchived(l, s.history, rows[0]);
      assert rows[..1] == [rows[0]];
    }
  }

  lemma OneIsArchived(l: Limits, history: seq<Notification>, row: Notification)
    requires !row.isTransient && |history| < l.maxEntries
    ensures |Archive(l, history, [row], Undefined)| == |history| + 1
  {
    var keep := (n: Notification) => ShouldArchive(Undefined, n.isTransient, l.transientToHistory);
    FilterAll(keep, [row]);
  }

  lemma NotifyFills(l: Limits, s: StoreState, k: nat, n: Notification)
    requires FilledBy(l, s, k) && k < Capacity(l) && k < CYCLE && !n.isTransient
    ensures FilledBy(l, Step(l, s, Notify(n, 0, false, None)), k + 1)
  {
    HeldSize(s);
    AllocatedIdIsFresh(s.nextId, Held(s));
    var grant := Allocate(s.nextId, Held(s));
    var row := n.(id := grant.id);
    var moved := s.(nextId := grant.next);
    FreshRowFills(l, moved, k, row);
    var (store, outcome) := Insert(l, s, n, 0, false);
    SetExpirationKeepsGood(l, store, row.id, None);
  }

  /** The same notification over and over. */
  function Repeated(n: Notification, k: nat): seq<Op> {
    seq(k, _ => Notify(n, 0, false, None))
  }

  lemma {:induction false} RepeatedFills(l: Limits, n: Notification, k: nat)
    requires k <= Capacity(l) && k <= CYCLE && !n.isTransient
    ensures FilledBy(l, After(l, Repeated(n, k)), k)
  {
    hide FilledBy, Step;
    if k == 0 {
      NothingFilled(l);
    } else {
      RepeatedFills(l, n, k - 1);
      assert Repeated(n, k)[..k - 1] == Repeated(n, k - 1);
      NotifyFills(l, After(l, Repeated(n, k - 1)), k - 1, n);
    }
  }

  lemma NothingFilled(l: Limits)
    ensures FilledBy(l, EMPTY_STORE, 0)
  {
    RunKeepsGood(l, []);
  }

  /** With room for every nonzero id, 2^32 - 1 notifications hold them all, and the next one takes one over. */
  lemma FullStoreIsTakenOver(l: Limits, n: Notification)
    requires Capacity(l) >= CYCLE && !n.isTransient
    ensures var s := After(l, Repeated(n, CYCLE));
            |Held(s)| == CYCLE && !NoTakeover(l, s, n, 0, false)
  {
    var s := After(l, Repeated(n, CYCLE));
    RepeatedFills(l, n, CYCLE);
    HeldSize(s);
    AllocatedIdIsFresh(s.nextId, Held(s));
  }

  function Plain(): Notification {
    Notification(0, false, None, None, None, "", map[], [])
  }

  /**
   The bounded search always finds a free id, and nobody's row is ever taken over, exactly when the
   two queues together have room for fewer rows than there are nonzero ids.
   */
  lemma NeverTakesOverIff(l: Limits)
    ensures (forall ops :: |Held(After(l, ops))| < CYCLE) <==> Capacity(l) < CYCLE
    ensures (forall ops, n, replacesId, dropAll :: NoTakeover(l, After(l, ops), n, replacesId, dropAll))
            <==> Capacity(l) < CYCLE
  {
    if Capacity(l) < CYCLE {
      forall ops
        ensures |Held(After(l, ops))| < CYCLE
      {
        RunHoldsAtMost(l, ops);
      }
      forall ops, n, replacesId, dropAll
        ensures NoTakeover(l, After(l, ops), n, replacesId, dropAll)
      {
        RoomMeansNoTakeover(l, ops, n, replacesId, dropAll);
      }
    } else {
      FullStoreIsTakenOver(l, Plain());
    }
  }
}
