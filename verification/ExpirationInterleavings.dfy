/**
 The scheduler with its locks taken as the code takes them. A handler releases the store lock before
 it sends its command, so commands of different handlers may enter the channel in another order. A
 timer pass takes the lock once to check an item and once more to close it, and handlers run between
 any two of its items.
 */
module ExpirationInterleavings {
  import opened Support
  import opened IdAllocation
  import opened Notifications
  import opened StoreModel
  import opened ExpirationModel

  /**
   `pending` holds commands not sent yet, in the order of their store changes. `passing` is the clock
   of a timer pass under way, `checked` the item it is about to close. `latest` is not program
   state: it records the deadline that a notify has set for the checked id since the check.
   */
  datatype Running = Running(
    s: System, pending: seq<Command>, passing: Option<Instant>, checked: Option<Item>,
    latest: Option<Option<Instant>>)

  datatype Turn =
    | Handled(e: Event)    // a handler changed the store
    | SentOn(k: nat)       // some handler's command enters the channel
    | Read                 // the scheduler reads a command
    | Woke(now: Instant)   // a timer pass begins
    | Popped(item: Item)   // it pops an item and checks it against the store
    | ClosedChecked        // it closes the checked id
    | Rested               // nothing is due any more: compact, and wait again

  predicate ByHandler(e: Event) {
    e.Notified? || e.Closed? || e.Dismissed? || e.Cleared?
  }

  ghost function Handle(l: Limits, s: System, e: Event): System
    requires ByHandler(e)
  {
    match e
    case Notified(n, replacesId, dropAll, deadline) => NotifyStep(l, s, n, replacesId, dropAll, deadline)
    case Closed(id, reason) => CloseStep(l, s, id, reason)
    case Dismissed(id) => DismissStep(s, id)
    case Cleared => ClearStep(s)
  }

  /** The system as if every command had been sent at once. */
  function Full(r: Running): System {
    r.s.(queue := r.s.queue + r.pending)
  }

  /** The new store, and the commands it owes, after a step of the system as if all were sent. */
  function Owing(r: Running, f: System): Running
    requires |r.s.queue| <= |f.queue|
  {
    r.(s := r.s.(store := f.store), pending := f.queue[|r.s.queue|..])
  }

  function Stored(s: StoreState, id: Id): Option<Instant> {
    if id in s.expirations then Some(s.expirations[id]) else None
  }

  /** What a notify sets for the checked id; other handlers set nothing. */
  ghost function Recorded(l: Limits, r: Running, e: Event): Option<Option<Instant>> {
    if r.checked.Some? && e.Notified? && !e.dropAll
       && Insert(l, r.s.store, e.n, e.replacesId, false).1.notification.id == r.checked.value.id
    then Some(e.deadline) else r.latest
  }

  predicate CanTurn(r: Running, turn: Turn) {
    match turn
    case Handled(e) => ByHandler(e)
    case SentOn(k) => k < |r.pending|
    case Read => r.passing.None? && r.s.queue != []
    case Woke(_) => r.passing.None?
    case Popped(item) =>
      && r.passing.Some? && r.checked.None? && item in r.s.timers.heap && item.deadline <= r.passing.value
    case ClosedChecked => r.checked.Some?
    case Rested =>
      r.passing.Some? && r.checked.None? && forall it :: it in r.s.timers.heap ==> it.deadline > r.passing.value
  }

  lemma HandlersAppend(l: Limits, s: System, e: Event)
    requires ByHandler(e)
    ensures s.queue <= Handle(l, s, e).queue && Handle(l, s, e).timers == s.timers
  {
  }

  lemma CloseAppends(l: Limits, s: System, id: Id, reason: CloseReason)
    ensures s.queue <= CloseStep(l, s, id, reason).queue && CloseStep(l, s, id, reason).timers == s.timers
  {
  }

  ghost function Turned(l: Limits, r: Running, turn: Turn): Running
    requires CanTurn(r, turn)
  {
    match turn
    case Handled(e) =>
      HandlersAppend(l, Full(r), e);
      Owing(r, Handle(l, Full(r), e)).(latest := Recorded(l, r, e))
    case SentOn(k) =>
      r.(s := r.s.(queue := r.s.queue + [r.pending[k]]), pending := r.pending[..k] + r.pending[k + 1..])
    case Read => r.(s := ReceiveStep(r.s))
    case Woke(now) => r.(passing := Some(now))
    case Popped(item) =>
      var t := r.s.timers;
      var scheduled := if Current(t, item) then t.scheduled - {item.id} else t.scheduled;
      var agreed := Current(t, item) && Stored(r.s.store, item.id) == Some(item.deadline);
      r.(s := r.s.(timers := Timers(t.heap - multiset{item}, scheduled)),
         checked := if agreed then Some(item) else None, latest := None)
    case ClosedChecked =>
      CloseAppends(l, Full(r), r.checked.value.id, Expired);
      Owing(r, CloseStep(l, Full(r), r.checked.value.id, Expired)).(checked := None)
    case Rested => r.(s := r.s.(timers := MaybeCompact(r.s.timers)), passing := None)
  }

  // ---------------------------------------------------------------------------------------------
  // The invariant
  // ---------------------------------------------------------------------------------------------

  /** The checked id is about to be closed: its deadline no longer needs a timer. */
  function Exempt(s: System, checked: Option<Item>): System {
    if checked.None? then s else s.(store := Untimed(s.store, checked.value.id))
  }

  /** A live row under the checked id has the deadline of the check, or what a notify set since. */
  ghost predicate RecordOk(r: Running) {
    r.checked.Some? && r.checked.value.id in IdSet(r.s.store.active) ==>
      Stored(r.s.store, r.checked.value.id)
      == if r.latest.Some? then r.latest.value else Some(r.checked.value.deadline)
  }

  /** Once every command is sent and read, the scheduler knows each stored deadline it still needs. */
  ghost predicate AllTimersKept(r: Running) {
    NoTimerLost(Exempt(Full(r), r.checked))
  }

  /** What holds whatever order the commands are sent in. */
  ghost predicate CheckOk(l: Limits, r: Running) {
    && Good(l, r.s.store) && RecordOk(r)
    && (r.checked.Some? ==> r.passing.Some? && r.checked.value.deadline <= r.passing.value)
  }

  ghost predicate RunningInv(l: Limits, r: Running) {
    && CheckOk(l, r) && AllTimersKept(r) && HeapCovers(r.s.timers)
    && (r.passing.None? ==> HeapBounded(r.s.timers) && r.checked.None?)
  }

  // ---------------------------------------------------------------------------------------------
  // Handlers
  // ---------------------------------------------------------------------------------------------

  lemma FewerDeadlines(l: Limits, s: System, checked: Option<Item>)
    requires Sound(l, s)
    ensures Sound(l, Exempt(s, checked))
  {
  }

  lemma AdmitIgnoresDeadline(l: Limits, s: StoreState, row: Notification, id: Id)
    ensures Untimed(Admit(l, Untimed(s, id), row), id) == Untimed(Admit(l, s, row), id)
  {
    hide Archive, StoreModel.Overflow;
    var a, b := Untimed(Admit(l, Untimed(s, id), row), id), Untimed(Admit(l, s, row), id);
    assert a.expirations == b.expirations;
  }

  lemma InsertIgnoresDeadline(l: Limits, s: StoreState, n: Notification, replacesId: Id, dropAll: bool, id: Id)
    ensures Insert(l, Untimed(s, id), n, replacesId, dropAll).1 == Insert(l, s, n, replacesId, dropAll).1
    ensures Untimed(Insert(l, Untimed(s, id), n, replacesId, dropAll).0, id)
         == Untimed(Insert(l, s, n, replacesId, dropAll).0, id)
  {
    hide Admit, Allocate;
    assert Held(Untimed(s, id)) == Held(s);
    var free := Allocate(s.nextId, Held(s));
    if !dropAll {
      var replaced := replacesId != 0 && CanReplace(s, replacesId, n);
      var grant := if replaced then Grant(replacesId, s.nextId) else free;
      AdmitIgnoresDeadline(l, s.(nextId := grant.next), n.(id := grant.id), id);
      assert Untimed(s, id).(nextId := grant.next) == Untimed(s.(nextId := grant.next), id);
    }
  }

  lemma SetIgnoresDeadline(x: StoreState, y: StoreState, timed: Id, deadline: Option<Instant>, id: Id)
    requires Untimed(x, id) == Untimed(y, id)
    ensures Untimed(SetExpiration(x, timed, deadline), id) == Untimed(SetExpiration(y, timed, deadline), id)
  {
    var a, b := Untimed(x, id).expirations, Untimed(y, id).expirations;
    var f, g := SetExpiration(x, timed, deadline).expirations, SetExpiration(y, timed, deadline).expirations;
    forall key | key != id
      ensures key in f <==> key in g
      ensures key in f ==> f[key] == g[key]
    {
      assert key in a <==> key in x.expirations;
      assert key in b <==> key in y.expirations;
    }
    assert f - {id} == g - {id};
  }

  lemma NotifyIgnoresDeadline(l: Limits, s: System, n: Notification, replacesId: Id, dropAll: bool,
                              deadline: Option<Instant>, id: Id)
    ensures var a := NotifyStep(l, s.(store := Untimed(s.store, id)), n, replacesId, dropAll, deadline);
            var b := NotifyStep(l, s, n, replacesId, dropAll, deadline);
            a.(store := Untimed(a.store, id)) == b.(store := Untimed(b.store, id))
  {
    InsertIgnoresDeadline(l, s.store, n, replacesId, dropAll, id);
    hide StoreModel.Insert;
    var (x, _) := Insert(l, Untimed(s.store, id), n, replacesId, dropAll);
    var (y, outcome) := Insert(l, s.store, n, replacesId, dropAll);
    SetIgnoresDeadline(x, y, outcome.notification.id, deadline, id);
  }

  /** Handlers do not look at deadlines. */
  lemma HandlersIgnoreDeadlines(l: Limits, s: System, e: Event, checked: Option<Item>)
    requires ByHandler(e)
    ensures Exempt(Handle(l, Exempt(s, checked), e), checked) == Exempt(Handle(l, s, e), checked)
  {
    if checked.Some? {
      var id := checked.value.id;
      var a, b := Exempt(Handle(l, Exempt(s, checked), e), checked), Exempt(Handle(l, s, e), checked);
      match e
      case Notified(n, replacesId, dropAll, deadline) =>
        NotifyIgnoresDeadline(l, s, n, replacesId, dropAll, deadline, id);
      case Closed(other, reason) =>
        hide Archive;
        assert a.store.expirations == b.store.expirations;
      case Dismissed(other) => assert a.store.expirations == b.store.expirations;
      case Cleared =>
    }
  }

  lemma HandlersKeepSound(l: Limits, s: System, e: Event)
    requires Sound(l, s) && ByHandler(e)
    ensures Sound(l, Handle(l, s, e))
  {
    hide Sound;
    match e
    case Notified(n, replacesId, dropAll, deadline) => NotifyKeeps(l, s, n, replacesId, dropAll, deadline);
    case Closed(id, reason) => CloseKeeps(l, s, id, reason);
    case Dismissed(id) => DismissKeeps(l, s, id);
    case Cleared => ClearKeeps(l, s);
  }

  lemma OwingIsFull(r: Running, f: System)
    requires r.s.queue + r.pending <= f.queue && f.timers == r.s.timers
    ensures Full(Owing(r, f)) == f
  {
  }

  lemma HandledKeepsSound(l: Limits, r: Running, e: Event)
    requires RunningInv(l, r) && ByHandler(e)
    ensures var g := Turned(l, r, Handled(e));
            Full(g) == Handle(l, Full(r), e) && Sound(l, Exempt(Full(g), r.checked)) && g.s.timers == r.s.timers
  {
    HandlersAppend(l, Full(r), e);
    OwingIsFull(r, Handle(l, Full(r), e));
    HandlersKeepSound(l, Exempt(Full(r), r.checked), e);
    hide Sound, Handle, Full;
    FewerDeadlines(l, Handle(l, Exempt(Full(r), r.checked), e), r.checked);
    HandlersIgnoreDeadlines(l, Full(r), e, r.checked);
  }

  // ---------------------------------------------------------------------------------------------
  // The deadline of a checked row
  // ---------------------------------------------------------------------------------------------

  lemma AdmitKeepsDeadline(l: Limits, s: StoreState, row: Notification, id: Id)
    requires DistinctIds(s.active) && id != row.id && id in IdSet(Admit(l, s, row).active)
    ensures id in IdSet(s.active) && Stored(Admit(l, s, row), id) == Stored(s, id)
  {
    WithoutMeans(s.active, row.id);
    WithoutDistinct(s.active, row.id);
    var without := Without(s.active, row.id);
    var rows := without + [row];
    assert IdSet(rows) == IdSet(without) + {row.id} && DistinctIds(rows);
    var over := Overflow(l, rows);
    SplitIds(rows, over);
    IdsOfIsIdSet(rows[..over]);
  }

  /** A live row whose id an insertion does not take keeps its deadline. */
  lemma InsertKeepsDeadline(l: Limits, s: StoreState, n: Notification, replacesId: Id, dropAll: bool, id: Id)
    requires DistinctIds(s.active) && id in IdSet(Insert(l, s, n, replacesId, dropAll).0.active)
    requires dropAll || id != Insert(l, s, n, replacesId, dropAll).1.notification.id
    ensures id in IdSet(s.active) && Stored(Insert(l, s, n, replacesId, dropAll).0, id) == Stored(s, id)
  {
    if !dropAll {
      hide Admit, Stored;
      var replaced := replacesId != 0 && CanReplace(s, replacesId, n);
      var grant := if replaced then Grant(replacesId, s.nextId) else Allocate(s.nextId, Held(s));
      AdmitKeepsDeadline(l, s.(nextId := grant.next), n.(id := grant.id), id);
      CursorIsInert(s, grant.next, id);
    }
  }

  lemma CursorIsInert(s: StoreState, next: Id, id: Id)
    ensures Stored(s.(nextId := next), id) == Stored(s, id)
  {
  }

  lemma NotifyKeepsRecord(l: Limits, r: Running, e: Event)
    requires RecordOk(r) && DistinctIds(r.s.store.active) && e.Notified? && r.checked.Some?
    ensures RecordOk(Turned(l, r, Handled(e)))
  {
    var id, g := r.checked.value.id, Turned(l, r, Handled(e));
    var (store, outcome) := Insert(l, r.s.store, e.n, e.replacesId, e.dropAll);
    if id in IdSet(g.s.store.active) && (e.dropAll || id != outcome.notification.id) {
      InsertKeepsDeadline(l, r.s.store, e.n, e.replacesId, e.dropAll, id);
    }
  }

  lemma HandledKeepsRecord(l: Limits, r: Running, e: Event)
    requires RecordOk(r) && Good(l, r.s.store) && ByHandler(e)
    ensures RecordOk(Turned(l, r, Handled(e)))
  {
    if r.checked.Some? {
      var id := r.checked.value.id;
      match e
      case Notified(_, _, _, _) => NotifyKeepsRecord(l, r, e);
      case Closed(other, reason) =>
        CloseKeepsGood(l, r.s.store, other, reason);
        WithoutMeans(r.s.store.active, other);
      case Dismissed(other) => WithoutMeans(r.s.store.active, other);
      case Cleared =>
    }
  }

  lemma HandledKeepsCheck(l: Limits, r: Running, e: Event)
    requires CheckOk(l, r) && ByHandler(e)
    ensures CheckOk(l, Turned(l, r, Handled(e)))
  {
    HandledKeepsRecord(l, r, e);
    hide RecordOk;
    match e
    case Notified(n, replacesId, dropAll, deadline) =>
      InsertKeepsGood(l, r.s.store, n, replacesId, dropAll);
      hide StoreModel.Insert, Good;
      var (store, outcome) := Insert(l, r.s.store, n, replacesId, dropAll);
      SetExpirationKeepsGood(l, store, outcome.notification.id, deadline);
    case Closed(id, reason) => CloseKeepsGood(l, r.s.store, id, reason);
    case Dismissed(id) => DismissKeepsGood(l, r.s.store, id);
    case Cleared =>
  }

  /** No turn breaks this, not even a send that loses a timer. */
  lemma TurnKeepsCheck(l: Limits, r: Running, turn: Turn)
    requires CheckOk(l, r) && CanTurn(r, turn)
    ensures CheckOk(l, Turned(l, r, turn))
  {
    match turn
    case Handled(e) => HandledKeepsCheck(l, r, e);
    case ClosedChecked => CloseKeepsGood(l, r.s.store, r.checked.value.id, Expired);
    case _ =>
  }

  // ---------------------------------------------------------------------------------------------
  // Sending in another order
  // ---------------------------------------------------------------------------------------------

  /** The last command for an id. */
  function LastFor(cmds: seq<Command>, id: Id): Option<Command> {
    if cmds == [] then None
    else if cmds[|cmds| - 1].id == id then Some(cmds[|cmds| - 1])
    else LastFor(cmds[..|cmds| - 1], id)
  }

  function Outcome(last: Option<Command>, before: Option<Instant>): Option<Instant> {
    match last
    case None => before
    case Some(Schedule(_, deadline)) => Some(deadline)
    case Some(Cancel(_)) => None
  }

  function Lookup(scheduled: map<Id, Instant>, id: Id): Option<Instant> {
    if id in scheduled then Some(scheduled[id]) else None
  }

  /** The last command for an id decides what the scheduler will know. */
  lemma {:induction false} ReplayByLast(queue: seq<Command>, scheduled: map<Id, Instant>, id: Id)
    ensures Lookup(Replay(queue, scheduled), id) == Outcome(LastFor(queue, id), Lookup(scheduled, id))
  {
    if queue != [] {
      ReplayByLast(queue[..|queue| - 1], scheduled, id);
    }
  }

  lemma {:induction false} LastForConcat(a: seq<Command>, b: seq<Command>, id: Id)
    ensures LastFor(a + b, id) == if LastFor(b, id).Some? then LastFor(b, id) else LastFor(a, id)
  {
    if b == [] {
      assert a + b == a;
    } else {
      LastForConcat(a, b[..|b| - 1], id);
      assert (a + b)[..|a + b| - 1] == a + b[..|b| - 1];
    }
  }

  /** Sending command `k` first: only its own id can notice, and only if it was that id's last command. */
  lemma SendReorders(queue: seq<Command>, pending: seq<Command>, k: nat, id: Id)
    requires k < |pending|
    ensures LastFor(queue + [pending[k]] + (pending[..k] + pending[k + 1..]), id)
         == if id == pending[k].id && LastFor(pending[k + 1..], id).None? && LastFor(pending[..k], id).Some?
            then LastFor(pending[..k], id) else LastFor(queue + pending, id)
  {
    var c, early, late := pending[k], pending[..k], pending[k + 1..];
    assert pending == early + [c] + late;
    LastForConcat(queue, pending, id);
    LastForConcat(early + [c], late, id);
    LastForConcat(early, [c], id);
    LastForConcat(queue + [c], early + late, id);
    LastForConcat(early, late, id);
    LastForConcat(queue, [c], id);
    LastForOne(c, id);
  }

  lemma LastForOne(c: Command, id: Id)
    ensures LastFor([c], id) == if c.id == id then Some(c) else None
  {
    assert [c][..0] == [];
  }

  /** Command `k` overtakes an earlier one for its id, and no later one will put that right. */
  predicate Overtakes(r: Running, k: nat)
    requires k < |r.pending|
  {
    var id := r.pending[k].id;
    LastFor(r.pending[..k], id).Some? && LastFor(r.pending[k + 1..], id).None?
  }

  /**
   A command may overtake if its id needs no timer, or if the overtaken command asks for the very
   deadline that is stored. All other turns are safe.
   */
  predicate Safe(r: Running, turn: Turn)
    requires CanTurn(r, turn)
  {
    match turn
    case SentOn(k) =>
      var id := r.pending[k].id;
      var stored := Stored(Exempt(r.s, r.checked).store, id);
      Overtakes(r, k) && stored.Some? ==> Outcome(LastFor(r.pending[..k], id), None) == stored
    case _ => true
  }

  ghost predicate KeptFor(s: System, id: Id) {
    id in s.store.expirations ==>
      Outcome(LastFor(s.queue, id), Lookup(s.timers.scheduled, id)) == Some(s.store.expirations[id])
  }

  lemma NoTimerLostByLast(s: System)
    ensures NoTimerLost(s) <==> forall id :: KeptFor(s, id)
  {
    forall id
      ensures KeptFor(s, id) <==>
                (id in s.store.expirations ==>
                   && id in Replay(s.queue, s.timers.scheduled)
                   && Replay(s.queue, s.timers.scheduled)[id] == s.store.expirations[id])
    {
      ReplayByLast(s.queue, s.timers.scheduled, id);
    }
  }

  lemma SendKeepsOthers(r: Running, g: Running, k: nat, id: Id)
    requires CanTurn(r, SentOn(k)) && id != r.pending[k].id
    requires g == r.(s := r.s.(queue := r.s.queue + [r.pending[k]]), pending := r.pending[..k] + r.pending[k + 1..])
    ensures KeptFor(Exempt(Full(g), r.checked), id) <==> KeptFor(Exempt(Full(r), r.checked), id)
  {
    SendReorders(r.s.queue, r.pending, k, id);
  }

  lemma SendKeepsOwn(r: Running, g: Running, k: nat)
    requires CanTurn(r, SentOn(k)) && KeptFor(Exempt(Full(r), r.checked), r.pending[k].id)
    requires g == r.(s := r.s.(queue := r.s.queue + [r.pending[k]]), pending := r.pending[..k] + r.pending[k + 1..])
    ensures KeptFor(Exempt(Full(g), r.checked), r.pending[k].id) <==> Safe(r, SentOn(k))
  {
    SendReorders(r.s.queue, r.pending, k, r.pending[k].id);
  }

  lemma SendKeepsIff(l: Limits, r: Running, k: nat)
    requires RunningInv(l, r) && CanTurn(r, SentOn(k))
    ensures AllTimersKept(Turned(l, r, SentOn(k))) <==> Safe(r, SentOn(k))
    ensures Safe(r, SentOn(k)) ==> RunningInv(l, Turned(l, r, SentOn(k)))
  {
    var g := Turned(l, r, SentOn(k));
    var a, b := Exempt(Full(r), r.checked), Exempt(Full(g), g.checked);
    NoTimerLostByLast(a);
    NoTimerLostByLast(b);
    assert b.store == a.store && b.timers == a.timers;
    hide KeptFor, NoTimerLost, Safe, Full, Exempt;
    SendKeepsOwn(r, g, k);
    forall id | id != r.pending[k].id
      ensures KeptFor(b, id) <==> KeptFor(a, id)
    {
      SendKeepsOthers(r, g, k, id);
    }
  }

  // ---------------------------------------------------------------------------------------------
  // The scheduler
  // ---------------------------------------------------------------------------------------------

  lemma ReadKeeps(l: Limits, r: Running)
    requires RunningInv(l, r) && CanTurn(r, Read)
    ensures RunningInv(l, Turned(l, r, Read))
  {
    assert Full(r).queue[0] == r.s.queue[0] && Full(r).queue[1..] == r.s.queue[1..] + r.pending;
    assert Full(Turned(l, r, Read)) == ReceiveStep(Full(r));
    ReceiveKeeps(l, Full(r));
  }

  /** Popping an item: its id keeps its timer elsewhere, or is about to be closed. */
  lemma PopKeeps(l: Limits, r: Running, item: Item)
    requires RunningInv(l, r) && CanTurn(r, Popped(item))
    ensures RunningInv(l, Turned(l, r, Popped(item)))
  {
    var a := Full(r);
    if !Current(a.timers, item) {
      StaleItemKeeps(l, a, item);
    } else if item.id in a.store.expirations && a.store.expirations[item.id] == item.deadline {
      UntimedSound(l, a, item.id);
      ForgetKeeps(l, a.(store := Untimed(a.store, item.id)), item);
    } else {
      ForgetKeeps(l, a, item);
    }
  }

  lemma CloseCheckedKeeps(l: Limits, r: Running)
    requires RunningInv(l, r) && CanTurn(r, ClosedChecked)
    ensures RunningInv(l, Turned(l, r, ClosedChecked))
  {
    var id, g := r.checked.value.id, Turned(l, r, ClosedChecked);
    var a := Exempt(Full(r), r.checked);
    CloseAppends(l, Full(r), id, Expired);
    OwingIsFull(r, CloseStep(l, Full(r), id, Expired));
    CloseKeeps(l, a, id, Expired);
    CloseDropsDeadline(l, Full(r), id);
  }

  lemma RestKeeps(l: Limits, r: Running)
    requires RunningInv(l, r) && CanTurn(r, Rested)
    ensures RunningInv(l, Turned(l, r, Rested))
  {
    CompactKeepsLive(r.s.timers);
  }

  lemma HandledKeeps(l: Limits, r: Running, e: Event)
    requires RunningInv(l, r) && ByHandler(e)
    ensures RunningInv(l, Turned(l, r, Handled(e)))
  {
    HandledKeepsSound(l, r, e);
    HandledKeepsCheck(l, r, e);
  }

  /** Every turn keeps every timer, except a send that overtakes what its id still needs. */
  lemma TurnKeepsIff(l: Limits, r: Running, turn: Turn)
    requires RunningInv(l, r) && CanTurn(r, turn)
    ensures AllTimersKept(Turned(l, r, turn)) <==> Safe(r, turn)
    ensures Safe(r, turn) ==> RunningInv(l, Turned(l, r, turn))
  {
    match turn
    case Handled(e) => HandledKeeps(l, r, e);
    case SentOn(k) => SendKeepsIff(l, r, k);
    case Read => ReadKeeps(l, r);
    case Woke(_) =>
    case Popped(item) => PopKeeps(l, r, item);
    case ClosedChecked => CloseCheckedKeeps(l, r);
    case Rested => RestKeeps(l, r);
  }

  // ---------------------------------------------------------------------------------------------
  // Runs
  // ---------------------------------------------------------------------------------------------

  const START := Running(INITIAL, [], None, None, None)

  ghost predicate IsRunningRun(l: Limits, states: seq<Running>, turns: seq<Turn>) {
    && |states| == |turns| + 1 && states[0] == START
    && forall i :: 0 <= i < |turns| ==> CanTurn(states[i], turns[i]) && states[i + 1] == Turned(l, states[i], turns[i])
  }

  lemma StartInv(l: Limits)
    ensures RunningInv(l, START) && CheckOk(l, START)
  {
    InitialInv(l);
    assert Full(START) == INITIAL;
  }

  lemma {:induction false} SafeRunKeeps(l: Limits, states: seq<Running>, turns: seq<Turn>, i: nat)
    requires IsRunningRun(l, states, turns) && i < |states|
    requires forall j :: 0 <= j < i ==> Safe(states[j], turns[j])
    ensures RunningInv(l, states[i])
  {
    hide RunningInv, CanTurn, Turned, Safe;
    if i == 0 {
      StartInv(l);
    } else {
      SafeRunKeeps(l, states, turns, i - 1);
      TurnKeepsIff(l, states[i - 1], turns[i - 1]);
    }
  }

  /** A run that has lost no timer up to now has made only safe turns. */
  lemma {:induction false} KeptSoFar(l: Limits, states: seq<Running>, turns: seq<Turn>, i: nat)
    requires IsRunningRun(l, states, turns) && i < |states|
    requires forall j :: 0 <= j <= i ==> AllTimersKept(states[j])
    ensures RunningInv(l, states[i])
    ensures forall j :: 0 <= j < i ==> Safe(states[j], turns[j])
  {
    hide RunningInv, CanTurn, Turned, Safe, AllTimersKept;
    if i == 0 {
      StartInv(l);
    } else {
      KeptSoFar(l, states, turns, i - 1);
      TurnKeepsIff(l, states[i - 1], turns[i - 1]);
    }
  }

  /**
   With the locks taken as the code takes them, a run loses no timer at any moment exactly when no
   command overtakes one that its id still needs; the whole invariant then holds throughout.
   */
  lemma RunKeepsIff(l: Limits, states: seq<Running>, turns: seq<Turn>)
    requires IsRunningRun(l, states, turns)
    ensures (forall i :: 0 <= i < |states| ==> AllTimersKept(states[i])) <==>
              forall i :: 0 <= i < |turns| ==> Safe(states[i], turns[i])
    ensures (forall i :: 0 <= i < |turns| ==> Safe(states[i], turns[i])) ==>
              forall i :: 0 <= i < |states| ==> RunningInv(l, states[i])
  {
    if forall i :: 0 <= i < |turns| ==> Safe(states[i], turns[i]) {
      forall i | 0 <= i < |states|
        ensures RunningInv(l, states[i])
      {
        SafeRunKeeps(l, states, turns, i);
      }
    }
    if forall i :: 0 <= i < |states| ==> AllTimersKept(states[i]) {
      KeptSoFar(l, states, turns, |turns|);
    }
  }

  /**
   A finished pass leaves no expired row behind, unless a handler's command for it is still under
   way: whatever handlers did between its items.
   */
  lemma RestLeavesOnlyFuture(l: Limits, r: Running, id: Id)
    requires RunningInv(l, r) && CanTurn(r, Rested) && id in r.s.store.expirations
    ensures r.s.store.expirations[id] > r.passing.value || Mentions(r.s.queue + r.pending, id)
  {
    if !Mentions(r.s.queue + r.pending, id) {
      ReplaySilent(r.s.queue + r.pending, r.s.timers.scheduled, id);
      assert Item(id, r.s.timers.scheduled[id]) in r.s.timers.heap;
    }
  }

  /** A pass ends: handlers never add to the heap, and each popped item leaves it. */
  lemma PassesEnd(l: Limits, r: Running, turn: Turn)
    requires CanTurn(r, turn) && r.passing.Some?
    ensures var heap, heap' := r.s.timers.heap, Turned(l, r, turn).s.timers.heap;
            if turn.Popped? then |heap'| == |heap| - 1 else turn.Rested? || heap' == heap
  {
    if turn.Handled? {
      HandlersAppend(l, Full(r), turn.e);
    }
  }

  /** The close that is due removes a live row that has not expired. */
  predicate ClosesEarly(r: Running)
    requires r.checked.Some? && r.passing.Some?
  {
    var id := r.checked.value.id;
    && Find(r.s.store.active, id).Some?
    && (Stored(r.s.store, id).None? || Stored(r.s.store, id).value > r.passing.value)
  }

  lemma {:induction false} RunKeepsCheck(l: Limits, states: seq<Running>, turns: seq<Turn>, i: nat)
    requires IsRunningRun(l, states, turns) && i < |states|
    ensures CheckOk(l, states[i])
  {
    hide CheckOk, CanTurn, Turned;
    if i == 0 {
      StartInv(l);
    } else {
      RunKeepsCheck(l, states, turns, i - 1);
      TurnKeepsCheck(l, states[i - 1], turns[i - 1]);
    }
  }

  /**
   In any state of any run, between check and close a row can only be closed early by being
   replaced: exactly when the id is live and the last notify that took it since the check asked for
   no deadline or a later one.
   */
  lemma ClosesEarlyIff(l: Limits, states: seq<Running>, turns: seq<Turn>, i: nat)
    requires IsRunningRun(l, states, turns) && i < |states| && CanTurn(states[i], ClosedChecked)
    ensures states[i].passing.Some?
    ensures var r := states[i];
            ClosesEarly(r) <==>
              && Find(r.s.store.active, r.checked.value.id).Some? && r.latest.Some?
              && (r.latest.value.None? || r.latest.value.value > r.passing.value)
  {
    RunKeepsCheck(l, states, turns, i);
    FindMeans(states[i].s.store.active, states[i].checked.value.id);
  }

  // ---------------------------------------------------------------------------------------------
  // Both failures happen
  // ---------------------------------------------------------------------------------------------

  /** The first notify of a daemon gets id 1 and is alone in the store. */
  lemma FirstNotify(l: Limits, n: Notification, deadline: Option<Instant>)
    requires l.Cap() > 0
    ensures var g := Turned(l, START, Handled(Notified(n, 0, false, deadline)));
      && g == START.(s := INITIAL.(store := g.s.store), pending := [CommandFor(1, deadline)])
      && g.s.store.active == [n.(id := 1)] && g.s.store.history == []
      && Stored(g.s.store, 1) == deadline
  {
    var e := Notified(n, 0, false, deadline);
    assert Held(EMPTY_STORE) == {};
    assert Search(1, {}, 1) == Some(1);
    assert Without([], 1) == [];
    var f := Handle(l, Full(START), e);
    assert f.queue == [CommandFor(1, deadline)];
  }

  /** A second notify by the same sender replaces the only row. */
  lemma SecondNotify(l: Limits, r: Running, n: Notification, deadline: Option<Instant>)
    requires l.Cap() > 0 && n.senderName.Some?
    requires r.s.store.active == [n.(id := 1)] && r.s.store.history == []
    ensures var g := Turned(l, r, Handled(Notified(n, 1, false, deadline)));
      && g == r.(s := r.s.(store := g.s.store), pending := r.pending + [CommandFor(1, deadline)], latest := g.latest)
      && g.s.store.active == [n.(id := 1)] && Stored(g.s.store, 1) == deadline
      && (r.checked.Some? && r.checked.value.id == 1 ==> g.latest == Some(deadline))
  {
    var e := Notified(n, 1, false, deadline);
    OnlyRowReplaced(l, r.s.store, n);
    hide StoreModel.Insert;
    var f := Handle(l, Full(r), e);
    assert f.queue == r.s.queue + r.pending + [CommandFor(1, deadline)];
  }

  lemma OnlyRowReplaced(l: Limits, s: StoreState, n: Notification)
    requires l.Cap() > 0 && n.senderName.Some? && s.active == [n.(id := 1)] && s.history == []
    ensures var (after, outcome) := Insert(l, s, n, 1, false);
      && outcome == InsertOutcome(n.(id := 1), true, [], false)
      && after == StoreState([n.(id := 1)], [], s.expirations - {1}, s.nextId)
  {
    var row := n.(id := 1);
    hide Allocate;
    assert Find([row], 1) == Some(row) && Owner(s, 1) == Some(row);
    WithoutDistinct([row], 1);
    assert 1 in IdSet([row]) by { assert row in [row]; }
    assert Without(s.active, 1) == [] && Without(s.history, 1) == [];
    assert s.expirations - ({1} + IdsOf([row][..0])) == s.expirations - {1};
    assert Ids([row][..0]) == [];
  }

  /** The scheduler has read everything, and does not know a stored deadline. */
  predicate Forgotten(r: Running, id: Id) {
    && r.s.queue == [] && r.pending == [] && Stored(r.s.store, id).Some? && id !in r.s.timers.scheduled
  }

  /** A Schedule that overtakes the Cancel before it. */
  lemma OvertakenCancelWins(l: Limits, r: Running, at: Instant)
    requires r.s.queue == [] && r.pending == [Cancel(1), Schedule(1, at)]
    requires r.passing.None? && r.checked.None? && Stored(r.s.store, 1) == Some(at)
    ensures !Safe(r, SentOn(1))
    ensures var r1 := Turned(l, r, SentOn(1));
            CanTurn(r1, SentOn(0)) && Unsent(Turned(l, r1, SentOn(0)), [Schedule(1, at), Cancel(1)], r.s)
  {
    LastForOne(Cancel(1), 1);
    assert r.pending[..1] == [Cancel(1)] && r.pending[2..] == [];
    var r1 := Turned(l, r, SentOn(1));
    assert r1.s.queue == [Schedule(1, at)] && r1.pending == [Cancel(1)];
    assert Turned(l, r1, SentOn(0)).s.queue == [Schedule(1, at), Cancel(1)];
  }

  ghost predicate Unsent(r: Running, queue: seq<Command>, s: System) {
    r.s == s.(queue := queue) && r.pending == [] && r.passing.None? && r.checked.None?
  }

  lemma ReadBoth(l: Limits, r: Running, at: Instant, s: System)
    requires Unsent(r, [Schedule(1, at), Cancel(1)], s) && Stored(s.store, 1) == Some(at)
    ensures var r1 := Turned(l, r, Read);
            CanTurn(r1, Read) && Forgotten(Turned(l, r1, Read), 1)
  {
    var r1 := Turned(l, r, Read);
    assert r1.s.queue == [Cancel(1)];
  }

  /**
   Two notifies of one sender, the second replacing the first: their commands enter the channel the
   other way round, and the stored deadline never reaches the scheduler.
   */
  lemma OvertakingDropsTimer(l: Limits, n: Notification, at: Instant) returns (states: seq<Running>, turns: seq<Turn>)
    requires l.Cap() > 0 && n.senderName.Some?
    ensures turns == [Handled(Notified(n, 0, false, None)), Handled(Notified(n, 1, false, Some(at))),
                      SentOn(1), SentOn(0), Read, Read]
    ensures IsRunningRun(l, states, turns) && Forgotten(states[6], 1)
    ensures !Safe(states[2], turns[2])
  {
    hide Turned, Forgotten, Safe, Handle;
    var first, second := Notified(n, 0, false, None), Notified(n, 1, false, Some(at));
    FirstNotify(l, n, None);
    var r1 := Turned(l, START, Handled(first));
    SecondNotify(l, r1, n, Some(at));
    var r2 := Turned(l, r1, Handled(second));
    assert r2.pending == [Cancel(1), Schedule(1, at)];
    OvertakenCancelWins(l, r2, at);
    var r4 := Turned(l, Turned(l, r2, SentOn(1)), SentOn(0));
    ReadBoth(l, r4, at, r2.s);
    states := [START, r1, r2, Turned(l, r2, SentOn(1)), r4, Turned(l, r4, Read), Turned(l, Turned(l, r4, Read), Read)];
    turns := [Handled(first), Handled(second), SentOn(1), SentOn(0), Read, Read];
  }

  /** An item whose timer is known and due is popped, checked, and about to be closed. */
  lemma DueIsChecked(l: Limits, r: Running, at: Instant)
    requires r.pending == [Schedule(1, at)] && r.s.queue == [] && r.s.timers == Timers(multiset{}, map[])
    requires r.passing.None? && r.checked.None? && Stored(r.s.store, 1) == Some(at)
    ensures CanTurn(r, SentOn(0))
    ensures var r1 := Turned(l, r, SentOn(0));
            CanTurn(r1, Read) && CanTurn(Turned(l, r1, Read), Woke(at))
    ensures var r3 := Turned(l, Turned(l, Turned(l, r, SentOn(0)), Read), Woke(at));
            CanTurn(r3, Popped(Item(1, at)))
            && var r4 := Turned(l, r3, Popped(Item(1, at)));
               r4.checked == Some(Item(1, at)) && r4.passing == Some(at) && r4.s.store == r.s.store
  {
    var r1 := Turned(l, r, SentOn(0));
    assert r1.s.queue == [Schedule(1, at)];
    var r2 := Turned(l, r1, Read);
    assert r2.s.timers == Timers(multiset{Item(1, at)}, map[1 := at]);
  }

  /** A replacement that arrives between check and close is closed in place of the expired row. */
  lemma ReplacementIsClosed(l: Limits, n: Notification, at: Instant) returns (states: seq<Running>, turns: seq<Turn>)
    requires l.Cap() > 0 && n.senderName.Some?
    ensures turns == [Handled(Notified(n, 0, false, Some(at))), SentOn(0), Read, Woke(at), Popped(Item(1, at)),
                      Handled(Notified(n, 1, false, None))]
    ensures IsRunningRun(l, states, turns)
    ensures CanTurn(states[6], ClosedChecked) && states[6].passing.Some? && ClosesEarly(states[6])
  {
    hide Turned, Handle;
    var first, second := Notified(n, 0, false, Some(at)), Notified(n, 1, false, None);
    FirstNotify(l, n, Some(at));
    var r1 := Turned(l, START, Handled(first));
    DueIsChecked(l, r1, at);
    var r2 := Turned(l, r1, SentOn(0));
    var r3 := Turned(l, r2, Read);
    var r4 := Turned(l, r3, Woke(at));
    var r5 := Turned(l, r4, Popped(Item(1, at)));
    SecondNotify(l, r5, n, None);
    var r6 := Turned(l, r5, Handled(second));
    FindMeans([n.(id := 1)], 1);
    assert n.(id := 1) in [n.(id := 1)];
    states := [START, r1, r2, r3, r4, r5, r6];
    turns := [Handled(first), SentOn(0), Read, Woke(at), Popped(Item(1, at)), Handled(second)];
  }
}
