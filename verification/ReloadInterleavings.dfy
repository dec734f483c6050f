/**
 The reload gate with its calls cut at their atomic operations. A request may pause between loading
 a busy state and marking it, and between a successful send and storing the state; the completion
 of a reload may pause after clearing the mark and after storing the idle state. Claims, failed
 sends and flushes stay whole.
 */
module ReloadInterleavings {
  import opened Support
  import opened ReloadModel

  /** Where the main loop stands inside a completion that found no mark. */
  datatype Phase = Swapped | IdleStored

  datatype Completion = Completion(kind: Kind, phase: Phase)

  /** The process, the watchers that paused inside a request, and the completion under way. */
  datatype Paused = Paused(p: Process, loads: multiset<Kind>, stores: multiset<Kind>, completing: Option<Completion>)

  datatype PausedEvent =
    | Whole(e: Event)
    | Loaded(kind: Kind)  // a request read a busy state; its change is on disk
    | Marked(kind: Kind)  // and now marks the slot
    | SentOn(kind: Kind)  // a request claimed the slot and its event is queued
    | Stored(kind: Kind)  // and now stores the state
    | SwappedOut          // a completion cleared a mark that was not set
    | WentIdle            // stored the idle state
    | Rechecked           // and looked at the mark again

  predicate FromOutside(e: Event) {
    e.Watched? || e.Produced?
  }

  predicate CanPause(f: Paused, e: PausedEvent) {
    match e
    case Whole(w) => Enabled(f.p, w) && (FromOutside(w) || f.completing.None?)
    case Loaded(kind) => SlotOf(f.p, kind).state != Idle
    case Marked(kind) => kind in f.loads
    case SentOn(kind) => SlotOf(f.p, kind).state == Idle && TrySend(f.p.channel, Reload(kind)).1 == Sent
    case Stored(kind) => kind in f.stores
    case SwappedOut =>
      && f.completing.None? && f.p.running.Some? && f.p.running.value.Reload?
      && !SlotOf(f.p, f.p.running.value.kind).dirtyAgain
    case WentIdle => f.completing.Some? && f.completing.value.phase == Swapped
    case Rechecked => f.completing.Some? && f.completing.value.phase == IdleStored
  }

  /** The rest of a completion, from its second look at the mark to the end of the event handler. */
  function Recheck(p: Process, kind: Kind): Process {
    var s := SlotOf(p, kind);
    var (s', c, needsTimer) :=
      if s.dirtyAgain then Request(s.(dirtyAgain := false), p.channel, kind) else (s, p.channel, false);
    var flushed := FlushBoth(WithSlot(p, kind, s').(channel := c));
    flushed.(starts := if needsTimer || HasPending(flushed) then p.starts + 1 else p.starts)
  }

  function PausedStep(f: Paused, e: PausedEvent): Paused
    requires CanPause(f, e)
  {
    match e
    case Whole(w) => f.(p := Step(f.p, w))
    case Loaded(kind) => f.(p := f.p.(unseen := f.p.unseen + {kind}), loads := f.loads + multiset{kind})
    case Marked(kind) =>
      f.(p := WithSlot(f.p, kind, SlotOf(f.p, kind).(dirtyAgain := true)), loads := f.loads - multiset{kind})
    case SentOn(kind) => f.(p := Watch(f.p, kind), stores := f.stores + multiset{kind})
    case Stored(kind) =>
      f.(p := WithSlot(f.p, kind, SlotOf(f.p, kind).(state := QueuedOrRunning)), stores := f.stores - multiset{kind})
    case SwappedOut => f.(completing := Some(Completion(f.p.running.value.kind, Swapped)))
    case WentIdle =>
      var kind := f.completing.value.kind;
      f.(p := WithSlot(f.p, kind, SlotOf(f.p, kind).(state := Idle)).(running := None),
         completing := Some(Completion(kind, IdleStored)))
    case Rechecked => f.(p := Recheck(f.p, f.completing.value.kind), completing := None)
  }

  // ---------------------------------------------------------------------------------------------
  // The invariant
  // ---------------------------------------------------------------------------------------------

  /** The mark of this kind is about to be looked at again. */
  predicate RecheckAhead(f: Paused, kind: Kind) {
    f.completing == Some(Completion(kind, IdleStored))
  }

  /** An idle slot carries a mark that the recheck will find. */
  predicate LeftMarked(f: Paused, kind: Kind) {
    RecheckAhead(f, kind) && SlotOf(f.p, kind).state == Idle && SlotOf(f.p, kind).dirtyAgain
  }

  /** The slot as it would be without a mark that the recheck will find. */
  function Unmarked(f: Paused, kind: Kind): Slot {
    if LeftMarked(f, kind) then FRESH_SLOT else SlotOf(f.p, kind)
  }

  /** Changes that neither a paused mark nor a recheck answers for. */
  function Unanswered(f: Paused): set<Kind> {
    set kind | kind in f.p.unseen && kind !in f.loads && !LeftMarked(f, kind)
  }

  /** The process as the whole-call protocol would see it. */
  function Seen(f: Paused): Process {
    f.p.(css := Unmarked(f, Css), config := Unmarked(f, Config), unseen := Unanswered(f))
  }

  ghost predicate PausedInv(f: Paused) {
    && Inv(Seen(f))
    && (f.completing.Some? ==>
          f.p.running == if f.completing.value.phase == Swapped then Some(Reload(f.completing.value.kind)) else None)
  }

  /**
   A mark must land on a busy slot, or before the recheck of the completion that made it idle; a
   late store must find the state it stores.
   */
  predicate Safe(f: Paused, e: PausedEvent) {
    match e
    case Marked(kind) => SlotOf(f.p, kind).state != Idle || RecheckAhead(f, kind)
    case Stored(kind) => SlotOf(f.p, kind).state == QueuedOrRunning
    case _ => true
  }

  lemma FewerUnseen(p: Process, unseen: set<Kind>)
    requires Inv(p) && unseen <= p.unseen
    ensures Inv(p.(unseen := unseen))
  {
  }

  lemma UnseenIsInert(p: Process, unseen: set<Kind>, e: Event)
    requires Enabled(p, e)
    ensures Enabled(p.(unseen := unseen), e)
    ensures var q := Step(p.(unseen := unseen), e);
      q.(unseen := {}) == Step(p, e).(unseen := {})
      && q.unseen == match e
           case Watched(kind) => unseen + {kind}
           case Taken => if p.channel.queue[0].Reload? then unseen - {p.channel.queue[0].kind} else unseen
           case _ => unseen
  {
  }

  // ---------------------------------------------------------------------------------------------
  // Every operation
  // ---------------------------------------------------------------------------------------------

  lemma MarkedBusyKeeps(p: Process, kind: Kind)
    requires Inv(p) && SlotOf(p, kind).state != Idle
    ensures Inv(WithSlot(p, kind, SlotOf(p, kind).(dirtyAgain := true)))
  {
    MarkIsSafeIff(p, kind);
    FewerUnseen(MarkAfterLoad(p, kind), p.unseen);
  }

  /** Requests leave a busy slot. */
  lemma WatchIsBusy(p: Process, kind: Kind)
    requires !p.channel.closed
    ensures SlotOf(Watch(p, kind), kind).state != Idle
  {
  }

  function Remarked(p: Process, kind: Kind): Process {
    WithSlot(p, kind, SlotOf(p, kind).(dirtyAgain := true))
  }

  /** A request as the whole-call protocol sees it; a mark left for the recheck stays on the slot. */
  lemma WatchIsSeen(f: Paused, kind: Kind)
    requires !f.p.channel.closed
    ensures var q, g := Watch(Seen(f), kind), f.(p := Watch(f.p, kind));
      && Unanswered(g) <= q.unseen
      && Seen(g) == (if LeftMarked(f, kind) then Remarked(q, kind) else q).(unseen := Unanswered(g))
  {
    WatchIsBusy(f.p, kind);
  }

  lemma WatchMeanwhile(f: Paused, kind: Kind)
    requires PausedInv(f)
    ensures PausedInv(f.(p := Watch(f.p, kind)))
  {
    var q, g := Watch(Seen(f), kind), f.(p := Watch(f.p, kind));
    StepKeeps(Seen(f), Watched(kind));
    WatchIsBusy(Seen(f), kind);
    WatchIsSeen(f, kind);
    hide Inv, Seen, Request, Unanswered, LeftMarked;
    MarkedBusyKeeps(q, kind);
    FewerUnseen(q, Unanswered(g));
    FewerUnseen(Remarked(q, kind), Unanswered(g));
  }

  lemma ProduceMeanwhile(f: Paused)
    requires PausedInv(f)
    ensures PausedInv(f.(p := Produce(f.p)))
  {
    StepKeeps(Seen(f), Produced);
    assert Seen(f.(p := Produce(f.p))) == Produce(Seen(f));
  }

  lemma StepBetween(f: Paused, e: Event)
    requires PausedInv(f) && f.completing.None? && Enabled(f.p, e)
    ensures PausedInv(f.(p := Step(f.p, e)))
  {
    var g := f.(p := Step(f.p, e));
    assert Seen(f) == f.p.(unseen := Unanswered(f));
    UnseenIsInert(f.p, Unanswered(f), e);
    StepKeeps(Seen(f), e);
    UnseenIsInert(f.p, f.p.unseen, e);
    var q := Step(Seen(f), e);
    assert Unanswered(g) <= q.unseen;
    FewerUnseen(q, Unanswered(g));
    assert Seen(g) == q.(unseen := Unanswered(g));
  }

  lemma MarkLate(f: Paused, kind: Kind)
    requires PausedInv(f) && CanPause(f, Marked(kind))
    ensures PausedInv(PausedStep(f, Marked(kind))) <==> Safe(f, Marked(kind))
  {
    var g := PausedStep(f, Marked(kind));
    if SlotOf(f.p, kind).state != Idle {
      MarkIsSafeIff(Seen(f), kind);
      FewerUnseen(MarkAfterLoad(Seen(f), kind), Unanswered(g));
      assert Seen(g) == MarkAfterLoad(Seen(f), kind).(unseen := Unanswered(g));
    } else if RecheckAhead(f, kind) {
      FewerUnseen(Seen(f), Unanswered(g));
      assert Seen(g) == Seen(f).(unseen := Unanswered(g));
    } else {
      assert !IdleIsClean(Seen(g), kind);
    }
  }

  lemma StoreLate(f: Paused, kind: Kind)
    requires PausedInv(f) && CanPause(f, Stored(kind))
    ensures PausedInv(PausedStep(f, Stored(kind))) <==> Safe(f, Stored(kind))
  {
    var g := PausedStep(f, Stored(kind));
    if Safe(f, Stored(kind)) {
      assert g.p == f.p;
      assert Seen(g) == Seen(f);
    } else {
      assert Represented(Seen(g), kind) == Represented(Seen(f), kind) == 0;
      assert !SlotTracksEvents(Seen(g), kind);
    }
  }

  lemma GoIdle(f: Paused)
    requires PausedInv(f) && CanPause(f, WentIdle)
    ensures PausedInv(PausedStep(f, WentIdle))
  {
    var kind, g := f.completing.value.kind, PausedStep(f, WentIdle);
    assert SlotTracksEvents(Seen(f), kind) && NotLost(Seen(f), kind);
    assert Seen(g) == WithSlot(Seen(f), kind, FRESH_SLOT).(running := None, unseen := Unanswered(g));
    assert Unanswered(g) <= Unanswered(f) - {kind};
  }

  /** What follows a completion: flush both slots, and start the timer if something is blocked. */
  lemma TailKeeps(p: Process, starts: nat, needsTimer: bool)
    requires Inv(p) && p.starts == if needsTimer then starts + 1 else starts
    ensures var flushed := FlushBoth(p.(starts := starts));
            Inv(flushed.(starts := if needsTimer || HasPending(flushed) then starts + 1 else starts))
  {
    FlushKeeps(p);
    FlushIgnoresStarts(p, starts);
    var flushed := FlushBoth(p);
    StartsOnlyHelp(flushed, if needsTimer || HasPending(flushed) then starts + 1 else starts);
  }

  /** What the recheck starts from: a request if a mark was left, else nothing. */
  function AtRecheck(f: Paused, kind: Kind): Process {
    if LeftMarked(f, kind) then Watch(Seen(f), kind) else Seen(f)
  }

  lemma RecheckIsSeen(f: Paused)
    requires CanPause(f, Rechecked) && !f.p.channel.closed
    ensures var kind, g := f.completing.value.kind, PausedStep(f, Rechecked);
      var q, starts := AtRecheck(f, kind), f.p.starts;
      var needsTimer := q.starts > starts;
      var flushed := FlushBoth(q.(starts := starts));
      && q.starts == (if needsTimer then starts + 1 else starts)
      && Unanswered(g) <= flushed.unseen
      && Seen(g) == flushed.(starts := if needsTimer || HasPending(flushed) then starts + 1 else starts,
                             unseen := Unanswered(g))
  {
  }

  lemma LookAgain(f: Paused)
    requires PausedInv(f) && CanPause(f, Rechecked)
    ensures PausedInv(PausedStep(f, Rechecked))
  {
    var kind, g := f.completing.value.kind, PausedStep(f, Rechecked);
    var q, starts := AtRecheck(f, kind), f.p.starts;
    if LeftMarked(f, kind) {
      StepKeeps(Seen(f), Watched(kind));
    }
    RecheckIsSeen(f);
    hide Inv, Seen, Request, Unanswered, LeftMarked, AtRecheck, FlushBoth;
    var needsTimer := q.starts > starts;
    TailKeeps(q, starts, needsTimer);
    var flushed := FlushBoth(q.(starts := starts));
    FewerUnseen(flushed.(starts := if needsTimer || HasPending(flushed) then starts + 1 else starts), Unanswered(g));
  }

  lemma LoadEarly(f: Paused, kind: Kind)
    requires PausedInv(f) && CanPause(f, Loaded(kind))
    ensures PausedInv(PausedStep(f, Loaded(kind)))
  {
    var g := PausedStep(f, Loaded(kind));
    FewerUnseen(Seen(f), Unanswered(g));
    assert Seen(g) == Seen(f).(unseen := Unanswered(g));
  }

  lemma SendEarly(f: Paused, kind: Kind)
    requires PausedInv(f) && CanPause(f, SentOn(kind))
    ensures PausedInv(PausedStep(f, SentOn(kind)))
  {
    WatchMeanwhile(f, kind);
    hide Inv;
    assert Seen(PausedStep(f, SentOn(kind))) == Seen(f.(p := Watch(f.p, kind)));
  }

  lemma SwapOut(f: Paused)
    requires PausedInv(f) && CanPause(f, SwappedOut)
    ensures PausedInv(PausedStep(f, SwappedOut))
  {
    hide Inv;
    assert Seen(PausedStep(f, SwappedOut)) == Seen(f);
  }

  lemma WholeKeeps(f: Paused, e: Event)
    requires PausedInv(f) && CanPause(f, Whole(e))
    ensures PausedInv(PausedStep(f, Whole(e)))
  {
    hide Inv, Seen;
    if e.Watched? {
      WatchMeanwhile(f, e.kind);
    } else if e.Produced? {
      ProduceMeanwhile(f);
    } else {
      StepBetween(f, e);
    }
  }

  /** Each operation keeps the protocol exactly when it is safe. */
  lemma StepKeepsIff(f: Paused, e: PausedEvent)
    requires PausedInv(f) && CanPause(f, e)
    ensures PausedInv(PausedStep(f, e)) <==> Safe(f, e)
  {
    hide PausedInv, PausedStep, CanPause;
    match e
    case Whole(w) => WholeKeeps(f, w);
    case Loaded(kind) => LoadEarly(f, kind);
    case Marked(kind) => MarkLate(f, kind);
    case SentOn(kind) => SendEarly(f, kind);
    case Stored(kind) => StoreLate(f, kind);
    case SwappedOut => SwapOut(f);
    case WentIdle => GoIdle(f);
    case Rechecked => LookAgain(f);
  }

  // ---------------------------------------------------------------------------------------------
  // Runs
  // ---------------------------------------------------------------------------------------------

  function Start(capacity: nat): Paused {
    Paused(ReloadModel.Initial(capacity), multiset{}, multiset{}, None)
  }

  ghost predicate IsPausedRun(capacity: nat, states: seq<Paused>, events: seq<PausedEvent>) {
    && |states| == |events| + 1 && states[0] == Start(capacity)
    && (forall i :: 0 <= i < |events| ==> CanPause(states[i], events[i]))
    && (forall i :: 0 <= i < |events| ==> states[i + 1] == PausedStep(states[i], events[i]))
  }

  /** Some request, queued event, handler, retry or recheck answers for the latest change of this kind. */
  predicate Covered(f: Paused, kind: Kind) {
    || kind !in f.p.unseen
    || Count(f.p.channel.queue, kind) > 0
    || (f.p.running == Some(Reload(kind)) && SlotOf(f.p, kind).dirtyAgain)
    || (SlotOf(f.p, kind).state == PendingRetry && (f.p.timer || f.p.starts > 0))
    || kind in f.loads
    || LeftMarked(f, kind)
  }

  lemma InvCovers(f: Paused, kind: Kind)
    requires PausedInv(f)
    ensures Covered(f, kind)
  {
    assert NotLost(Seen(f), kind);
  }

  lemma {:induction false} SafeRunKeeps(capacity: nat, states: seq<Paused>, events: seq<PausedEvent>, i: nat)
    requires IsPausedRun(capacity, states, events) && i < |states|
    requires forall j :: 0 <= j < i ==> Safe(states[j], events[j])
    ensures PausedInv(states[i])
  {
    if i > 0 {
      SafeRunKeeps(capacity, states, events, i - 1);
      StepKeepsIff(states[i - 1], events[i - 1]);
    }
  }

  /**
   With calls paused between their atomic operations, a run keeps the protocol throughout exactly
   when every late mark lands on a busy slot or before a recheck, and every late store finds the
   state it stores; while it does, every change is covered.
   */
  lemma RunKeepsIff(capacity: nat, states: seq<Paused>, events: seq<PausedEvent>)
    requires IsPausedRun(capacity, states, events)
    ensures (forall i :: 0 <= i < |states| ==> PausedInv(states[i])) <==>
              forall i :: 0 <= i < |events| ==> Safe(states[i], events[i])
    ensures (forall i :: 0 <= i < |events| ==> Safe(states[i], events[i])) ==>
              forall i, kind :: 0 <= i < |states| ==> Covered(states[i], kind)
  {
    if forall i :: 0 <= i < |events| ==> Safe(states[i], events[i]) {
      forall i | 0 <= i < |states|
        ensures PausedInv(states[i]) && forall kind :: Covered(states[i], kind)
      {
        SafeRunKeeps(capacity, states, events, i);
        forall kind
          ensures Covered(states[i], kind)
        {
          InvCovers(states[i], kind);
        }
      }
    }
    if forall i :: 0 <= i < |states| ==> PausedInv(states[i]) {
      forall i | 0 <= i < |events|
        ensures Safe(states[i], events[i])
      {
        assert PausedInv(states[i]) && PausedInv(states[i + 1]);
        StepKeepsIff(states[i], events[i]);
      }
    }
  }

  /** What the recheck is for: a mark that lands during a completion is never late. */
  lemma MarksDuringCompletionAreSafe(f: Paused)
    requires PausedInv(f) && f.completing.Some?
    ensures Safe(f, Marked(f.completing.value.kind))
  {
    var kind := f.completing.value.kind;
    assert SlotTracksEvents(Seen(f), kind);
  }

  /** A mark that lands too late loses its change, unless a later reload has read it or another mark is due. */
  lemma LateMarkLosesIff(f: Paused, kind: Kind)
    requires PausedInv(f) && kind in f.loads && !Safe(f, Marked(kind))
    ensures var g := PausedStep(f, Marked(kind));
            Covered(g, kind) <==> kind !in g.p.unseen || kind in g.loads
  {
    assert SlotTracksEvents(Seen(f), kind);
  }

  /** After a store that came too late, the next change is covered only if another mark is due. */
  lemma LateStoreLosesIff(f: Paused, kind: Kind)
    requires PausedInv(f) && kind in f.stores && !Safe(f, Stored(kind))
    ensures var h := PausedStep(PausedStep(f, Stored(kind)), Whole(Watched(kind)));
            Covered(h, kind) <==> kind in f.loads
  {
    assert SlotTracksEvents(Seen(f), kind);
  }

  /** What the main context and the paused calls can still do without a new change. */
  predicate Quiet(f: Paused) {
    && f.p.running.None? && f.p.channel.queue == [] && f.p.starts == 0 && !f.p.timer
    && f.loads == multiset{} && f.stores == multiset{} && f.completing.None?
  }

  /** The handler completes between a request's load and its mark: the change is never read. */
  lemma SplitRequestLosesChange(capacity: nat)
    requires capacity >= 1
    ensures var f0 := Start(capacity);
            var f1 := PausedStep(f0, Whole(Watched(Css)));
            var f2 := PausedStep(f1, Whole(Taken));
            var f3 := PausedStep(f2, Loaded(Css));
            var f4 := PausedStep(f3, Whole(Finished));
            var f5 := PausedStep(f4, Marked(Css));
            !Safe(f4, Marked(Css)) && Quiet(f5) && !Covered(f5, Css)
  {
    var f1 := PausedStep(Start(capacity), Whole(Watched(Css)));
    assert f1.p.channel.queue == [Reload(Css)];
  }

  /** The reload runs and completes between a send and its store: later changes only mark a dead slot. */
  lemma LateStoreLosesChange(capacity: nat)
    requires capacity >= 1
    ensures var f0 := Start(capacity);
            var f1 := PausedStep(f0, SentOn(Css));
            var f2 := PausedStep(f1, Whole(Taken));
            var f3 := PausedStep(f2, Whole(Finished));
            var f4 := PausedStep(f3, Stored(Css));
            var f5 := PausedStep(f4, Whole(Watched(Css)));
            !Safe(f3, Stored(Css)) && Quiet(f5) && !Covered(f5, Css)
  {
    var f1 := PausedStep(Start(capacity), SentOn(Css));
    assert f1.p.channel.queue == [Reload(Css)];
  }
}
