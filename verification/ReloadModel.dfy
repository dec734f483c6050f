/**
 Reload coalescing for the popup process: file watchers request CSS and config reloads, a bounded
 queue carries them to the main loop, and a retry timer keeps trying while the queue is full.
 Each slot call is one atomic step; the channel stays open.
 */
module ReloadModel {
  import opened Support

  datatype Kind = Css | Config

  /** Queue traffic: reload events, and every other UI event. */
  datatype UiEvent = Reload(kind: Kind) | Other

  datatype SlotState = Idle | PendingRetry | QueuedOrRunning

  datatype Slot = Slot(state: SlotState, dirtyAgain: bool)

  const FRESH_SLOT := Slot(Idle, false)

  /** A bounded queue that may be closed on the receiving side. */
  datatype Channel = Channel(queue: seq<UiEvent>, capacity: nat, closed: bool)

  datatype SendResult = Sent | Full | Closed

  function TrySend(c: Channel, e: UiEvent): (Channel, SendResult) {
    if c.closed then (c, Closed)
    else if |c.queue| >= c.capacity then (c, Full)
    else (c.(queue := c.queue + [e]), Sent)
  }

  // ---------------------------------------------------------------------------------------------
  // Slot calls; the boolean asks the caller to start the retry timer
  // ---------------------------------------------------------------------------------------------

  function Dispatch(s: Slot, c: Channel, kind: Kind): (Slot, Channel, bool) {
    var (c', result) := TrySend(c, Reload(kind));
    match result
    case Sent => (s.(state := QueuedOrRunning), c', false)
    case Full => (s.(state := PendingRetry), c', true)
    case Closed => (FRESH_SLOT, c', false)
  }

  function Request(s: Slot, c: Channel, kind: Kind): (Slot, Channel, bool) {
    if s.state == Idle then Dispatch(s.(state := QueuedOrRunning), c, kind)
    else (s.(dirtyAgain := true), c, false)
  }

  function Flush(s: Slot, c: Channel, kind: Kind): (Slot, Channel) {
    if s.state != PendingRetry then (s, c)
    else
      var (c', result) := TrySend(c, Reload(kind));
      match result
      case Sent => (Slot(QueuedOrRunning, false), c')
      case Full => (s, c')
      case Closed => (FRESH_SLOT, c')
  }

  function Complete(s: Slot, c: Channel, kind: Kind): (Slot, Channel, bool) {
    if s.dirtyAgain then Dispatch(s.(dirtyAgain := false), c, kind)
    else (Slot(Idle, false), c, false)
  }

  // ---------------------------------------------------------------------------------------------
  // The process
  // ---------------------------------------------------------------------------------------------

  /**
   `running` is the event the main loop is handling; `timer` says a retry source is installed;
   `starts` counts timer starts handed to the main context but not run yet. `unseen` is not
   program state: it records the kinds whose latest change no started reload has read.
   */
  datatype Process = Process(
    css: Slot, config: Slot, channel: Channel,
    running: Option<UiEvent>, timer: bool, starts: nat,
    unseen: set<Kind>)

  function SlotOf(p: Process, kind: Kind): Slot {
    if kind == Css then p.css else p.config
  }

  function WithSlot(p: Process, kind: Kind, s: Slot): Process {
    if kind == Css then p.(css := s) else p.(config := s)
  }

  predicate HasPending(p: Process) {
    p.css.state == PendingRetry || p.config.state == PendingRetry
  }

  /** ReloadGate::flush: CSS first, then config. */
  function FlushBoth(p: Process): Process {
    var (css, c1) := Flush(p.css, p.channel, Css);
    var (config, c2) := Flush(p.config, c1, Config);
    p.(css := css, config := config, channel := c2)
  }

  /** A watcher reports a change. */
  function Watch(p: Process, kind: Kind): Process {
    var (s, c, needsTimer) := Request(SlotOf(p, kind), p.channel, kind);
    WithSlot(p, kind, s).(
      channel := c,
      starts := if needsTimer then p.starts + 1 else p.starts,
      unseen := p.unseen + {kind})
  }

  /** Any other producer tries to queue an event. */
  function Produce(p: Process): Process {
    p.(channel := TrySend(p.channel, Other).0)
  }

  /** The main loop takes the next event; a reload reads the files as they are now. */
  function Take(p: Process): Process
    requires p.running.None? && p.channel.queue != []
  {
    var e := p.channel.queue[0];
    p.(channel := p.channel.(queue := p.channel.queue[1..]),
       running := Some(e),
       unseen := if e.Reload? then p.unseen - {e.kind} else p.unseen)
  }

  /** The handler returns: complete the slot, reuse the free queue space, maybe start the timer. */
  function Finish(p: Process): Process
    requires p.running.Some?
  {
    var e := p.running.value;
    var (done, needsTimer) :=
      if e.Reload? then
        var (s, c, retry) := Complete(SlotOf(p, e.kind), p.channel, e.kind);
        (WithSlot(p, e.kind, s).(channel := c), retry)
      else (p, false);
    var flushed := FlushBoth(done.(running := None));
    flushed.(starts := if needsTimer || HasPending(flushed) then p.starts + 1 else p.starts)
  }

  function StartTimer(p: Process): Process
    requires p.starts > 0
  {
    p.(timer := true, starts := p.starts - 1)
  }

  function Tick(p: Process): Process
    requires p.timer
  {
    var flushed := FlushBoth(p);
    flushed.(timer := HasPending(flushed))
  }

  datatype Event = Watched(kind: Kind) | Produced | Taken | Finished | TimerStarted | Ticked

  predicate Enabled(p: Process, e: Event) {
    match e
    case Watched(_) => true
    case Produced => true
    case Taken => p.running.None? && p.channel.queue != []
    case Finished => p.running.Some?
    case TimerStarted => p.starts > 0
    case Ticked => p.timer
  }

  function Step(p: Process, e: Event): Process
    requires Enabled(p, e)
  {
    match e
    case Watched(kind) => Watch(p, kind)
    case Produced => Produce(p)
    case Taken => Take(p)
    case Finished => Finish(p)
    case TimerStarted => StartTimer(p)
    case Ticked => Tick(p)
  }

  function Initial(capacity: nat): Process {
    Process(FRESH_SLOT, FRESH_SLOT, Channel([], capacity, false), None, false, 0, {})
  }

  ghost predicate IsRun(capacity: nat, states: seq<Process>, events: seq<Event>) {
    && |states| == |events| + 1 && states[0] == Initial(capacity)
    && forall i :: 0 <= i < |events| ==> Enabled(states[i], events[i]) && states[i + 1] == Step(states[i], events[i])
  }

  // ---------------------------------------------------------------------------------------------
  // Invariant
  // ---------------------------------------------------------------------------------------------

  function Count(queue: seq<UiEvent>, kind: Kind): nat {
    if queue == [] then 0
    else (if queue[0] == Reload(kind) then 1 else 0) + Count(queue[1..], kind)
  }

  /** Reload events of a kind that are queued or being handled. */
  function Represented(p: Process, kind: Kind): nat {
    Count(p.channel.queue, kind) + if p.running == Some(Reload(kind)) then 1 else 0
  }

  /** The slot says QueuedOrRunning exactly when one event stands for it; never more than one. */
  ghost predicate SlotTracksEvents(p: Process, kind: Kind) {
    Represented(p, kind) == if SlotOf(p, kind).state == QueuedOrRunning then 1 else 0
  }

  /** An idle slot has nothing left to report. */
  ghost predicate IdleIsClean(p: Process, kind: Kind) {
    SlotOf(p, kind).state == Idle ==> !SlotOf(p, kind).dirtyAgain
  }

  ghost predicate NotLost(p: Process, kind: Kind) {
    kind in p.unseen ==>
      || Count(p.channel.queue, kind) > 0
      || (p.running == Some(Reload(kind)) && SlotOf(p, kind).dirtyAgain)
      || (SlotOf(p, kind).state == PendingRetry && (p.timer || p.starts > 0))
  }

  ghost predicate RetryArmed(p: Process) {
    HasPending(p) ==> p.timer || p.starts > 0
  }

  ghost predicate Inv(p: Process) {
    && !p.channel.closed
    && |p.channel.queue| <= p.channel.capacity
    && SlotTracksEvents(p, Css) && SlotTracksEvents(p, Config)
    && IdleIsClean(p, Css) && IdleIsClean(p, Config)
    && NotLost(p, Css) && NotLost(p, Config)
    && RetryArmed(p)
  }

  lemma {:induction false} CountAppend(queue: seq<UiEvent>, e: UiEvent, kind: Kind)
    ensures Count(queue + [e], kind) == Count(queue, kind) + if e == Reload(kind) then 1 else 0
  {
    if queue == [] {
    } else {
      CountAppend(queue[1..], e, kind);
      assert (queue + [e])[1..] == queue[1..] + [e];
    }
  }

  lemma SendCounts(c: Channel, e: UiEvent)
    ensures forall kind :: Count(TrySend(c, e).0.queue, kind) == Count(c.queue, kind)
              + if TrySend(c, e).1 == Sent && e == Reload(kind) then 1 else 0
  {
    forall kind
      ensures Count(TrySend(c, e).0.queue, kind) == Count(c.queue, kind)
                + if TrySend(c, e).1 == Sent && e == Reload(kind) then 1 else 0
    {
      CountAppend(c.queue, e, kind);
    }
  }

  lemma WatchKeeps(p: Process, kind: Kind)
    requires Inv(p)
    ensures Inv(Watch(p, kind))
  {
    SendCounts(p.channel, Reload(kind));
  }

  lemma FlushKeeps(p: Process)
    requires Inv(p)
    ensures Inv(FlushBoth(p))
    ensures forall kind :: SlotOf(FlushBoth(p), kind).state == PendingRetry ==> SlotOf(p, kind).state == PendingRetry
  {
    SendCounts(p.channel, Reload(Css));
    SendCounts(Flush(p.css, p.channel, Css).1, Reload(Config));
  }

  lemma TakeKeeps(p: Process)
    requires Inv(p) && p.running.None? && p.channel.queue != []
    ensures Inv(Take(p))
  {
  }

  /** Completing a slot, before the free queue space is offered to other retries. */
  lemma CompleteKeeps(p: Process)
    requires Inv(p) && p.running.Some? && p.running.value.Reload?
    ensures var kind := p.running.value.kind;
            var (s, c, retry) := Complete(SlotOf(p, kind), p.channel, kind);
            var done := WithSlot(p, kind, s).(channel := c, running := None);
            && Inv(done.(starts := if retry then p.starts + 1 else p.starts))
            && (retry <==> SlotOf(done, kind).state == PendingRetry)
  {
    var kind := p.running.value.kind;
    SendCounts(p.channel, Reload(kind));
  }

  lemma FinishKeeps(p: Process)
    requires Inv(p) && p.running.Some?
    ensures Inv(Finish(p))
  {
    var e := p.running.value;
    if e.Reload? {
      CompleteKeeps(p);
      var (s, c, retry) := Complete(SlotOf(p, e.kind), p.channel, e.kind);
      var done := WithSlot(p, e.kind, s).(
        channel := c, running := None, starts := if retry then p.starts + 1 else p.starts);
      FlushKeeps(done);
      FlushIgnoresStarts(done, p.starts);
      StartsOnlyHelp(FlushBoth(done), Finish(p).starts);
    } else {
      var done := p.(running := None);
      FlushKeeps(done);
      StartsOnlyHelp(FlushBoth(done), Finish(p).starts);
    }
  }

  lemma FlushIgnoresStarts(p: Process, starts: nat)
    ensures FlushBoth(p.(starts := starts)) == FlushBoth(p).(starts := starts)
  {
  }

  lemma StartsOnlyHelp(p: Process, starts: nat)
    requires Inv(p) && (starts >= p.starts || !HasPending(p))
    ensures Inv(p.(starts := starts))
  {
  }

  lemma StepKeeps(p: Process, e: Event)
    requires Inv(p) && Enabled(p, e)
    ensures Inv(Step(p, e))
    ensures Step(p, e).channel.capacity == p.channel.capacity
  {
    match e
    case Watched(kind) => WatchKeeps(p, kind);
    case Produced => SendCounts(p.channel, Other);
    case Taken => TakeKeeps(p);
    case Finished => FinishKeeps(p);
    case TimerStarted =>
    case Ticked => FlushKeeps(p);
  }

  /**
   No reload is lost, in any run: a change no started reload has read is still covered by a queued
   event, by a running handler that must go again, or by a pending retry whose timer is installed
   or about to be; and at most one event per kind is ever queued or running.
   */
  lemma {:induction false} NoReloadLost(capacity: nat, states: seq<Process>, events: seq<Event>, i: nat)
    requires IsRun(capacity, states, events) && i < |states|
    ensures Inv(states[i]) && states[i].channel.capacity == capacity
    ensures Represented(states[i], Css) <= 1 && Represented(states[i], Config) <= 1
  {
    if i == 0 {
    } else {
      NoReloadLost(capacity, states, events, i - 1);
      StepKeeps(states[i - 1], events[i - 1]);
    }
  }

  // ---------------------------------------------------------------------------------------------
  // Eventual consistency
  // ---------------------------------------------------------------------------------------------

  /** The steps of the main context: the others come from watchers and other producers. */
  predicate Own(e: Event) {
    e.Taken? || e.Finished? || e.TimerStarted? || e.Ticked?
  }

  /** A timer tick that finds every retry still blocked. */
  predicate Stutters(p: Process, e: Event) {
    e.Ticked? && HasPending(p) && |p.channel.queue| >= p.channel.capacity
  }

  /** A step of the main context that gets something done. */
  predicate Advances(p: Process, e: Event) {
    Own(e) && Enabled(p, e) && !Stutters(p, e)
  }

  function SlotWeight(s: Slot): nat {
    (if s.state == PendingRetry then 5 else 0) + if s.dirtyAgain then 8 else 0
  }

  /** Work left for the main context. */
  function Weight(p: Process): nat {
    SlotWeight(p.css) + SlotWeight(p.config) + 4 * |p.channel.queue|
    + (if p.running.Some? then 3 else 0) + 2 * p.starts + if p.timer then 1 else 0
  }

  lemma FlushBothWeight(p: Process)
    requires !p.channel.closed
    ensures Weight(FlushBoth(p)) <= Weight(p)
    ensures HasPending(p) && |p.channel.queue| < p.channel.capacity ==> Weight(FlushBoth(p)) < Weight(p)
    ensures FlushBoth(p).running == p.running && FlushBoth(p).starts == p.starts && FlushBoth(p).timer == p.timer
  {
  }

  lemma CompleteWeight(s: Slot, c: Channel, kind: Kind)
    requires !c.closed && s.state == QueuedOrRunning
    ensures var (s', c', _) := Complete(s, c, kind);
            && !c'.closed
            && SlotWeight(s') + 4 * |c'.queue| <= SlotWeight(s) + 4 * |c.queue|
  {
  }

  lemma FinishDescends(p: Process)
    requires Inv(p) && p.running.Some?
    ensures Weight(Finish(p)) < Weight(p)
  {
    var e := p.running.value;
    if e.Reload? {
      CompleteWeight(SlotOf(p, e.kind), p.channel, e.kind);
      var (s, c, _) := Complete(SlotOf(p, e.kind), p.channel, e.kind);
      FlushBothWeight(WithSlot(p, e.kind, s).(channel := c, running := None));
    } else {
      FlushBothWeight(p.(running := None));
    }
  }

  /** Every step of the main context lowers the work left, except a blocked tick, which changes nothing. */
  lemma OwnStepsDescend(p: Process, e: Event)
    requires Inv(p) && p.channel.capacity >= 1 && Own(e) && Enabled(p, e)
    ensures if Stutters(p, e) then Step(p, e) == p else Weight(Step(p, e)) < Weight(p)
  {
    match e
    case Finished => FinishDescends(p);
    case Ticked => FlushBothWeight(p);
    case _ =>
  }

  /** All changes are read, and the slots are ready for new ones. */
  ghost predicate Settled(p: Process) {
    && p.unseen == {} && p.channel.queue == [] && p.running.None?
    && p.css == FRESH_SLOT && p.config == FRESH_SLOT
  }

  /** When the main context cannot advance, everything has been read. */
  lemma StuckIsSettled(p: Process)
    requires Inv(p) && p.channel.capacity >= 1
    requires forall e :: !Advances(p, e)
    ensures Settled(p)
  {
    assert !Advances(p, Finished) && !Advances(p, Taken) && !Advances(p, TimerStarted) && !Advances(p, Ticked);
    assert NotLost(p, Css) && NotLost(p, Config);
    forall kind: Kind
      ensures kind !in p.unseen
    {
      assert kind == Css || kind == Config;
    }
  }

  /** Steps of the main context, in any order, while nobody produces anything new. */
  ghost predicate IsOwnRun(states: seq<Process>, events: seq<Event>) {
    && |states| == |events| + 1
    && forall i :: 0 <= i < |events| ==>
         Own(events[i]) && Enabled(states[i], events[i]) && states[i + 1] == Step(states[i], events[i])
  }

  /** How many steps of a run were not blocked ticks. */
  ghost function Advanced(states: seq<Process>, events: seq<Event>): nat
    requires |states| == |events| + 1
  {
    if events == [] then 0
    else
      Advanced(states[..|events|], events[..|events| - 1])
      + if Stutters(states[|events| - 1], events[|events| - 1]) then 0 else 1
  }

  /**
   Once changes stop, the main context alone gets every change read, whatever order it takes its
   steps in and whatever the queue, slots and timer looked like: it can advance only as often as
   there is work left, and when it cannot advance any more everything has been read.
   */
  lemma {:induction false} ChangesAreEventuallySeen(states: seq<Process>, events: seq<Event>)
    requires IsOwnRun(states, events) && Inv(states[0]) && states[0].channel.capacity >= 1
    ensures var last := states[|events|];
      && Inv(last) && last.channel.capacity == states[0].channel.capacity
      && Advanced(states, events) + Weight(last) <= Weight(states[0])
      && (Settled(last) || exists e :: Advances(last, e))
    decreases |events|
  {
    var last := states[|events|];
    if events != [] {
      var n := |events| - 1;
      ChangesAreEventuallySeen(states[..n + 1], events[..n]);
      OwnStepsDescend(states[n], events[n]);
      StepKeeps(states[n], events[n]);
    }
    if forall e :: !Advances(last, e) {
      StuckIsSettled(last);
    }
  }

  // ---------------------------------------------------------------------------------------------
  // A request that has already looked at the slot
  // ---------------------------------------------------------------------------------------------

  /** The second half of a request that read a busy slot: it only marks the slot. */
  function MarkAfterLoad(p: Process, kind: Kind): Process {
    WithSlot(p, kind, SlotOf(p, kind).(dirtyAgain := true)).(unseen := p.unseen + {kind})
  }

  /** The late mark keeps its change, and the whole protocol, exactly when the slot is still busy. */
  lemma MarkIsSafeIff(p: Process, kind: Kind)
    requires Inv(p)
    ensures NotLost(MarkAfterLoad(p, kind), kind) <==> SlotOf(p, kind).state != Idle
    ensures Inv(MarkAfterLoad(p, kind)) <==> SlotOf(p, kind).state != Idle
  {
  }
}
