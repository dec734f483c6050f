/** Counting reloads: none without a change, one for any number of changes that wait together. */
module ReloadCounts {
  import opened Support
  import opened ReloadModel

  /** Changes of this kind reported along a run. */
  function Reported(events: seq<Event>, kind: Kind): nat {
    if events == [] then 0
    else Reported(events[..|events| - 1], kind) + if events[|events| - 1] == Watched(kind) then 1 else 0
  }

  /** Reloads of this kind started along a run. */
  function Started(states: seq<Process>, events: seq<Event>, kind: Kind): nat
    requires |states| == |events| + 1
  {
    if events == [] then 0
    else
      var n := |events| - 1;
      Started(states[..n + 1], events[..n], kind) + StartsNow(states[n], events[n], kind)
  }

  function StartsNow(p: Process, e: Event, kind: Kind): nat {
    if e.Taken? && p.channel.queue != [] && p.channel.queue[0] == Reload(kind) then 1 else 0
  }

  /** Reloads still to come: queued, waiting for room, or marked to go again. */
  function Owed(p: Process, kind: Kind): nat {
    Count(p.channel.queue, kind) + Waiting(SlotOf(p, kind))
  }

  function Waiting(s: Slot): nat {
    (if s.state == PendingRetry then 1 else 0) + if s.dirtyAgain then 1 else 0
  }

  lemma RequestOwes(s: Slot, c: Channel, kind: Kind, other: Kind)
    requires !c.closed
    ensures var (s', c', _) := Request(s, c, kind);
            && (s'.state == PendingRetry || s'.state == QueuedOrRunning)
            && (other != kind ==> Count(c'.queue, other) == Count(c.queue, other))
            && Count(c'.queue, kind) + Waiting(s') <= 1 + Count(c.queue, kind) + Waiting(s)
  {
    SendCounts(c, Reload(kind));
  }

  lemma FlushOwes(p: Process, kind: Kind)
    requires !p.channel.closed
    ensures Owed(FlushBoth(p), kind) <= Owed(p, kind)
  {
    SendCounts(p.channel, Reload(Css));
    SendCounts(Flush(p.css, p.channel, Css).1, Reload(Config));
  }

  lemma FinishOwes(p: Process, kind: Kind)
    requires !p.channel.closed && p.running.Some?
    ensures Owed(Finish(p), kind) <= Owed(p, kind)
  {
    var e := p.running.value;
    if e.Reload? {
      SendCounts(p.channel, Reload(e.kind));
      var (s, c, _) := Complete(SlotOf(p, e.kind), p.channel, e.kind);
      FlushOwes(WithSlot(p, e.kind, s).(channel := c, running := None), kind);
    } else {
      FlushOwes(p.(running := None), kind);
    }
  }

  lemma StepOwes(p: Process, e: Event, kind: Kind)
    requires !p.channel.closed && Enabled(p, e)
    ensures StartsNow(p, e, kind) + Owed(Step(p, e), kind) <= Owed(p, kind) + if e == Watched(kind) then 1 else 0
  {
    match e
    case Watched(k) => RequestOwes(SlotOf(p, k), p.channel, k, kind);
    case Produced => SendCounts(p.channel, Other);
    case Taken =>
    case Finished => FinishOwes(p, kind);
    case TimerStarted =>
    case Ticked => FlushOwes(p, kind);
  }

  /** No reload without a change: at every moment at most as many have started as changes were reported. */
  lemma {:induction false} NoNeedlessReload(capacity: nat, states: seq<Process>, events: seq<Event>, kind: Kind)
    requires IsRun(capacity, states, events)
    ensures Started(states, events, kind) + Owed(states[|events|], kind) <= Reported(events, kind)
    decreases |events|
  {
    if events != [] {
      var n := |events| - 1;
      assert IsRun(capacity, states[..n + 1], events[..n]);
      NoNeedlessReload(capacity, states[..n + 1], events[..n], kind);
      NoReloadLost(capacity, states, events, n);
      StepOwes(states[n], events[n], kind);
    }
  }

  function RequestTimes(s: Slot, c: Channel, kind: Kind, n: nat): Slot {
    if n == 0 then s else Request(RequestTimes(s, c, kind, n - 1), c, kind).0
  }

  /**
   However many changes come in while a reload waits for room, the send that gets through covers
   them all: one event is queued, and handling it leaves the slot idle.
   */
  lemma {:induction false} WaitingChangesShareReload(s: Slot, c: Channel, kind: Kind, n: nat)
    requires s.state == PendingRetry && !c.closed && |c.queue| < c.capacity
    ensures var waiting := RequestTimes(s, c, kind, n);
            var (sent, c') := Flush(waiting, c, kind);
            && waiting.state == PendingRetry
            && c'.queue == c.queue + [Reload(kind)]
            && Complete(sent, c', kind) == (Slot(Idle, false), c', false)
  {
    if n > 0 {
      WaitingChangesShareReload(s, c, kind, n - 1);
    }
  }

  function SendEach(c: Channel, events: seq<UiEvent>): Channel {
    if events == [] then c else TrySend(SendEach(c, events[..|events| - 1]), events[|events| - 1]).0
  }

  /** The queue takes events in order until it is full, and none when it is closed. */
  lemma {:induction false} QueueIsInOrder(c: Channel, events: seq<UiEvent>)
    requires |c.queue| <= c.capacity
    ensures var room := c.capacity - |c.queue|;
            SendEach(c, events) ==
              if c.closed then c
              else c.(queue := c.queue + if |events| <= room then events else events[..room])
  {
    if events == [] {
      assert c.queue + [] == c.queue;
    } else {
      QueueIsInOrder(c, events[..|events| - 1]);
      assert events == events[..|events| - 1] + [events[|events| - 1]];
    }
  }

  /** On a closed queue every call leaves an idle slot without a mark, and asks for no timer. */
  lemma ClosedQueueEndsReloads(s: Slot, c: Channel, kind: Kind)
    requires c.closed
    ensures s.state == Idle ==> Request(s, c, kind) == (Slot(Idle, false), c, false)
    ensures s.state == PendingRetry ==> Flush(s, c, kind) == (Slot(Idle, false), c)
    ensures Complete(s, c, kind) == (Slot(Idle, false), c, false)
  {
  }
}
