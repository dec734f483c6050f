/** The popup process's reload gate and event loop over mutable state. */
module ReloadGates {
  import opened Support
  import opened ReloadModel

  /** The bounded UI queue. */
  class UiChannel {
    const capacity: nat
    var queue: seq<UiEvent>
    var closed: bool

    ghost function View(): Channel
      reads this
    {
      Channel(queue, capacity, closed)
    }

    constructor (capacity: nat)
      ensures View() == Channel([], capacity, false)
    {
      this.capacity := capacity;
      queue, closed := [], false;
    }

    method TrySend(e: UiEvent) returns (result: SendResult)
      modifies this`queue
      ensures (View(), result) == ReloadModel.TrySend(old(View()), e)
    {
      if closed {
        return SendResult.Closed;
      }
      if |queue| >= capacity {
        return Full;
      }
      queue := queue + [e];
      return Sent;
    }
  }

  class ReloadSlot {
    var state: SlotState
    var dirtyAgain: bool

    ghost function View(): Slot
      reads this
    {
      Slot(state, dirtyAgain)
    }

    constructor ()
      ensures View() == FRESH_SLOT
    {
      state, dirtyAgain := Idle, false;
    }

    method HasRetryPending() returns (pending: bool)
      ensures pending <==> View().state == PendingRetry
    {
      pending := state == PendingRetry;
    }

    /** Claims an idle slot, or notes that a busy one must go again. */
    method Request(sender: UiChannel, kind: Kind) returns (needsTimer: bool)
      modifies this, sender`queue
      ensures (View(), sender.View(), needsTimer) == ReloadModel.Request(old(View()), old(sender.View()), kind)
    {
      match state {
        case Idle =>
          state := QueuedOrRunning;
          needsTimer := Dispatch(sender, kind);
        case PendingRetry | QueuedOrRunning =>
          dirtyAgain := true;
          needsTimer := false;
      }
    }

    /** Retries a blocked send; the queued event covers every change seen so far. */
    method Flush(sender: UiChannel, kind: Kind)
      modifies this, sender`queue
      ensures (View(), sender.View()) == ReloadModel.Flush(old(View()), old(sender.View()), kind)
    {
      if state != PendingRetry {
        return;
      }
      var hadTrailingChange := dirtyAgain;
      dirtyAgain := false;
      var result := sender.TrySend(Reload(kind));
      match result {
        case Sent =>
          state := QueuedOrRunning;
        case Full =>
          if hadTrailingChange {
            dirtyAgain := true;
          }
        case Closed =>
          Clear();
      }
    }

    /** The handler is done: go again if something changed meanwhile, otherwise become idle. */
    method Complete(sender: UiChannel, kind: Kind) returns (needsTimer: bool)
      modifies this, sender`queue
      ensures (View(), sender.View(), needsTimer) == ReloadModel.Complete(old(View()), old(sender.View()), kind)
    {
      var hadTrailingChange := dirtyAgain;
      dirtyAgain := false;
      if hadTrailingChange {
        needsTimer := Dispatch(sender, kind);
        return;
      }
      state := Idle;
      if dirtyAgain {
        // The second look only matters between atomic calls: the mark was cleared just above.
        assert false;
      }
      needsTimer := false;
    }

    method Dispatch(sender: UiChannel, kind: Kind) returns (needsTimer: bool)
      modifies this, sender`queue
      ensures (View(), sender.View(), needsTimer) == ReloadModel.Dispatch(old(View()), old(sender.View()), kind)
    {
      var result := sender.TrySend(Reload(kind));
      match result {
        case Sent =>
          state := QueuedOrRunning;
          needsTimer := false;
        case Full =>
          state := PendingRetry;
          needsTimer := true;
        case Closed =>
          Clear();
          needsTimer := false;
      }
    }

    method Clear()
      modifies this
      ensures View() == FRESH_SLOT
    {
      state, dirtyAgain := Idle, false;
    }
  }

  /** Gate, queue and timer as the GTK main context and the watchers share them. */
  class PopupRuntime {
    const css: ReloadSlot
    const config: ReloadSlot
    const channel: UiChannel
    var running: Option<UiEvent>
    var timer: bool
    var starts: nat
    ghost var unseen: set<Kind>

    ghost predicate Valid()
      reads this
    {
      css != config
    }

    ghost function View(): Process
      reads this, css, config, channel
    {
      Process(css.View(), config.View(), channel.View(), running, timer, starts, unseen)
    }

    constructor (capacity: nat)
      ensures Valid() && View() == Initial(capacity)
    {
      css := new ReloadSlot();
      config := new ReloadSlot();
      channel := new UiChannel(capacity);
      running, timer, starts, unseen := None, false, 0, {};
    }

    method FlushGate()
      requires Valid()
      modifies css, config, channel`queue
      ensures View() == FlushBoth(old(View()))
    {
      css.Flush(channel, Css);
      config.Flush(channel, Config);
    }

    method GateHasPending() returns (pending: bool)
      ensures pending <==> HasPending(View())
    {
      pending := css.HasRetryPending();
      if !pending {
        pending := config.HasRetryPending();
      }
    }

    /** Watcher callback: request, and hand a timer start to the main context when blocked. */
    method OnChange(kind: Kind)
      requires Valid()
      modifies this`starts, this`unseen, css, config, channel`queue
      ensures Valid() && View() == Step(old(View()), Watched(kind))
    {
      var needsTimer: bool;
      if kind == Css {
        needsTimer := css.Request(channel, Css);
      } else {
        needsTimer := config.Request(channel, Config);
      }
      unseen := unseen + {kind};
      if needsTimer {
        starts := starts + 1;
      }
    }

    /** The main loop receives an event; its handler starts and reads the current files. */
    method BeginUiEvent()
      requires Valid() && Enabled(View(), Taken)
      modifies this`running, this`unseen, channel`queue
      ensures Valid() && View() == Step(old(View()), Taken)
    {
      var e := channel.queue[0];
      channel.queue := channel.queue[1..];
      running := Some(e);
      if e.Reload? {
        unseen := unseen - {e.kind};
      }
    }

    /** What runs after the handler: complete, flush, and perhaps start the timer. */
    method FinishUiEvent()
      requires Valid() && Enabled(View(), Finished)
      modifies this`running, this`starts, css, config, channel`queue
      ensures Valid() && View() == Step(old(View()), Finished)
    {
      var e := running.value;
      var needsTimer := false;
      if e == Reload(Css) {
        needsTimer := css.Complete(channel, Css);
      } else if e == Reload(Config) {
        needsTimer := config.Complete(channel, Config);
      }
      running := None;
      FlushGate();
      var pending := GateHasPending();
      if needsTimer || pending {
        starts := starts + 1;
      }
    }

    /** At most one timer source is ever installed. */
    method StartReloadTimer()
      requires Valid() && Enabled(View(), TimerStarted)
      modifies this`timer, this`starts
      ensures Valid() && View() == Step(old(View()), TimerStarted)
    {
      starts := starts - 1;
      if timer {
        return;
      }
      timer := true;
    }

    /** The timer source keeps itself alive while a retry is blocked. */
    method OnTimer()
      requires Valid() && Enabled(View(), Ticked)
      modifies this`timer, css, config, channel`queue
      ensures Valid() && View() == Step(old(View()), Ticked)
    {
      FlushGate();
      var pending := GateHasPending();
      if !pending {
        timer := false;
      }
    }
  }
}
