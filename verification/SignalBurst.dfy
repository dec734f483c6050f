/**
 Per-sender burst limiting of notification signals: a windowed counter per sender in a bounded
 map. The numeric promises are about any trace of calls under a monotone clock.
 */
module SignalBurst {
  import opened Support
  import opened Notifications

  datatype SignalMode = Direct | SnapshotOnly | Suppress

  datatype BurstState = BurstState(windowStarted: Instant, lastSeen: Instant, count: nat, snapshotEmitted: bool)

  /** One second, in nanoseconds. */
  const WINDOW: int := 1_000_000_000
  const DIRECT_LIMIT: nat := 8
  const TRACK_LIMIT: nat := 128
  const U16_MAX: nat := 0xFFFF

  type Cache = map<string, BurstState>

  /** Instant::duration_since, which saturates at zero. */
  function Since(later: Instant, earlier: Instant): int {
    if later >= earlier then later - earlier else 0
  }

  function Retained(cache: Cache, now: Instant): Cache {
    map s | s in cache && Since(now, cache[s].lastSeen) <= WINDOW :: cache[s]
  }

  predicate Untracked(cache: Cache, sender: string) {
    |cache| >= TRACK_LIMIT && sender !in cache
  }

  /** The counters after this call is counted, in a fresh window when the old one ran out. */
  function Counted(st: BurstState, now: Instant): BurstState {
    var w := if Since(now, st.windowStarted) > WINDOW then BurstState(now, st.lastSeen, 0, false) else st;
    w.(lastSeen := now, count := if w.count < U16_MAX then w.count + 1 else w.count)
  }

  function Entry(cache: Cache, sender: string, now: Instant): BurstState {
    if sender in cache then cache[sender] else BurstState(now, now, 0, false)
  }

  function ModeOf(st: BurstState): SignalMode {
    if st.count <= DIRECT_LIMIT then Direct
    else if !st.snapshotEmitted then SnapshotOnly
    else Suppress
  }

  function Observe(cache: Cache, sender: string, now: Instant): (Cache, SignalMode) {
    var kept := Retained(cache, now);
    if Untracked(kept, sender) then (kept, SnapshotOnly)
    else
      var st := Counted(Entry(kept, sender, now), now);
      (kept[sender := if ModeOf(st) == SnapshotOnly then st.(snapshotEmitted := true) else st], ModeOf(st))
  }

  /** The shared tracking map. */
  class BurstCache {
    var cache: Cache

    constructor ()
      ensures cache == map[]
    {
      cache := map[];
    }

    method SignalModeForSender(sender: string, now: Instant) returns (mode: SignalMode)
      modifies this
      ensures (cache, mode) == Observe(old(cache), sender, now)
    {
      cache := map s | s in cache && Since(now, cache[s].lastSeen) <= WINDOW :: cache[s];
      ghost var kept := cache;
      if |cache| >= TRACK_LIMIT && sender !in cache {
        return SnapshotOnly;
      }
      if sender !in cache {
        cache := cache[sender := BurstState(now, now, 0, false)];
      }
      var state := cache[sender];
      if Since(now, state.windowStarted) > WINDOW {
        state := state.(windowStarted := now, count := 0, snapshotEmitted := false);
      }
      state := state.(lastSeen := now);
      if state.count < U16_MAX {
        state := state.(count := state.count + 1);
      }
      if state.count <= DIRECT_LIMIT {
        cache := cache[sender := state];
        assert cache == kept[sender := state];
        return Direct;
      }
      if !state.snapshotEmitted {
        cache := cache[sender := state.(snapshotEmitted := true)];
        assert cache == kept[sender := state.(snapshotEmitted := true)];
        return SnapshotOnly;
      }
      cache := cache[sender := state];
      assert cache == kept[sender := state];
      return Suppress;
    }
  }

  // ---------------------------------------------------------------------------------------------
  // Traces
  // ---------------------------------------------------------------------------------------------

  datatype Call = Call(sender: string, now: Instant)

  ghost predicate Monotone(calls: seq<Call>) {
    forall i, j :: 0 <= i < j < |calls| ==> calls[i].now <= calls[j].now
  }

  function CacheAfter(calls: seq<Call>): Cache {
    if calls == [] then map[]
    else
      var last := calls[|calls| - 1];
      Observe(CacheAfter(calls[..|calls| - 1]), last.sender, last.now).0
  }

  function ModeAt(calls: seq<Call>, i: nat): SignalMode
    requires i < |calls|
  {
    Observe(CacheAfter(calls[..i]), calls[i].sender, calls[i].now).1
  }

  lemma CacheStep(calls: seq<Call>, i: nat)
    requires i < |calls|
    ensures CacheAfter(calls[..i + 1]) == Observe(CacheAfter(calls[..i]), calls[i].sender, calls[i].now).0
  {
    assert calls[..i + 1][..i] == calls[..i];
  }

  ghost predicate EntryOk(st: BurstState, last: Instant) {
    && st.windowStarted <= st.lastSeen <= last
    && st.lastSeen <= st.windowStarted + WINDOW
    && 1 <= st.count
  }

  ghost predicate CacheOk(cache: Cache, last: Instant) {
    && |cache| <= TRACK_LIMIT
    && forall s :: s in cache ==> EntryOk(cache[s], last)
  }

  lemma ObserveKeepsOk(cache: Cache, last: Instant, sender: string, now: Instant)
    requires CacheOk(cache, last) && last <= now
    ensures CacheOk(Observe(cache, sender, now).0, now)
  {
    var kept := Retained(cache, now);
    RetainedSize(cache, now);
    var after := Observe(cache, sender, now).0;
    if !Untracked(kept, sender) {
      assert after.Keys == kept.Keys + {sender};
      if sender !in kept {
        assert |kept.Keys + {sender}| == |kept.Keys| + 1;
      } else {
        assert kept.Keys + {sender} == kept.Keys;
      }
    }
  }

  lemma RetainedSize(cache: Cache, now: Instant)
    ensures |Retained(cache, now)| <= |cache|
  {
    var kept := Retained(cache, now);
    assert cache.Keys == kept.Keys + (cache.Keys - kept.Keys);
  }

  /** The tracking map never outgrows its limit and its entries stay well timed. */
  lemma {:induction false} CacheStaysOk(calls: seq<Call>, n: nat)
    requires Monotone(calls) && n <= |calls|
    ensures |CacheAfter(calls[..n])| <= TRACK_LIMIT
    ensures n > 0 ==> CacheOk(CacheAfter(calls[..n]), calls[n - 1].now)
  {
    if n > 0 {
      CacheStaysOk(calls, n - 1);
      CacheStep(calls, n - 1);
      if n == 1 {
        assert CacheOk(CacheAfter(calls[..0]), calls[0].now);
        ObserveKeepsOk(CacheAfter(calls[..0]), calls[0].now, calls[0].sender, calls[0].now);
      } else {
        ObserveKeepsOk(CacheAfter(calls[..n - 1]), calls[n - 2].now, calls[n - 1].sender, calls[n - 1].now);
      }
    }
  }

  // ---------------------------------------------------------------------------------------------
  // Direct signals of one sender
  // ---------------------------------------------------------------------------------------------

  /** The sender's counters right after call `i`, when that call was tracked. */
  function After(calls: seq<Call>, i: nat): BurstState
    requires i < |calls|
  {
    var cache := CacheAfter(calls[..i + 1]);
    if calls[i].sender in cache then cache[calls[i].sender] else BurstState(0, 0, 0, false)
  }

  lemma DirectIsCounted(calls: seq<Call>, i: nat)
    requires Monotone(calls) && i < |calls| && ModeAt(calls, i) == Direct
    ensures calls[i].sender in CacheAfter(calls[..i + 1])
    ensures var st := After(calls, i);
            && 1 <= st.count <= DIRECT_LIMIT
            && st.windowStarted <= calls[i].now == st.lastSeen
            && (st.count == 1 ==> st.windowStarted == calls[i].now)
  {
    CacheStep(calls, i);
    CacheStaysOk(calls, i);
    CacheStaysOk(calls, i + 1);
  }

  /** Where an earlier window of `sender` stands: still open with more counts, or well over. */
  ghost predicate SameWindowOrLater(cache: Cache, sender: string, w: BurstState, last: Instant) {
    if sender in cache then
      || (cache[sender].windowStarted == w.windowStarted && cache[sender].count >= w.count)
      || (cache[sender].windowStarted > w.windowStarted + WINDOW && cache[sender].windowStarted >= w.lastSeen)
    else last > w.windowStarted + WINDOW
  }

  lemma WindowStep(cache: Cache, sender: string, w: BurstState, last: Instant, call: Call)
    requires SameWindowOrLater(cache, sender, w, last) && last <= call.now && w.lastSeen <= last
    requires sender in cache ==> EntryOk(cache[sender], last)
    ensures SameWindowOrLater(Observe(cache, call.sender, call.now).0, sender, w, call.now)
    ensures var (after, mode) := Observe(cache, call.sender, call.now);
            call.sender == sender && mode == Direct ==>
              && sender in after
              && (after[sender].windowStarted == w.windowStarted ==> after[sender].count > w.count)
  {
  }

  lemma WindowBegins(calls: seq<Call>, i: nat)
    requires Monotone(calls) && i < |calls| && ModeAt(calls, i) == Direct
    ensures SameWindowOrLater(CacheAfter(calls[..i + 1]), calls[i].sender, After(calls, i), calls[i].now)
  {
    hide Observe, CacheAfter, CacheOk;
    DirectIsCounted(calls, i);
  }

  lemma {:induction false} WindowPersists(calls: seq<Call>, i: nat, n: nat)
    requires Monotone(calls) && i < n <= |calls| && ModeAt(calls, i) == Direct
    ensures SameWindowOrLater(CacheAfter(calls[..n]), calls[i].sender, After(calls, i), calls[n - 1].now)
  {
    hide Observe, CacheAfter, CacheOk, SameWindowOrLater, ModeAt;
    DirectIsCounted(calls, i);
    if n == i + 1 {
      WindowBegins(calls, i);
    } else {
      WindowPersists(calls, i, n - 1);
      CacheStaysOk(calls, n - 1);
      CacheStep(calls, n - 1);
      WindowStep(CacheAfter(calls[..n - 1]), calls[i].sender, After(calls, i), calls[n - 2].now, calls[n - 1]);
    }
  }

  /** Two direct signals share a window and differ in count, or sit in windows over a second apart. */
  lemma DirectsAreSpread(calls: seq<Call>, i: nat, j: nat)
    requires Monotone(calls) && i < j < |calls| && calls[i].sender == calls[j].sender
    requires ModeAt(calls, i) == Direct && ModeAt(calls, j) == Direct
    ensures var a, b := After(calls, i), After(calls, j);
            || (a.windowStarted == b.windowStarted && a.count < b.count)
            || (b.windowStarted > a.windowStarted + WINDOW && b.windowStarted >= calls[i].now)
  {
    DirectIsCounted(calls, i);
    DirectIsCounted(calls, j);
    WindowPersists(calls, i, j);
    CacheStaysOk(calls, j);
    CacheStep(calls, j);
    WindowStep(CacheAfter(calls[..j]), calls[i].sender, After(calls, i), calls[j - 1].now, calls[j]);
  }

  /** The direct signals of `sender` inside the closed second that starts at `from`. */
  ghost function DirectIn(calls: seq<Call>, sender: string, from: Instant): set<nat> {
    set i: nat | i < |calls| && calls[i].sender == sender && ModeAt(calls, i) == Direct
                 && from <= calls[i].now <= from + WINDOW
  }

  /** Labels a direct signal by its count, kept apart by whether its window began inside. */
  ghost function Label(calls: seq<Call>, from: Instant, i: nat): int
    requires i < |calls|
  {
    After(calls, i).count + if After(calls, i).windowStarted >= from then DIRECT_LIMIT else 0
  }

  lemma LabelsAreDistinct(calls: seq<Call>, sender: string, from: Instant, i: nat, j: nat)
    requires Monotone(calls) && i in DirectIn(calls, sender, from) && j in DirectIn(calls, sender, from) && i < j
    ensures Label(calls, from, i) != Label(calls, from, j)
  {
    DirectIsCounted(calls, i);
    DirectIsCounted(calls, j);
    DirectsAreSpread(calls, i, j);
  }

  lemma LabelRange(calls: seq<Call>, sender: string, from: Instant, i: nat)
    requires Monotone(calls) && i in DirectIn(calls, sender, from)
    ensures 2 <= Label(calls, from, i) <= 2 * DIRECT_LIMIT
  {
    DirectIsCounted(calls, i);
  }

  lemma {:induction false} InjectiveImage(s: set<nat>, f: nat -> int, lo: int, hi: int)
    requires forall i :: i in s ==> lo <= f(i) < hi
    requires forall i, j :: i in s && j in s && i < j ==> f(i) != f(j)
    requires lo <= hi
    ensures |s| <= hi - lo
    decreases hi - lo
  {
    if lo == hi {
      assert s == {};
    } else if exists i :: i in s && f(i) == hi - 1 {
      var i :| i in s && f(i) == hi - 1;
      InjectiveImage(s - {i}, f, lo, hi - 1);
    } else {
      InjectiveImage(s, f, lo, hi - 1);
    }
  }

  /**
   In any closed second a sender gets at most fifteen direct signals: of two windows that meet the
   interval, the earlier one opened, and spent its first signal, before the interval.
   */
  lemma DirectSignalsBounded(calls: seq<Call>, sender: string, from: Instant)
    requires Monotone(calls)
    ensures |DirectIn(calls, sender, from)| <= 2 * DIRECT_LIMIT - 1
  {
    var s := DirectIn(calls, sender, from);
    var f := (i: nat) => if i < |calls| then Label(calls, from, i) else 0;
    forall i | i in s
      ensures 2 <= f(i) < 2 * DIRECT_LIMIT + 1
    {
      LabelRange(calls, sender, from, i);
    }
    forall i, j | i in s && j in s && i < j
      ensures f(i) != f(j)
    {
      LabelsAreDistinct(calls, sender, from, i, j);
    }
    InjectiveImage(s, f, 2, 2 * DIRECT_LIMIT + 1);
  }

  /** One call, seven more a second later, eight just after that window closed. */
  function BusySecond(): seq<Call> {
    seq(16, i => Call("app", if i == 0 then 0 else if i < 8 then WINDOW else WINDOW + 1))
  }

  /** The cache after the first `n` of these calls. */
  function BusyCache(n: nat): Cache {
    if n == 0 then map[]
    else if n <= 8 then map["app" := BurstState(0, if n == 1 then 0 else WINDOW, n, false)]
    else map["app" := BurstState(WINDOW + 1, WINDOW + 1, n - 8, false)]
  }

  lemma BusyStep(n: nat)
    requires n < 16
    ensures Observe(BusyCache(n), "app", BusySecond()[n].now).0 == BusyCache(n + 1)
  {
  }

  lemma {:induction false} BusySecondState(n: nat)
    requires n <= 16
    ensures CacheAfter(BusySecond()[..n]) == BusyCache(n)
  {
    hide Observe;
    if n > 0 {
      BusySecondState(n - 1);
      CacheStep(BusySecond(), n - 1);
      BusyStep(n - 1);
    }
  }

  lemma BusySecondDirect(i: nat)
    requires 1 <= i < 16
    ensures i in DirectIn(BusySecond(), "app", 1)
  {
    hide CacheAfter;
    BusySecondState(i);
  }

  /** {1, ..., n - 1} */
  ghost function Indices(n: nat): set<nat> {
    if n <= 1 then {} else Indices(n - 1) + {n - 1}
  }

  lemma {:induction false} IndicesAre(n: nat)
    requires 1 <= n <= 16
    ensures |Indices(n)| == n - 1
    ensures forall i :: i in Indices(n) ==> i < n
    ensures Indices(n) <= DirectIn(BusySecond(), "app", 1)
  {
    if n > 1 {
      IndicesAre(n - 1);
      BusySecondDirect(n - 1);
    }
  }

  /** Fifteen is reached: the bound on direct signals is exact. */
  lemma FifteenIsReached()
    ensures Monotone(BusySecond())
    ensures |DirectIn(BusySecond(), "app", 1)| == 2 * DIRECT_LIMIT - 1
  {
    assert Monotone(BusySecond());
    IndicesAre(16);
    SubsetSize(Indices(16), DirectIn(BusySecond(), "app", 1));
    DirectSignalsBounded(BusySecond(), "app", 1);
  }

  // ---------------------------------------------------------------------------------------------
  // Distinct senders
  // ---------------------------------------------------------------------------------------------

  /** A counted sender stays in the map for a full second. */
  lemma {:induction false} StaysTracked(calls: seq<Call>, i: nat, n: nat)
    requires Monotone(calls) && i < n <= |calls| && ModeAt(calls, i) == Direct
    requires calls[n - 1].now <= calls[i].now + WINDOW
    ensures calls[i].sender in CacheAfter(calls[..n])
    ensures CacheAfter(calls[..n])[calls[i].sender].lastSeen >= calls[i].now
  {
    if n == i + 1 {
      DirectIsCounted(calls, i);
    } else {
      StaysTracked(calls, i, n - 1);
      CacheStep(calls, n - 1);
    }
  }

  ghost function DirectSenders(calls: seq<Call>, from: Instant): set<string> {
    set i: nat | i < |calls| && ModeAt(calls, i) == Direct && from <= calls[i].now <= from + WINDOW
      :: calls[i].sender
  }

  /** How many calls happen at or before `bound`, under a monotone clock. */
  function CallsUpTo(calls: seq<Call>, bound: Instant): nat {
    if calls == [] then 0
    else if calls[|calls| - 1].now <= bound then |calls|
    else CallsUpTo(calls[..|calls| - 1], bound)
  }

  lemma {:induction false} CallsUpToMeans(calls: seq<Call>, bound: Instant)
    requires Monotone(calls)
    ensures CallsUpTo(calls, bound) <= |calls|
    ensures forall i :: 0 <= i < |calls| ==> (i < CallsUpTo(calls, bound) <==> calls[i].now <= bound)
  {
    if calls != [] && calls[|calls| - 1].now > bound {
      CallsUpToMeans(calls[..|calls| - 1], bound);
      forall i | 0 <= i < |calls|
        ensures i < CallsUpTo(calls, bound) <==> calls[i].now <= bound
      {
        if i < |calls| - 1 {
          assert calls[..|calls| - 1][i] == calls[i];
        }
      }
    }
  }

  lemma DirectSenderTracked(calls: seq<Call>, from: Instant, i: nat)
    requires Monotone(calls) && i < |calls| && ModeAt(calls, i) == Direct
    requires from <= calls[i].now <= from + WINDOW
    ensures CallsUpTo(calls, from + WINDOW) <= |calls|
    ensures calls[i].sender in CacheAfter(calls[..CallsUpTo(calls, from + WINDOW)])
  {
    CallsUpToMeans(calls, from + WINDOW);
    StaysTracked(calls, i, CallsUpTo(calls, from + WINDOW));
  }

  /** In any closed second at most 128 distinct senders get a direct signal. */
  lemma DirectSendersBounded(calls: seq<Call>, from: Instant)
    requires Monotone(calls)
    ensures |DirectSenders(calls, from)| <= TRACK_LIMIT
  {
    var n := CallsUpTo(calls, from + WINDOW);
    CallsUpToMeans(calls, from + WINDOW);
    CacheStaysOk(calls, n);
    var keys, senders := CacheAfter(calls[..n]).Keys, DirectSenders(calls, from);
    forall s | s in senders
      ensures s in keys
    {
      var i: nat :| i < |calls| && ModeAt(calls, i) == Direct && from <= calls[i].now <= from + WINDOW
                    && calls[i].sender == s;
      DirectSenderTracked(calls, from, i);
    }
    SubsetSize(senders, keys);
  }

  // ---------------------------------------------------------------------------------------------
  // Suppression
  // ---------------------------------------------------------------------------------------------

  /** Call `i` told the clients of `sender` to resync, at or after `since`. */
  ghost predicate Resynced(calls: seq<Call>, n: nat, sender: string, since: Instant)
    requires n <= |calls|
  {
    exists i: nat :: i < n && calls[i].sender == sender && calls[i].now >= since && ModeAt(calls, i) == SnapshotOnly
  }

  lemma {:induction false} EmittedMeansResynced(calls: seq<Call>, n: nat, sender: string)
    requires Monotone(calls) && n <= |calls|
    ensures var cache := CacheAfter(calls[..n]);
            sender in cache && cache[sender].snapshotEmitted ==> Resynced(calls, n, sender, cache[sender].windowStarted)
  {
    if n > 0 {
      EmittedMeansResynced(calls, n - 1, sender);
      CacheStaysOk(calls, n - 1);
      CacheStaysOk(calls, n);
      CacheStep(calls, n - 1);
      var before, after := CacheAfter(calls[..n - 1]), CacheAfter(calls[..n]);
      if sender in after && after[sender].snapshotEmitted {
        if calls[n - 1].sender == sender && ModeAt(calls, n - 1) == SnapshotOnly {
          assert Resynced(calls, n, sender, after[sender].windowStarted);
        } else {
          assert sender in before && before[sender].snapshotEmitted;
          assert after[sender].windowStarted == before[sender].windowStarted;
          var i: nat :| i < n - 1 && calls[i].sender == sender && calls[i].now >= before[sender].windowStarted
                        && ModeAt(calls, i) == SnapshotOnly;
        }
      }
    }
  }

  /** Nothing is dropped silently: a suppressed call follows a resync at most a second older. */
  lemma SuppressFollowsResync(calls: seq<Call>, j: nat)
    requires Monotone(calls) && j < |calls| && ModeAt(calls, j) == Suppress
    ensures Resynced(calls, j, calls[j].sender, calls[j].now - WINDOW)
  {
    EmittedMeansResynced(calls, j, calls[j].sender);
    CacheStep(calls, j);
    var before := CacheAfter(calls[..j]);
    var s := calls[j].sender;
    assert s in before && before[s].snapshotEmitted;
    var i: nat :| i < j && calls[i].sender == s && calls[i].now >= before[s].windowStarted
                  && ModeAt(calls, i) == SnapshotOnly;
  }
}
