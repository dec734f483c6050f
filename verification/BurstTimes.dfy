/**
 The burst limiter as a reader of the call times alone would describe it: which calls are tracked,
 which window each falls into, and what its place in the window means. Nothing here looks at the
 tracking map, until the last section proves that the map agrees.
 */
module BurstTimes {
  import opened Support
  import opened Notifications
  import opened SignalBurst

  const SECOND: int := 1_000_000_000

  /** The senders with a tracked call at most a second before call `i`. */
  ghost function RecentSenders(calls: seq<Call>, i: nat): set<string>
    requires i < |calls|
    decreases i, 0
  {
    set j: nat | j < i && Tracked(calls, j) && calls[i].now - calls[j].now <= SECOND :: calls[j].sender
  }

  /** A sender known for the last second is tracked; a new one only while fewer than 128 are known. */
  ghost predicate Tracked(calls: seq<Call>, i: nat)
    requires i < |calls|
    decreases i, 1
  {
    calls[i].sender in RecentSenders(calls, i) || |RecentSenders(calls, i)| < 128
  }

  /** The last tracked call of a sender among the first `n`. */
  ghost function LastTracked(calls: seq<Call>, n: nat, sender: string): (last: Option<nat>)
    requires n <= |calls|
    ensures last.Some? ==> last.value < n && calls[last.value].sender == sender && Tracked(calls, last.value)
    ensures forall j: nat :: j < n && calls[j].sender == sender && Tracked(calls, j) ==> last.Some? && j <= last.value
  {
    if n == 0 then None
    else if calls[n - 1].sender == sender && Tracked(calls, n - 1) then Some(n - 1)
    else LastTracked(calls, n - 1, sender)
  }

  /** A call joins the window of its sender's last call while that is at most a second old. */
  ghost function WindowStart(calls: seq<Call>, i: nat): Instant
    requires i < |calls|
    decreases i
  {
    var last := LastTracked(calls, i, calls[i].sender);
    if last.Some? && calls[i].now - WindowStart(calls, last.value) <= SECOND
    then WindowStart(calls, last.value) else calls[i].now
  }

  /** The earlier tracked calls of the sender in the same window. */
  ghost function Earlier(calls: seq<Call>, i: nat): set<nat>
    requires i < |calls|
  {
    set j: nat | j < i && calls[j].sender == calls[i].sender && Tracked(calls, j)
                 && WindowStart(calls, j) == WindowStart(calls, i)
  }

  // ---------------------------------------------------------------------------------------------
  // Windows
  // ---------------------------------------------------------------------------------------------

  lemma {:induction false} WindowBounds(calls: seq<Call>, i: nat)
    requires Monotone(calls) && i < |calls|
    ensures WindowStart(calls, i) <= calls[i].now <= WindowStart(calls, i) + SECOND
    decreases i
  {
    var last := LastTracked(calls, i, calls[i].sender);
    if last.Some? {
      WindowBounds(calls, last.value);
    }
  }

  lemma {:induction false} WindowsAscend(calls: seq<Call>, m: nat, j: nat)
    requires Monotone(calls) && m <= j < |calls| && calls[m].sender == calls[j].sender && Tracked(calls, m)
    ensures WindowStart(calls, m) <= WindowStart(calls, j)
    decreases j
  {
    if m < j {
      WindowBounds(calls, m);
      WindowsAscend(calls, m, LastTracked(calls, j, calls[j].sender).value);
    }
  }

  lemma WindowStep(calls: seq<Call>, i: nat)
    requires i < |calls|
    ensures var last := LastTracked(calls, i, calls[i].sender);
            WindowStart(calls, i) ==
              if last.Some? && calls[i].now - WindowStart(calls, last.value) <= SECOND
              then WindowStart(calls, last.value) else calls[i].now
  {
  }

  /** A call in the window of the one before it has that one and its predecessors before it. */
  lemma EarlierGrows(calls: seq<Call>, i: nat)
    requires Monotone(calls) && i < |calls|
    requires LastTracked(calls, i, calls[i].sender).Some?
    ensures var j := LastTracked(calls, i, calls[i].sender).value;
            if calls[i].now - WindowStart(calls, j) <= SECOND
            then Earlier(calls, i) == Earlier(calls, j) + {j} && j !in Earlier(calls, j)
            else Earlier(calls, i) == {}
  {
    hide Tracked, RecentSenders, WindowStart, LastTracked, Earlier, Monotone;
    var j := LastTracked(calls, i, calls[i].sender).value;
    WindowStep(calls, i);
    if calls[i].now - WindowStart(calls, j) <= SECOND {
      forall m: nat
        ensures m in Earlier(calls, i) <==> m in Earlier(calls, j) + {j}
      {
        InEarlier(calls, i, m);
        InEarlier(calls, j, m);
      }
      assert Earlier(calls, i) == Earlier(calls, j) + {j};
      InEarlier(calls, j, j);
    } else {
      forall m: nat
        ensures m !in Earlier(calls, i)
      {
        InEarlier(calls, i, m);
        if m < i && calls[m].sender == calls[i].sender && Tracked(calls, m) {
          WindowsAscend(calls, m, j);
          WindowBounds(calls, j);
        }
      }
    }
  }

  lemma InEarlier(calls: seq<Call>, i: nat, m: nat)
    requires i < |calls|
    ensures m in Earlier(calls, i) <==>
              && m < i && calls[m].sender == calls[i].sender && Tracked(calls, m)
              && WindowStart(calls, m) == WindowStart(calls, i)
  {
  }

  lemma FirstHasNoneEarlier(calls: seq<Call>, i: nat)
    requires i < |calls| && LastTracked(calls, i, calls[i].sender).None?
    ensures Earlier(calls, i) == {} && WindowStart(calls, i) == calls[i].now
  {
  }

  // ---------------------------------------------------------------------------------------------
  // The tracking map agrees
  // ---------------------------------------------------------------------------------------------

  /** The counters right after tracked call `j`. */
  ghost function Expected(calls: seq<Call>, j: nat): BurstState
    requires j < |calls|
  {
    var n := |Earlier(calls, j)| + 1;
    BurstState(WindowStart(calls, j), calls[j].now, if n < 65535 then n else 65535, n > 8)
  }

  /** Every entry is that of its sender's last tracked call; who was seen at most a second ago is there. */
  ghost predicate MapFits(calls: seq<Call>, i: nat, cache: Cache)
    requires i < |calls|
  {
    && cache.Keys == RecentSenders(calls, i)
    && forall s :: s in cache ==>
         LastTracked(calls, i, s).Some? && cache[s] == Expected(calls, LastTracked(calls, i, s).value)
  }

  ghost function KeptAt(calls: seq<Call>, i: nat): Cache
    requires i < |calls|
  {
    Retained(CacheAfter(calls[..i]), calls[i].now)
  }

  /** What the limiter says about a call, from its place among the calls of its window. */
  ghost function ModeByTimes(calls: seq<Call>, i: nat): SignalMode
    requires i < |calls|
  {
    if !Tracked(calls, i) then SnapshotOnly
    else if |Earlier(calls, i)| < 8 then Direct
    else if |Earlier(calls, i)| == 8 then SnapshotOnly
    else Suppress
  }

  /** The new counters of a tracked call are the expected ones. */
  lemma CountedIsExpected(calls: seq<Call>, i: nat, cache: Cache)
    requires Monotone(calls) && i < |calls| && MapFits(calls, i, cache) && Tracked(calls, i)
    ensures var st := Counted(Entry(cache, calls[i].sender, calls[i].now), calls[i].now);
            && st.windowStarted == Expected(calls, i).windowStarted && st.lastSeen == calls[i].now
            && st.count == Expected(calls, i).count
            && st.snapshotEmitted == (|Earlier(calls, i)| > 8)
  {
    hide Tracked, WindowStart, Earlier, LastTracked, RecentSenders, Monotone;
    var last := LastTracked(calls, i, calls[i].sender);
    WindowStep(calls, i);
    if last.None? {
      FirstHasNoneEarlier(calls, i);
    } else {
      RecentIffLast(calls, i, calls[i].sender);
      EarlierGrows(calls, i);
      WindowBounds(calls, last.value);
      NotBefore(calls, last.value, i);
    }
  }

  lemma NotBefore(calls: seq<Call>, i: nat, j: nat)
    requires Monotone(calls) && i < j < |calls|
    ensures calls[i].now <= calls[j].now
  {
  }

  /** The mode of a call with so many earlier calls in its window. */
  lemma ModeOfPlace(st: BurstState, earlier: nat)
    requires st.count == (if earlier + 1 < 65535 then earlier + 1 else 65535) && st.snapshotEmitted == (earlier > 8)
    ensures ModeOf(st) == if earlier < 8 then Direct else if earlier == 8 then SnapshotOnly else Suppress
  {
  }

  lemma ModeAtPlace(calls: seq<Call>, i: nat)
    requires Monotone(calls) && i < |calls| && MapFits(calls, i, KeptAt(calls, i))
    ensures ModeAt(calls, i) == ModeByTimes(calls, i)
    ensures Tracked(calls, i) ==>
              CacheAfter(calls[..i + 1]) == KeptAt(calls, i)[calls[i].sender := Expected(calls, i)]
    ensures !Tracked(calls, i) ==> CacheAfter(calls[..i + 1]) == KeptAt(calls, i)
  {
    hide RecentSenders, WindowStart, Earlier, LastTracked, Counted, Entry, Retained, Monotone;
    var kept, sender := KeptAt(calls, i), calls[i].sender;
    CacheStep(calls, i);
    assert |kept| == |kept.Keys|;
    TrackedMeans(calls, i);
    hide Tracked, CacheAfter;
    if Tracked(calls, i) {
      CountedIsExpected(calls, i, kept);
      ModeOfPlace(Counted(Entry(kept, sender, calls[i].now), calls[i].now), |Earlier(calls, i)|);
    }
  }

  lemma TrackedMeans(calls: seq<Call>, i: nat)
    requires i < |calls|
    ensures Tracked(calls, i) <==>
              calls[i].sender in RecentSenders(calls, i) || |RecentSenders(calls, i)| < TRACK_LIMIT
  {
    hide RecentSenders;
  }

  lemma NextKept(calls: seq<Call>, i: nat)
    requires Monotone(calls) && i + 1 < |calls| && MapFits(calls, i, KeptAt(calls, i))
    ensures MapFits(calls, i + 1, KeptAt(calls, i + 1))
  {
    hide RecentSenders, Tracked, WindowStart, Earlier, LastTracked, CacheAfter;
    var after, kept := CacheAfter(calls[..i + 1]), KeptAt(calls, i + 1);
    forall s
      ensures s in kept <==> s in RecentSenders(calls, i + 1)
      ensures s in kept ==>
                LastTracked(calls, i + 1, s).Some? && kept[s] == Expected(calls, LastTracked(calls, i + 1, s).value)
    {
      EntryAfter(calls, i, s);
      RecentIffLast(calls, i + 1, s);
    }
    assert kept.Keys == RecentSenders(calls, i + 1);
  }

  lemma RecentIffLast(calls: seq<Call>, i: nat, s: string)
    requires Monotone(calls) && i < |calls|
    ensures s in RecentSenders(calls, i) <==>
              LastTracked(calls, i, s).Some? && calls[i].now - calls[LastTracked(calls, i, s).value].now <= SECOND
  {
    var last := LastTracked(calls, i, s);
    if s in RecentSenders(calls, i) {
      var j: nat :| j < i && Tracked(calls, j) && calls[i].now - calls[j].now <= SECOND && calls[j].sender == s;
      assert j <= last.value;
    }
  }

  /** A sender in the map after call `i` has the counters of its last tracked call; a missing one is old. */
  lemma EntryAfter(calls: seq<Call>, i: nat, s: string)
    requires Monotone(calls) && i + 1 < |calls| && MapFits(calls, i, KeptAt(calls, i))
    ensures var after, last := CacheAfter(calls[..i + 1]), LastTracked(calls, i + 1, s);
            && (s in after ==> last.Some? && after[s] == Expected(calls, last.value))
            && (s !in after && last.Some? ==> calls[i].now - calls[last.value].now > SECOND)
  {
    ModeAtPlace(calls, i);
    RecentIffLast(calls, i, s);
    LastStep(calls, i, s);
    hide RecentSenders, Tracked, WindowStart, Earlier, Expected, LastTracked, CacheAfter, Retained;
  }

  lemma LastStep(calls: seq<Call>, n: nat, s: string)
    requires n < |calls|
    ensures LastTracked(calls, n + 1, s) ==
            if calls[n].sender == s && Tracked(calls, n) then Some(n) else LastTracked(calls, n, s)
  {
  }

  lemma {:induction false} MapAlwaysFits(calls: seq<Call>, i: nat)
    requires Monotone(calls) && i < |calls|
    ensures MapFits(calls, i, KeptAt(calls, i))
  {
    if i == 0 {
      assert calls[..0] == [];
      assert RecentSenders(calls, 0) == {};
    } else {
      MapAlwaysFits(calls, i - 1);
      NextKept(calls, i - 1);
    }
  }

  /**
   The whole limiter by times: an untracked call makes clients resync; of the tracked calls of one
   window the first eight are direct, the ninth makes clients resync, and the others are suppressed.
   */
  lemma ModeIsByTimes(calls: seq<Call>, i: nat)
    requires Monotone(calls) && i < |calls|
    ensures ModeAt(calls, i) == ModeByTimes(calls, i)
  {
    MapAlwaysFits(calls, i);
    ModeAtPlace(calls, i);
  }

  /** A tracked call is direct exactly when fewer than eight calls of its sender precede it in its window. */
  lemma DirectIff(calls: seq<Call>, i: nat)
    requires Monotone(calls) && i < |calls| && Tracked(calls, i)
    ensures ModeAt(calls, i) == Direct <==> |Earlier(calls, i)| < 8
  {
    ModeIsByTimes(calls, i);
  }

  /** Once clients were told to resync, the rest of the window is suppressed. */
  lemma OneResyncPerWindow(calls: seq<Call>, i: nat, j: nat)
    requires Monotone(calls) && i < j < |calls| && calls[i].sender == calls[j].sender
    requires Tracked(calls, i) && Tracked(calls, j) && WindowStart(calls, i) == WindowStart(calls, j)
    requires ModeAt(calls, i) == SnapshotOnly
    ensures ModeAt(calls, j) == Suppress
  {
    ModeIsByTimes(calls, i);
    ModeIsByTimes(calls, j);
    hide Tracked, RecentSenders, WindowStart, Earlier, ModeAt, Monotone;
    InEarlier(calls, i, i);
    forall m: nat | m in Earlier(calls, i) + {i}
      ensures m in Earlier(calls, j)
    {
      InEarlier(calls, i, m);
      InEarlier(calls, j, m);
    }
    assert |Earlier(calls, i) + {i}| == 9;
    SubsetSize(Earlier(calls, i) + {i}, Earlier(calls, j));
  }

  /** An untracked call meets 128 other senders that were tracked within the last second. */
  lemma UntrackedIff(calls: seq<Call>, i: nat)
    requires Monotone(calls) && i < |calls|
    ensures !Tracked(calls, i) <==>
              calls[i].sender !in RecentSenders(calls, i) && |RecentSenders(calls, i)| == 128
  {
    MapAlwaysFits(calls, i);
    CacheStaysOk(calls, i);
    RetainedSize(CacheAfter(calls[..i]), calls[i].now);
    assert |KeptAt(calls, i)| == |KeptAt(calls, i).Keys|;
  }
}
