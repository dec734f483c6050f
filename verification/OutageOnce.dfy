/**
 Outages in which nobody repeats a clear or a close: what the commands behind a request add up to
 decides whether it is forgotten.
 */
module OutageOnce {
  import opened Support
  import opened OfflineCommands
  import opened OutageBounds

  predicate OneShot(c: UiCommand) {
    c.ClearAll? || c.ClosePanel?
  }

  ghost predicate AskedOnce(batch: seq<UiCommand>) {
    forall i, j :: 0 <= i < j < |batch| && OneShot(batch[i]) ==> batch[i] != batch[j]
  }

  function KindsIn(q: seq<UiCommand>): set<nat> {
    set c | c in q && IdIndependent(c) :: KindOf(c)
  }

  /** The places these commands take up once coalesced. */
  function Load(q: seq<UiCommand>): nat {
    IdCommands(q) + |KindsIn(q)|
  }

  lemma KindsSnoc(q: seq<UiCommand>, c: UiCommand)
    ensures KindsIn(q + [c]) == KindsIn(q) + if IdIndependent(c) then {KindOf(c)} else {}
  {
    forall x
      ensures x in q + [c] <==> x in q || x == c
    {
    }
  }

  lemma LoadGrows(a: seq<UiCommand>, b: seq<UiCommand>)
    ensures Load(a) <= Load(a + b)
  {
    IdCommandsConcat(a, b);
    SubsetSize(KindsIn(a), KindsIn(a + b));
  }

  /** A coalesced queue is as long as its load. */
  lemma LoadOfCoalesced(q: seq<UiCommand>)
    requires OneOfEach(q)
    ensures |q| == Load(q)
  {
    SplitCount(q);
    FilterKeepsOneOfEach(IdIndependent, q);
    FilterMembers(IdIndependent, q);
    var r := DropStale(q);
    var kinds := seq(|r|, i requires 0 <= i < |r| => KindOf(r[i]));
    forall i, j | 0 <= i < j < |kinds|
      ensures kinds[i] != kinds[j]
    {
      assert r[i] in r && r[j] in r && !SameKind(r[i], r[j]);
    }
    DistinctSize(kinds);
    forall k
      ensures k in KindsIn(q) <==> k in kinds
    {
      if k in kinds {
        var i :| 0 <= i < |kinds| && kinds[i] == k;
        assert r[i] in r;
      }
      if k in KindsIn(q) {
        var c :| c in q && IdIndependent(c) && KindOf(c) == k;
        var i :| 0 <= i < |r| && r[i] == c;
        assert kinds[i] == k;
      }
    }
    assert Elements(kinds) == KindsIn(q);
  }

  lemma {:induction false} BehindIsSuffix(q: seq<UiCommand>, kind: nat) returns (n: nat)
    ensures n <= |q| && Behind(q, kind) == q[n..]
  {
    if q == [] {
      n := 0;
    } else if KindOf(q[0]) == kind {
      n := 1;
    } else {
      var m := BehindIsSuffix(q[1..], kind);
      n := m + 1;
    }
  }

  /** While the command of this kind is there, what stands behind it is what came after it. */
  ghost predicate Tracks(q: seq<UiCommand>, kind: nat, after: seq<UiCommand>) {
    Has(q, kind) ==>
      && IdCommands(Behind(q, kind)) == IdCommands(after)
      && KindsIn(Behind(q, kind)) == KindsIn(after)
  }

  lemma TrackedFits(q: seq<UiCommand>, kind: nat, after: seq<UiCommand>)
    requires Coalesced(q) && Tracks(q, kind, after) && Has(q, kind)
    ensures |Behind(q, kind)| == Load(after) < MAX_OFFLINE_COMMANDS
  {
    var n := BehindIsSuffix(q, kind);
    LoadOfCoalesced(q[n..]);
    BehindIsShorter(q, kind);
  }

  lemma KeptTracks(q: seq<UiCommand>, kind: nat, c: UiCommand)
    requires Coalesced(q) && KindOf(c) != kind
    ensures Has(Kept(q, c), kind) <==> Has(q, kind)
    ensures IdCommands(Behind(Kept(q, c), kind)) == IdCommands(Behind(q, kind))
    ensures KindsIn(Behind(Kept(q, c), kind)) == KindsIn(Behind(q, kind)) - if c.SetDnd? then {2} else {}
  {
    KeptFacts(q, c);
    BehindKept(q, kind, c);
    var b := Behind(q, kind);
    KeptIds(b, c);
    if c.SetDnd? {
      FilterMembers(NotDnd, b);
    }
  }

  /** The front that is pushed out is the command itself, or stands before it. */
  lemma TrimmedBehind(k: seq<UiCommand>, kind: nat)
    requires Coalesced(k) && kind < 3 && Has(k, kind)
    ensures Has(Trimmed(k), kind) ==> Behind(Trimmed(k), kind) == Behind(k, kind)
    ensures !Has(Trimmed(k), kind) ==> |k| == MAX_OFFLINE_COMMANDS && Behind(k, kind) == k[1..] == Trimmed(k)
  {
    if |k| >= MAX_OFFLINE_COMMANDS {
      if KindOf(k[0]) == kind {
        forall c | c in k[1..]
          ensures KindOf(c) != kind
        {
          var i :| 0 <= i < |k[1..]| && k[1..][i] == c;
          assert !SameKind(k[0], k[i + 1]);
        }
      } else {
        var c :| c in k && KindOf(c) == kind;
        assert c in k[1..];
      }
    }
  }

  lemma EnqueueTracks(q: seq<UiCommand>, kind: nat, after: seq<UiCommand>, c: UiCommand)
    requires Coalesced(q) && Tracks(q, kind, after) && KindOf(c) != kind && kind < 3
    requires OneShot(c) ==> c !in q
    ensures Tracks(Enqueued(q, c), kind, after + [c])
    ensures Has(q, kind) && Load(after + [c]) < MAX_OFFLINE_COMMANDS ==> Has(Enqueued(q, c), kind)
  {
    var k := Kept(q, c);
    KeptFacts(q, c);
    EnqueueOneOfEach(q, c);
    KeptTracks(q, kind, c);
    if Has(q, kind) {
      TrimmedBehind(k, kind);
      SnocLoad(Behind(k, kind), c);
      SnocLoad(after, c);
      if Has(Trimmed(k), kind) {
        SnocKeepsHas(Trimmed(k), kind, c);
        BehindSnoc(Trimmed(k), kind, c);
      } else {
        LoadOfCoalesced(Enqueued(q, c));
        SnocAddsNone(Trimmed(k), kind, c);
      }
    } else {
      SnocAddsNone(Trimmed(k), kind, c);
    }
  }

  lemma SnocLoad(q: seq<UiCommand>, c: UiCommand)
    ensures IdCommands(q + [c]) == IdCommands(q) + One(c)
    ensures KindsIn(q + [c]) == KindsIn(q) + if IdIndependent(c) then {KindOf(c)} else {}
  {
    IdCommandsConcat(q, [c]);
    IdCommandsOne(c);
    KindsSnoc(q, c);
  }

  lemma SnocKeepsHas(q: seq<UiCommand>, kind: nat, c: UiCommand)
    requires Has(q, kind)
    ensures Has(q + [c], kind)
  {
    var x :| x in q && KindOf(x) == kind;
    assert x in q + [c];
  }

  lemma SnocAddsNone(q: seq<UiCommand>, kind: nat, c: UiCommand)
    requires !Has(q, kind) && KindOf(c) != kind
    ensures !Has(q + [c], kind)
  {
  }

  lemma EnqueueMembers(q: seq<UiCommand>, c: UiCommand)
    requires Coalesced(q)
    ensures forall x :: x in Enqueued(q, c) ==> x in q || x == c
  {
    KeptFacts(q, c);
  }

  lemma {:induction false} StashTracks(q: seq<UiCommand>, kind: nat, after: seq<UiCommand>, done: seq<UiCommand>,
                                       tail: seq<UiCommand>)
    requires Coalesced(q) && Tracks(q, kind, after) && kind < 3
    requires (forall x :: x in tail ==> KindOf(x) != kind) && (forall x :: x in q ==> x in done)
    requires AskedOnce(done + tail)
    ensures Tracks(Stashed(q, tail), kind, after + tail)
    ensures Has(q, kind) && Load(after + tail) < MAX_OFFLINE_COMMANDS ==> Has(Stashed(q, tail), kind)
    decreases |tail|
  {
    if tail == [] {
      assert after + tail == after;
    } else {
      var c, rest := tail[0], tail[1..];
      hide Coalesced, Tracks, Enqueued, Has, Load, AskedOnce;
      FreshOneShot(done, tail);
      EnqueueTracks(q, kind, after, c);
      EnqueueOneOfEach(q, c);
      EnqueueMembers(q, c);
      assert done + [c] + rest == done + tail && after + [c] + rest == after + tail;
      LoadGrows(after + [c], rest);
      StashTracks(Enqueued(q, c), kind, after + [c], done + [c], rest);
    }
  }

  lemma FreshOneShot(done: seq<UiCommand>, tail: seq<UiCommand>)
    requires AskedOnce(done + tail) && tail != []
    ensures OneShot(tail[0]) ==> tail[0] !in done
  {
    if tail[0] in done {
      var i :| 0 <= i < |done| && done[i] == tail[0];
      assert (done + tail)[i] == (done + tail)[|done|];
    }
  }

  /** Just buffered: nothing stands behind it yet. */
  lemma BufferedLast(q: seq<UiCommand>, c: UiCommand)
    requires Coalesced(q) && IdIndependent(c) && (OneShot(c) ==> c !in q)
    ensures Has(Enqueued(q, c), KindOf(c)) && Behind(Enqueued(q, c), KindOf(c)) == []
  {
    EnqueueOneOfEach(q, c);
    var t := Trimmed(Kept(q, c));
    var e := t + [c];
    assert e == Enqueued(q, c) && c in e;
    forall x | x in t
      ensures KindOf(x) != KindOf(c)
    {
      var i :| 0 <= i < |t| && t[i] == x;
      assert !SameKind(e[i], e[|t|]);
    }
    BehindNone(t, c);
  }

  lemma {:induction false} BehindNone(t: seq<UiCommand>, c: UiCommand)
    requires forall x :: x in t ==> KindOf(x) != KindOf(c)
    ensures Behind(t + [c], KindOf(c)) == []
  {
    if t != [] {
      assert (t + [c])[1..] == t[1..] + [c];
      BehindNone(t[1..], c);
    }
  }

  lemma EffectHasKindIff(q: seq<UiCommand>, c: UiCommand)
    requires OneOfEach(q) && IdIndependent(c)
    ensures HasKind(EffectOf(q), KindOf(c)) <==> Has(q, KindOf(c))
  {
    EffectNeedsCommand(q, c);
    if Has(q, KindOf(c)) {
      var x :| x in q && KindOf(x) == KindOf(c);
      EffectHasKind(q, x);
    }
  }

  /** Position `p` holds the last request of its kind. */
  ghost predicate LastOfKind(batch: seq<UiCommand>, p: nat) {
    && p < |batch| && IdIndependent(batch[p])
    && forall x :: x in batch[p + 1..] ==> KindOf(x) != KindOf(batch[p])
  }

  lemma RightAfter(before: seq<UiCommand>, c: UiCommand, tail: seq<UiCommand>) returns (mid: seq<UiCommand>)
    requires AskedOnce(before + [c] + tail) && IdIndependent(c)
    ensures mid == Stashed([], before + [c]) && Coalesced(mid)
    ensures Has(mid, KindOf(c)) && Behind(mid, KindOf(c)) == []
    ensures forall x :: x in mid ==> x in before + [c]
  {
    hide AskedOnce, Enqueued;
    var q := Stashed([], before);
    StashKeepsCoalesced([], before);
    StashedMembers([], before);
    assert before + [c] + tail == before + ([c] + tail);
    FreshOneShot(before, [c] + tail);
    StashedSnoc([], before, c);
    mid := Enqueued(q, c);
    BufferedLast(q, c);
    EnqueueOneOfEach(q, c);
    EnqueueMembers(q, c);
  }

  lemma StillBufferedIff(before: seq<UiCommand>, c: UiCommand, tail: seq<UiCommand>)
    requires AskedOnce(before + [c] + tail) && IdIndependent(c) && forall x :: x in tail ==> KindOf(x) != KindOf(c)
    ensures Has(Stashed([], before + [c] + tail), KindOf(c)) <==> Load(tail) < MAX_OFFLINE_COMMANDS
  {
    var mid := RightAfter(before, c, tail);
    var kind := KindOf(c);
    var end := Stashed(mid, tail);
    StashedConcat([], before + [c], tail);
    StashKeepsCoalesced(mid, tail);
    assert Tracks(mid, kind, []);
    StashTracks(mid, kind, [], before + [c], tail);
    assert [] + tail == tail;
    hide Tracks, Coalesced, AskedOnce, Has, Behind, Stashed, Load;
    if Has(end, kind) {
      TrackedFits(end, kind, tail);
    }
  }

  lemma LostIffGone(batch: seq<UiCommand>, c: UiCommand)
    requires c in batch && IdIndependent(c)
    ensures KindOf(c) in LostIn([], batch, {}) <==> !Has(Stashed([], batch), KindOf(c))
  {
    var end := Stashed([], batch);
    StashKeepsCoalesced([], batch);
    StashAgrees([], batch, [], {});
    assert [] + batch == batch;
    EffectHasKind(batch, c);
    EffectHasKindIff(end, c);
  }

  /**
   A request that nobody repeats is forgotten exactly when the commands behind it, coalesced, fill
   the queue.
   */
  lemma ForgottenIff(batch: seq<UiCommand>, p: nat)
    requires AskedOnce(batch) && LastOfKind(batch, p)
    ensures KindOf(batch[p]) in LostIn([], batch, {}) <==> Load(batch[p + 1..]) >= 128
  {
    hide AskedOnce, Load, LostIn, Stashed;
    assert batch == batch[..p] + [batch[p]] + batch[p + 1..];
    LostIffGone(batch, batch[p]);
    StillBufferedIff(batch[..p], batch[p], batch[p + 1..]);
  }

  lemma {:induction false} StashedMembers(q: seq<UiCommand>, batch: seq<UiCommand>)
    requires Coalesced(q)
    ensures forall x :: x in Stashed(q, batch) ==> x in q || x in batch
    decreases |batch|
  {
    if batch != [] {
      EnqueueOneOfEach(q, batch[0]);
      EnqueueMembers(q, batch[0]);
      StashedMembers(Enqueued(q, batch[0]), batch[1..]);
    }
  }

  lemma {:induction false} FindLast(batch: seq<UiCommand>, kind: nat) returns (p: nat)
    requires kind < 3 && Has(batch, kind)
    ensures LastOfKind(batch, p) && KindOf(batch[p]) == kind
  {
    var before, last := batch[..|batch| - 1], batch[|batch| - 1];
    if KindOf(last) == kind {
      p := |batch| - 1;
    } else {
      assert batch == before + [last];
      var c :| c in batch && KindOf(c) == kind;
      assert c in before;
      p := FindLast(before, kind);
      assert batch[p + 1..] == before[p + 1..] + [last];
    }
  }

  lemma LostHadKind(f: Effect, e: Effect, lost: set<nat>, kind: nat)
    requires Agrees(f, e, lost) && kind in lost
    ensures kind < 3 && HasKind(e, kind)
  {
  }

  /** A lost kind was requested. */
  lemma LostWasRequested(batch: seq<UiCommand>, kind: nat)
    requires kind in LostIn([], batch, {})
    ensures kind < 3 && Has(batch, kind)
  {
    hide LostIn, EffectOf, Stashed, Agrees, HasKind;
    NothingAgrees();
    StashAgrees([], batch, [], {});
    assert [] + batch == batch;
    LostHadKind(EffectOf(Stashed([], batch)), EffectOf(batch), LostIn([], batch, {}), kind);
    EffectCameFrom(batch, kind);
  }

  lemma {:induction false} EffectCameFrom(q: seq<UiCommand>, kind: nat)
    requires HasKind(EffectOf(q), kind)
    ensures Has(q, kind)
  {
    if q != [] {
      var before, last := q[..|q| - 1], q[|q| - 1];
      assert q == before + [last];
      if HasKind(EffectOf(before), kind) {
        EffectCameFrom(before, kind);
        SnocKeepsHas(before, kind, last);
      } else {
        assert last in q && KindOf(last) == kind;
      }
    }
  }

  /**
   In an outage in which nobody repeats a clear or a close, the replay means what was requested
   exactly when no last request has a queue's worth of commands behind it.
   */
  lemma OnceOutageKeepsMeaningIff(batch: seq<UiCommand>)
    requires AskedOnce(batch)
    ensures (forall d :: Replay(d, DropStale(Stashed([], batch))) == Replay(d, DropStale(batch)))
            <==> forall p: nat :: LastOfKind(batch, p) ==> Load(batch[p + 1..]) < 128
  {
    OutageKeepsMeaning(batch);
    var lost := LostIn([], batch, {});
    forall p: nat | LastOfKind(batch, p)
      ensures KindOf(batch[p]) in lost <==> Load(batch[p + 1..]) >= MAX_OFFLINE_COMMANDS
    {
      ForgottenIff(batch, p);
    }
    if lost != {} {
      var kind :| kind in lost;
      LostWasRequested(batch, kind);
      var p := FindLast(batch, kind);
      assert LastOfKind(batch, p);
    }
  }
}
