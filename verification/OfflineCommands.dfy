/** Buffering of panel commands while the daemon is away, and their replay after reconnecting. */
module OfflineCommands {
  import opened Support

  datatype UiCommand =
    | Dismiss(id: int)
    | InvokeAction(id: int, actionKey: string)
    | ClearAll
    | SetDnd(enabled: bool)
    | ClosePanel

  const MAX_OFFLINE_COMMANDS := 128

  /** Commands that do not name a notification. */
  predicate IdIndependent(c: UiCommand) {
    c.ClearAll? || c.SetDnd? || c.ClosePanel?
  }

  predicate NotDnd(c: UiCommand) {
    !c.SetDnd?
  }

  /** A one-shot command that is buffered already. */
  predicate Repeats(q: seq<UiCommand>, c: UiCommand) {
    (c.ClearAll? || c.ClosePanel?) && c in q
  }

  /** The queue without the commands that `c` makes stale. */
  function Kept(q: seq<UiCommand>, c: UiCommand): seq<UiCommand> {
    if c.SetDnd? then Filter(NotDnd, q) else q
  }

  function Trimmed(q: seq<UiCommand>): seq<UiCommand> {
    if |q| >= MAX_OFFLINE_COMMANDS then q[1..] else q
  }

  function Enqueued(q: seq<UiCommand>, c: UiCommand): seq<UiCommand> {
    if Repeats(q, c) then q else Trimmed(Kept(q, c)) + [c]
  }

  function Stashed(q: seq<UiCommand>, batch: seq<UiCommand>): seq<UiCommand>
    decreases |batch|
  {
    if batch == [] then q else Stashed(Enqueued(q, batch[0]), batch[1..])
  }

  // ---------------------------------------------------------------------------------------------
  // Shape of the queue
  // ---------------------------------------------------------------------------------------------

  /** The commands that replace one another. */
  predicate SameKind(a: UiCommand, b: UiCommand) {
    (a.ClearAll? && b.ClearAll?) || (a.ClosePanel? && b.ClosePanel?) || (a.SetDnd? && b.SetDnd?)
  }

  /** At most one command of each replaceable kind. */
  ghost predicate OneOfEach(q: seq<UiCommand>) {
    forall i, j :: 0 <= i < j < |q| ==> !SameKind(q[i], q[j])
  }

  ghost predicate Coalesced(q: seq<UiCommand>) {
    |q| <= 128 && OneOfEach(q)
  }

  /** `a` is `b` with some elements left out. */
  predicate Subsequence<T(==)>(a: seq<T>, b: seq<T>) {
    if b == [] then a == []
    else (a != [] && a[0] == b[0] && Subsequence(a[1..], b[1..])) || Subsequence(a, b[1..])
  }

  lemma SubsequenceSkips<T>(a: seq<T>, b: seq<T>, x: T)
    requires Subsequence(a, b)
    ensures Subsequence(a, [x] + b) && Subsequence([x] + a, [x] + b)
  {
  }

  lemma {:induction false} SubsequenceTail<T>(a: seq<T>, b: seq<T>)
    requires a != [] && Subsequence(a, b)
    ensures Subsequence(a[1..], b)
    decreases |b|
  {
    if !(a[0] == b[0] && Subsequence(a[1..], b[1..])) {
      SubsequenceTail(a, b[1..]);
    }
  }

  lemma {:induction false} SubsequenceSelf<T>(a: seq<T>)
    ensures Subsequence(a, a)
  {
    if a != [] {
      SubsequenceSelf(a[1..]);
    }
  }

  lemma {:induction false} SubsequenceAppend<T>(a: seq<T>, b: seq<T>, c: seq<T>)
    requires Subsequence(a, b)
    ensures Subsequence(a + c, b + c)
    decreases |b|
  {
    if b == [] {
      assert a + c == c && b + c == c;
      SubsequenceSelf(c);
    } else {
      assert (b + c)[1..] == b[1..] + c;
      if a != [] && a[0] == b[0] && Subsequence(a[1..], b[1..]) {
        assert (a + c)[1..] == a[1..] + c;
        SubsequenceAppend(a[1..], b[1..], c);
      } else {
        SubsequenceAppend(a, b[1..], c);
      }
    }
  }

  lemma {:induction false} SubsequenceGrows<T>(a: seq<T>, b: seq<T>, c: seq<T>)
    requires Subsequence(a, b)
    ensures Subsequence(a, b + c)
    decreases |b| + |c|
  {
    if b == [] {
      if c != [] {
        SubsequenceGrows([], [], c[1..]);
        assert ([] + c)[1..] == [] + c[1..];
      }
    } else {
      assert (b + c)[1..] == b[1..] + c;
      if a != [] && a[0] == b[0] && Subsequence(a[1..], b[1..]) {
        SubsequenceGrows(a[1..], b[1..], c);
      } else {
        SubsequenceGrows(a, b[1..], c);
      }
    }
  }

  lemma {:induction false} SubsequenceTrans<T>(a: seq<T>, b: seq<T>, c: seq<T>)
    requires Subsequence(a, b) && Subsequence(b, c)
    ensures Subsequence(a, c)
    decreases |c|
  {
    if c != [] {
      if b != [] && b[0] == c[0] && Subsequence(b[1..], c[1..]) {
        SubsequenceTrans(if a != [] && a[0] == b[0] && Subsequence(a[1..], b[1..]) then a[1..] else a, b[1..], c[1..]);
      } else {
        SubsequenceTrans(a, b, c[1..]);
      }
    }
  }

  lemma {:induction false} FilterIsSubsequence<T>(keep: T -> bool, q: seq<T>)
    ensures Subsequence(Filter(keep, q), q)
  {
    if q != [] {
      FilterIsSubsequence(keep, q[1..]);
      SubsequenceSkips(Filter(keep, q[1..]), q[1..], q[0]);
      assert q == [q[0]] + q[1..];
      assert Filter(keep, q) == (if keep(q[0]) then [q[0]] else []) + Filter(keep, q[1..]);
      assert [] + Filter(keep, q[1..]) == Filter(keep, q[1..]);
    }
  }

  lemma {:induction false} FilterKeepsOneOfEach(keep: UiCommand -> bool, q: seq<UiCommand>)
    requires OneOfEach(q)
    ensures OneOfEach(Filter(keep, q))
  {
    if q != [] {
      assert forall i :: 0 <= i < |q[1..]| ==> q[1..][i] == q[i + 1];
      FilterKeepsOneOfEach(keep, q[1..]);
      FilterMembers(keep, q[1..]);
      var rest := Filter(keep, q[1..]);
      forall j | 0 <= j < |rest|
        ensures !SameKind(q[0], rest[j])
      {
        assert rest[j] in q[1..];
        var k :| 0 <= k < |q[1..]| && q[1..][k] == rest[j];
      }
    }
  }

  lemma KeptFacts(q: seq<UiCommand>, c: UiCommand)
    requires Coalesced(q)
    ensures Coalesced(Kept(q, c)) && Subsequence(Kept(q, c), q)
    ensures forall x :: x in Kept(q, c) <==> x in q && !(c.SetDnd? && x.SetDnd?)
  {
    if c.SetDnd? {
      FilterKeepsOneOfEach(NotDnd, q);
      FilterMembers(NotDnd, q);
      FilterIsSubsequence(NotDnd, q);
    } else {
      SubsequenceSelf(q);
    }
  }

  lemma EnqueueOneOfEach(q: seq<UiCommand>, c: UiCommand)
    requires Coalesced(q)
    ensures Coalesced(Enqueued(q, c))
  {
    hide Subsequence;
    KeptFacts(q, c);
    var k := Kept(q, c);
    if !Repeats(q, c) {
      forall i | 0 <= i < |k|
        ensures !SameKind(k[i], c)
      {
        assert k[i] in k;
      }
    }
  }

  /** Buffering keeps the queue coalesced, and only ever leaves commands out. */
  lemma EnqueueKeepsCoalesced(q: seq<UiCommand>, c: UiCommand)
    requires Coalesced(q)
    ensures Coalesced(Enqueued(q, c)) && Subsequence(Enqueued(q, c), q + [c])
  {
    hide Subsequence, Coalesced;
    EnqueueOneOfEach(q, c);
    KeptFacts(q, c);
    var k := Kept(q, c);
    if Repeats(q, c) {
      SubsequenceSelf(q);
      SubsequenceGrows(q, q, [c]);
    } else {
      SubsequenceSelf(k);
      if |k| >= MAX_OFFLINE_COMMANDS {
        SubsequenceTail(k, k);
      }
      SubsequenceTrans(Trimmed(k), k, q);
      SubsequenceAppend(Trimmed(k), q, [c]);
    }
  }

  lemma {:induction false} StashKeepsCoalesced(q: seq<UiCommand>, batch: seq<UiCommand>)
    requires Coalesced(q)
    ensures Coalesced(Stashed(q, batch)) && Subsequence(Stashed(q, batch), q + batch)
    decreases |batch|
  {
    hide Enqueued, Subsequence, Coalesced;
    if batch == [] {
      assert q + batch == q;
      SubsequenceSelf(q);
    } else {
      var next := Enqueued(q, batch[0]);
      EnqueueKeepsCoalesced(q, batch[0]);
      StashKeepsCoalesced(next, batch[1..]);
      SubsequenceAppend(next, q + [batch[0]], batch[1..]);
      assert q + [batch[0]] + batch[1..] == q + batch;
      SubsequenceTrans(Stashed(q, batch), next + batch[1..], q + batch);
    }
  }

  // ---------------------------------------------------------------------------------------------
  // Meaning of a queue
  // ---------------------------------------------------------------------------------------------

  /** What the id-independent commands of a queue amount to. */
  datatype Effect = Effect(dnd: Option<bool>, closed: bool, cleared: bool)

  function Then(e: Effect, c: UiCommand): Effect {
    match c
    case ClearAll => e.(cleared := true)
    case ClosePanel => e.(closed := true)
    case SetDnd(b) => e.(dnd := Some(b))
    case Dismiss(_) => e
    case InvokeAction(_, _) => e
  }

  function EffectOf(q: seq<UiCommand>): Effect {
    if q == [] then Effect(None, false, false)
    else Then(EffectOf(q[..|q| - 1]), q[|q| - 1])
  }

  lemma EffectSnoc(q: seq<UiCommand>, c: UiCommand)
    ensures EffectOf(q + [c]) == Then(EffectOf(q), c)
  {
  }

  /** In a coalesced queue the effect is a matter of membership. */
  lemma {:induction false} EffectByMembers(q: seq<UiCommand>)
    requires OneOfEach(q)
    ensures EffectOf(q).cleared <==> ClearAll in q
    ensures EffectOf(q).closed <==> ClosePanel in q
    ensures forall b :: EffectOf(q).dnd == Some(b) <==> SetDnd(b) in q
  {
    if q != [] {
      var before, last := q[..|q| - 1], q[|q| - 1];
      assert q == before + [last];
      EffectByMembers(before);
      forall b | SetDnd(b) in before
        ensures !last.SetDnd?
      {
        var i :| 0 <= i < |before| && before[i] == SetDnd(b);
        assert !SameKind(q[i], q[|q| - 1]);
      }
    }
  }

  /** The queue is full and its front is a command that still matters. */
  predicate Loses(q: seq<UiCommand>, c: UiCommand) {
    && !Repeats(q, c)
    && |Kept(q, c)| >= MAX_OFFLINE_COMMANDS
    && IdIndependent(Kept(q, c)[0])
  }

  /**
   Buffering one command adds exactly its effect to the queue's, unless the queue is full and the
   command pushed out at the front was id-independent: then, and only then, the effect is wrong.
   */
  lemma EnqueueEffect(q: seq<UiCommand>, c: UiCommand)
    requires Coalesced(q)
    ensures EffectOf(Enqueued(q, c)) == Then(EffectOf(q), c) <==> !Loses(q, c)
  {
    KeptFacts(q, c);
    EnqueueKeepsCoalesced(q, c);
    EffectByMembers(q);
    var k, r := Kept(q, c), Enqueued(q, c);
    EffectByMembers(r);
    if !Repeats(q, c) {
      assert forall x :: x in r <==> x in Trimmed(k) || x == c;
      if |k| >= MAX_OFFLINE_COMMANDS {
        FrontLeaves(k);
        if IdIndependent(k[0]) {
          assert k[0] in q && k[0] !in k[1..];
          EffectDiffers(q, r, c, k[0]);
        }
      }
      if !Loses(q, c) {
        EffectSame(q, r, c);
      }
    }
  }

  lemma FrontLeaves(k: seq<UiCommand>)
    requires OneOfEach(k) && k != []
    ensures forall x :: x in k <==> x == k[0] || x in k[1..]
    ensures IdIndependent(k[0]) ==> forall x :: x in k[1..] ==> !SameKind(k[0], x)
  {
  }

  /** Both effects are known by membership; they differ on the kind that was pushed out. */
  lemma EffectDiffers(q: seq<UiCommand>, r: seq<UiCommand>, c: UiCommand, front: UiCommand)
    requires OneOfEach(q) && OneOfEach(r) && IdIndependent(front) && front in q
    requires !SameKind(front, c) && (forall x :: x in r ==> !SameKind(front, x))
    ensures EffectOf(r) != Then(EffectOf(q), c)
  {
    EffectByMembers(q);
    EffectByMembers(r);
    assert SameKind(front, front);
  }

  lemma EffectSame(q: seq<UiCommand>, r: seq<UiCommand>, c: UiCommand)
    requires OneOfEach(q) && OneOfEach(r) && c in r
    requires forall x :: IdIndependent(x) && x != c ==> (x in r <==> x in q && !(c.SetDnd? && x.SetDnd?))
    ensures EffectOf(r) == Then(EffectOf(q), c)
  {
    EffectByMembers(q);
    EffectByMembers(r);
    var e, f := EffectOf(r), Then(EffectOf(q), c);
    assert e.dnd == f.dnd by {
      assert forall b :: e.dnd == Some(b) <==> f.dnd == Some(b);
      assert e.dnd.Some? ==> e.dnd == Some(e.dnd.value);
      assert f.dnd.Some? ==> f.dnd == Some(f.dnd.value);
    }
  }

  /** Replaceable kinds are numbered 0, 1 and 2; the other commands share a number. */
  function KindOf(c: UiCommand): nat {
    if c.ClearAll? then 0 else if c.ClosePanel? then 1 else if c.SetDnd? then 2 else 3
  }

  /** The kinds pushed out and not requested again: a request recovers its kind, a push-out loses one. */
  function LostAfter(q: seq<UiCommand>, c: UiCommand, lost: set<nat>): set<nat> {
    (lost - {KindOf(c)}) + if Loses(q, c) then {KindOf(Kept(q, c)[0])} else {}
  }

  function LostIn(q: seq<UiCommand>, batch: seq<UiCommand>, lost: set<nat>): set<nat>
    decreases |batch|
  {
    if batch == [] then lost
    else LostIn(Enqueued(q, batch[0]), batch[1..], LostAfter(q, batch[0], lost))
  }

  /** `f` is `e`, except that it lacks the kinds in `lost`. */
  ghost predicate Agrees(f: Effect, e: Effect, lost: set<nat>) {
    && lost <= {0, 1, 2}
    && (if 0 in lost then !f.cleared && e.cleared else f.cleared == e.cleared)
    && (if 1 in lost then !f.closed && e.closed else f.closed == e.closed)
    && (if 2 in lost then f.dnd.None? && e.dnd.Some? else f.dnd == e.dnd)
  }

  lemma AgreesExactly(f: Effect, e: Effect, lost: set<nat>)
    requires Agrees(f, e, lost)
    ensures f == e <==> lost == {}
  {
    if f == e {
      assert 0 !in lost && 1 !in lost && 2 !in lost;
    }
  }

  /** What is left of an effect without the kinds in `lost`. */
  function Surviving(e: Effect, lost: set<nat>): Effect {
    Effect(if 2 in lost then None else e.dnd, e.closed && 1 !in lost, e.cleared && 0 !in lost)
  }

  lemma AgreesMeansSurviving(f: Effect, e: Effect, lost: set<nat>)
    requires Agrees(f, e, lost)
    ensures f == Surviving(e, lost)
  {
  }

  /** An effect without the kind of one of its commands. */
  function Without(e: Effect, c: UiCommand): Effect {
    match c
    case ClearAll => e.(cleared := false)
    case ClosePanel => e.(closed := false)
    case SetDnd(_) => e.(dnd := None)
    case _ => e
  }

  lemma ThenAgrees(f: Effect, e: Effect, lost: set<nat>, c: UiCommand)
    requires Agrees(f, e, lost)
    ensures Agrees(Then(f, c), Then(e, c), lost - {KindOf(c)})
  {
  }

  lemma WithoutAgrees(f: Effect, e: Effect, lost: set<nat>, front: UiCommand)
    requires Agrees(f, e, lost) && IdIndependent(front) && Without(f, front) != f
    ensures Agrees(Without(f, front), e, lost + {KindOf(front)})
  {
  }

  /** What a losing call leaves: everything but the kind at the front. */
  lemma LosingStep(q: seq<UiCommand>, c: UiCommand)
    requires Coalesced(q) && Loses(q, c)
    ensures var g, front := Then(EffectOf(q), c), Kept(q, c)[0];
      EffectOf(Enqueued(q, c)) == Without(g, front) != g
  {
    KeptFacts(q, c);
    EnqueueOneOfEach(q, c);
    var k := Kept(q, c);
    FrontLeaves(k);
    assert k[0] in k;
    EffectWithout(q, Enqueued(q, c), c, k[0]);
  }

  /** The effect when `front` was pushed out: everything but its kind. */
  lemma EffectWithout(q: seq<UiCommand>, r: seq<UiCommand>, c: UiCommand, front: UiCommand)
    requires OneOfEach(q) && OneOfEach(r) && IdIndependent(front) && front in q && c in r
    requires !SameKind(front, c) && (forall x :: x in r ==> !SameKind(front, x))
    requires forall x :: IdIndependent(x) && x != c && !SameKind(front, x) ==>
                           (x in r <==> x in q && !(c.SetDnd? && x.SetDnd?))
    ensures EffectOf(r) == Without(Then(EffectOf(q), c), front) != Then(EffectOf(q), c)
  {
    EffectByMembers(q);
    EffectByMembers(r);
    var f, g := EffectOf(r), Then(EffectOf(q), c);
    assert SameKind(front, front);
    if front.SetDnd? {
      assert f.dnd.Some? ==> SetDnd(f.dnd.value) in r && SameKind(front, SetDnd(f.dnd.value));
      assert front == SetDnd(front.enabled) && g.dnd == Some(front.enabled);
    } else {
      assert forall b :: f.dnd == Some(b) <==> g.dnd == Some(b);
      assert f.dnd.Some? ==> f.dnd == Some(f.dnd.value);
      assert g.dnd.Some? ==> g.dnd == Some(g.dnd.value);
    }
  }

  lemma EnqueueAgrees(q: seq<UiCommand>, c: UiCommand, e: Effect, lost: set<nat>)
    requires Coalesced(q) && Agrees(EffectOf(q), e, lost)
    ensures Agrees(EffectOf(Enqueued(q, c)), Then(e, c), LostAfter(q, c, lost))
  {
    hide Enqueued, EffectOf, Agrees, Then, Coalesced, Without, Kept;
    ThenAgrees(EffectOf(q), e, lost, c);
    EnqueueEffect(q, c);
    if Loses(q, c) {
      LosingStep(q, c);
      WithoutAgrees(Then(EffectOf(q), c), Then(e, c), lost - {KindOf(c)}, Kept(q, c)[0]);
    } else {
      assert LostAfter(q, c, lost) == lost - {KindOf(c)};
    }
  }

  lemma {:induction false} StashAgrees(q: seq<UiCommand>, batch: seq<UiCommand>, before: seq<UiCommand>, lost: set<nat>)
    requires Coalesced(q) && Agrees(EffectOf(q), EffectOf(before), lost)
    ensures Agrees(EffectOf(Stashed(q, batch)), EffectOf(before + batch), LostIn(q, batch, lost))
    decreases |batch|
  {
    hide Enqueued, LostAfter, Agrees, Then, Coalesced;
    if batch == [] {
      assert before + batch == before;
    } else {
      hide EffectOf;
      var c := batch[0];
      EnqueueOneOfEach(q, c);
      EnqueueAgrees(q, c, EffectOf(before), lost);
      EffectSnoc(before, c);
      StashAgrees(Enqueued(q, c), batch[1..], before + [c], LostAfter(q, c, lost));
      assert before + [c] + batch[1..] == before + batch;
    }
  }

  /** A whole outage keeps the effect of everything requested exactly when nothing stays lost. */
  lemma StashEffect(batch: seq<UiCommand>)
    ensures EffectOf(Stashed([], batch)) == EffectOf(batch) <==> LostIn([], batch, {}) == {}
  {
    StashAgrees([], batch, [], {});
    assert [] + batch == batch;
    AgreesExactly(EffectOf(Stashed([], batch)), EffectOf(batch), LostIn([], batch, {}));
  }

  /** Outages with at most as many requests as the queue holds lose nothing. */
  lemma {:induction false} ShortOutage(q: seq<UiCommand>, batch: seq<UiCommand>)
    requires Coalesced(q) && |q| + |batch| <= 128
    ensures LostIn(q, batch, {}) == {}
    decreases |batch|
  {
    if batch != [] {
      KeptFacts(q, batch[0]);
      FilterMembers(NotDnd, q);
      EnqueueOneOfEach(q, batch[0]);
      assert LostAfter(q, batch[0], {}) == {};
      ShortOutage(Enqueued(q, batch[0]), batch[1..]);
    }
  }

  // ---------------------------------------------------------------------------------------------
  // Replay
  // ---------------------------------------------------------------------------------------------

  /** What the id-independent commands act on. */
  datatype DaemonState = DaemonState(dnd: bool, panelOpen: bool, rows: set<int>)

  function Handle(d: DaemonState, c: UiCommand): DaemonState {
    match c
    case Dismiss(id) => d.(rows := d.rows - {id})
    case InvokeAction(_, _) => d
    case ClearAll => d.(rows := {})
    case SetDnd(enabled) => d.(dnd := enabled)
    case ClosePanel => d.(panelOpen := false)
  }

  function Replay(d: DaemonState, q: seq<UiCommand>): DaemonState {
    if q == [] then d else Handle(Replay(d, q[..|q| - 1]), q[|q| - 1])
  }

  function Impose(d: DaemonState, e: Effect): DaemonState {
    DaemonState(if e.dnd.Some? then e.dnd.value else d.dnd, d.panelOpen && !e.closed,
                if e.cleared then {} else d.rows)
  }

  function DropStale(q: seq<UiCommand>): seq<UiCommand> {
    Filter(IdIndependent, q)
  }

  lemma {:induction false} StaleHasNoEffect(q: seq<UiCommand>)
    ensures EffectOf(DropStale(q)) == EffectOf(q)
    ensures forall c :: c in DropStale(q) ==> IdIndependent(c)
  {
    if q != [] {
      var before, last := q[..|q| - 1], q[|q| - 1];
      assert q == before + [last];
      StaleHasNoEffect(before);
      FilterConcat(IdIndependent, before, [last]);
      assert Filter(IdIndependent, [last]) == if IdIndependent(last) then [last] else [];
      if IdIndependent(last) {
        EffectSnoc(DropStale(before), last);
      } else {
        assert DropStale(q) == DropStale(before);
      }
    }
    FilterMembers(IdIndependent, q);
  }

  lemma {:induction false} ReplayIsEffect(d: DaemonState, q: seq<UiCommand>)
    requires forall c :: c in q ==> IdIndependent(c)
    ensures Replay(d, q) == Impose(d, EffectOf(q))
  {
    if q != [] {
      var before, last := q[..|q| - 1], q[|q| - 1];
      assert q == before + [last] && last in q;
      ReplayIsEffect(d, before);
    }
  }

  lemma ImposedDiffer(e: Effect, f: Effect) returns (d: DaemonState)
    requires e != f
    ensures Impose(d, e) != Impose(d, f)
  {
    if e.dnd.Some? && f.dnd.None? {
      d := DaemonState(!e.dnd.value, true, {1});
    } else if e.dnd.None? && f.dnd.Some? {
      d := DaemonState(!f.dnd.value, true, {1});
    } else {
      d := DaemonState(true, true, {1});
    }
  }

  lemma ReplayOfRequests(d: DaemonState, q: seq<UiCommand>)
    ensures Replay(d, DropStale(q)) == Impose(d, EffectOf(q))
  {
    StaleHasNoEffect(q);
    ReplayIsEffect(d, DropStale(q));
  }

  /** Whatever was lost, the replay imposes exactly the kinds that were not. */
  lemma OutageImposesSurviving(d: DaemonState, batch: seq<UiCommand>)
    ensures Replay(d, DropStale(Stashed([], batch))) == Impose(d, Surviving(EffectOf(batch), LostIn([], batch, {})))
  {
    StashAgrees([], batch, [], {});
    assert [] + batch == batch;
    AgreesMeansSurviving(EffectOf(Stashed([], batch)), EffectOf(batch), LostIn([], batch, {}));
    ReplayOfRequests(d, Stashed([], batch));
  }

  lemma ReplaysAgree(d: DaemonState, q: seq<UiCommand>, r: seq<UiCommand>)
    requires EffectOf(q) == EffectOf(r)
    ensures Replay(d, DropStale(q)) == Replay(d, DropStale(r))
  {
    ReplayOfRequests(d, q);
    ReplayOfRequests(d, r);
  }

  lemma ReplaysDiffer(q: seq<UiCommand>, r: seq<UiCommand>) returns (d: DaemonState)
    requires EffectOf(q) != EffectOf(r)
    ensures Replay(d, DropStale(q)) != Replay(d, DropStale(r))
  {
    d := ImposedDiffer(EffectOf(q), EffectOf(r));
    ReplayOfRequests(d, q);
    ReplayOfRequests(d, r);
  }

  /**
   The outage theorem: whatever the daemon's state, replaying what was buffered and survived the
   stale filter leaves it as replaying every id-independent request in order would have, exactly
   when no kind of request was pushed out for good.
   */
  lemma OutageKeepsMeaning(batch: seq<UiCommand>)
    ensures (forall d :: Replay(d, DropStale(Stashed([], batch))) == Replay(d, DropStale(batch)))
            <==> LostIn([], batch, {}) == {}
  {
    var q := Stashed([], batch);
    StashEffect(batch);
    if EffectOf(q) == EffectOf(batch) {
      forall d
        ensures Replay(d, DropStale(q)) == Replay(d, DropStale(batch))
      {
        ReplaysAgree(d, q, batch);
      }
    } else {
      var d := ReplaysDiffer(q, batch);
    }
  }

  // ---------------------------------------------------------------------------------------------
  // Calls that fail
  // ---------------------------------------------------------------------------------------------

  /** The commands of a replay that took effect; `took` says so for each position. */
  function Delivered(q: seq<UiCommand>, took: nat -> bool): seq<UiCommand> {
    if q == [] then []
    else Delivered(q[..|q| - 1], took) + if took(|q| - 1) then [q[|q| - 1]] else []
  }

  function FailedKinds(q: seq<UiCommand>, took: nat -> bool): set<nat> {
    set i | 0 <= i < |q| && !took(i) :: KindOf(q[i])
  }

  lemma FailedSnoc(q: seq<UiCommand>, c: UiCommand, took: nat -> bool)
    ensures FailedKinds(q + [c], took) == FailedKinds(q, took) + if took(|q|) then {} else {KindOf(c)}
  {
    forall k
      ensures k in FailedKinds(q + [c], took) <==> k in FailedKinds(q, took) || (!took(|q|) && k == KindOf(c))
    {
      if k in FailedKinds(q, took) {
        var i :| 0 <= i < |q| && !took(i) && KindOf(q[i]) == k;
        assert (q + [c])[i] == q[i];
      }
      if !took(|q|) && k == KindOf(c) {
        assert (q + [c])[|q|] == c;
      }
    }
  }

  lemma DeliveredSnoc(d: DaemonState, q: seq<UiCommand>, c: UiCommand, took: nat -> bool)
    ensures Replay(d, Delivered(q + [c], took))
         == if took(|q|) then Handle(Replay(d, Delivered(q, took)), c) else Replay(d, Delivered(q, took))
  {
    var before := Delivered(q, took);
    assert (q + [c])[..|q|] == q && (before + [c])[..|before|] == before;
    assert Delivered(q + [c], took) == before + if took(|q|) then [c] else [];
    assert before + [] == before;
  }

  /** Adding a command of a kind the queue did not have, and leaving its kind out or not. */
  lemma ThenSurvives(e: Effect, c: UiCommand, lost: set<nat>)
    requires IdIndependent(c) && Without(e, c) == e
    ensures KindOf(c) !in lost ==> Then(Surviving(e, lost), c) == Surviving(Then(e, c), lost)
    ensures Surviving(e, lost) == Surviving(Then(e, c), lost + {KindOf(c)})
  {
  }

  lemma NewKind(q: seq<UiCommand>, c: UiCommand)
    requires OneOfEach(q + [c]) && IdIndependent(c)
    ensures OneOfEach(q) && Without(EffectOf(q), c) == EffectOf(q)
    ensures forall i :: 0 <= i < |q| ==> KindOf(q[i]) != KindOf(c)
  {
    var all := q + [c];
    forall i | 0 <= i < |q|
      ensures KindOf(q[i]) != KindOf(c)
    {
      assert !SameKind(all[i], all[|q|]);
    }
    assert OneOfEach(q) by {
      forall i, j | 0 <= i < j < |q|
        ensures !SameKind(q[i], q[j])
      {
        assert !SameKind(all[i], all[j]);
      }
    }
    EffectByMembers(q);
    assert EffectOf(q).dnd.Some? ==> EffectOf(q).dnd == Some(EffectOf(q).dnd.value);
  }

  /** A coalesced replay imposes exactly the kinds whose command took effect. */
  lemma {:induction false} DeliveredEffect(q: seq<UiCommand>, took: nat -> bool)
    requires OneOfEach(q) && forall c :: c in q ==> IdIndependent(c)
    ensures EffectOf(Delivered(q, took)) == Surviving(EffectOf(q), FailedKinds(q, took))
  {
    if q != [] {
      hide Then, Surviving, FailedKinds, Without, OneOfEach;
      var before, last := q[..|q| - 1], q[|q| - 1];
      assert q == before + [last] && last in q;
      NewKind(before, last);
      DeliveredEffect(before, took);
      FailedSnoc(before, last, took);
      NoFailedKind(before, last, took);
      ThenSurvives(EffectOf(before), last, FailedKinds(before, took));
      EffectSnoc(before, last);
      if took(|before|) {
        EffectSnoc(Delivered(before, took), last);
        assert FailedKinds(q, took) == FailedKinds(before, took);
      } else {
        assert Delivered(q, took) == Delivered(before, took);
      }
    } else {
      assert FailedKinds(q, took) == {};
    }
  }

  lemma NoFailedKind(q: seq<UiCommand>, c: UiCommand, took: nat -> bool)
    requires forall i :: 0 <= i < |q| ==> KindOf(q[i]) != KindOf(c)
    ensures KindOf(c) !in FailedKinds(q, took)
  {
  }

  /** The kinds a reconnect fails to deliver. */
  function Undelivered(batch: seq<UiCommand>, took: nat -> bool): set<nat> {
    FailedKinds(DropStale(Stashed([], batch)), took)
  }

  /**
   Whatever was pushed out and whichever calls fail, the replay imposes on every daemon state the
   requested effect without exactly those kinds.
   */
  lemma ReplayImposesDelivered(d: DaemonState, batch: seq<UiCommand>, took: nat -> bool)
    ensures Replay(d, Delivered(DropStale(Stashed([], batch)), took))
         == Impose(d, Surviving(EffectOf(batch), LostIn([], batch, {}) + Undelivered(batch, took)))
  {
    hide Stashed, Filter, Delivered, FailedKinds, Replay, EffectOf, LostIn, Agrees, Impose, Subsequence;
    var q := DropStale(Stashed([], batch));
    NothingAgrees();
    StashKeepsCoalesced([], batch);
    FilterKeepsOneOfEach(IdIndependent, Stashed([], batch));
    FilterMembers(IdIndependent, Stashed([], batch));
    DeliveredEffect(q, took);
    DeliveredMembers(q, took);
    ReplayIsEffect(d, Delivered(q, took));
    StaleHasNoEffect(Stashed([], batch));
    StashAgrees([], batch, [], {});
    assert [] + batch == batch;
    AgreesMeansSurviving(EffectOf(Stashed([], batch)), EffectOf(batch), LostIn([], batch, {}));
  }

  lemma NothingAgrees()
    ensures Agrees(EffectOf([]), EffectOf([]), {})
  {
  }

  lemma {:induction false} DeliveredMembers(q: seq<UiCommand>, took: nat -> bool)
    ensures forall c :: c in Delivered(q, took) ==> c in q
  {
    if q != [] {
      DeliveredMembers(q[..|q| - 1], took);
    }
  }

  /** Only clears, closes and do-not-disturb requests are replayed, and all that are still queued. */
  lemma ReplayedAre(q: seq<UiCommand>)
    ensures forall c :: c in DropStale(q) <==> c in q && (c.ClearAll? || c.ClosePanel? || c.SetDnd?)
    ensures Subsequence(DropStale(q), q)
  {
    FilterMembers(IdIndependent, q);
    FilterIsSubsequence(IdIndependent, q);
  }

  /** At most one command of each kind is ever replayed. */
  lemma ReplayIsShort(batch: seq<UiCommand>)
    ensures |DropStale(Stashed([], batch))| <= 3
  {
    StashKeepsCoalesced([], batch);
    FilterKeepsOneOfEach(IdIndependent, Stashed([], batch));
    FilterMembers(IdIndependent, Stashed([], batch));
    KindsBound(DropStale(Stashed([], batch)), {0, 1, 2});
  }

  lemma KindsBound(q: seq<UiCommand>, among: set<nat>)
    requires OneOfEach(q) && forall c :: c in q ==> IdIndependent(c) && KindOf(c) in among
    ensures |q| <= |among|
  {
    var kinds := seq(|q|, i requires 0 <= i < |q| => KindOf(q[i]));
    forall i, j | 0 <= i < j < |kinds|
      ensures kinds[i] != kinds[j]
    {
      assert q[i] in q && q[j] in q && !SameKind(q[i], q[j]);
    }
    DistinctSize(kinds);
    assert forall i :: 0 <= i < |kinds| ==> q[i] in q && kinds[i] in among;
    SubsetSize(Elements(kinds), among);
  }

  function Dismissals(n: nat): seq<UiCommand> {
    seq(n, i => Dismiss(i))
  }

  lemma {:induction false} FillsUp(q: seq<UiCommand>, n: nat)
    requires |q| + n <= MAX_OFFLINE_COMMANDS
    ensures Stashed(q, Dismissals(n)) == q + Dismissals(n)
    decreases n
  {
    if n == 0 {
      assert q + Dismissals(0) == q;
    } else {
      StashedSnoc(q, Dismissals(n - 1), Dismiss(n - 1));
      FillsUp(q, n - 1);
      assert Dismissals(n) == Dismissals(n - 1) + [Dismiss(n - 1)];
      assert q + Dismissals(n - 1) + [Dismiss(n - 1)] == q + Dismissals(n);
    }
  }

  lemma {:induction false} StashedSnoc(q: seq<UiCommand>, batch: seq<UiCommand>, c: UiCommand)
    ensures Stashed(q, batch + [c]) == Enqueued(Stashed(q, batch), c)
    decreases |batch|
  {
    if batch == [] {
      assert batch + [c] == [c];
      assert Stashed(q, [c]) == Stashed(Enqueued(q, c), [c][1..]);
    } else {
      assert (batch + [c])[1..] == batch[1..] + [c];
      StashedSnoc(Enqueued(q, batch[0]), batch[1..], c);
    }
  }

  /** A clear followed by as many dismissals as the queue holds is forgotten: the rows stay. */
  lemma LongOutageForgetsClear(d: DaemonState)
    requires d.rows != {}
    ensures var batch := [ClearAll] + Dismissals(128);
      && Replay(d, DropStale(batch)).rows == {}
      && Replay(d, DropStale(Stashed([], batch))).rows == d.rows
  {
    var n := MAX_OFFLINE_COMMANDS - 1;
    var full := [ClearAll] + Dismissals(n);
    var batch := [ClearAll] + Dismissals(n + 1);
    assert Dismissals(n + 1) == Dismissals(n) + [Dismiss(n)];
    assert batch == full + [Dismiss(n)];
    assert Stashed([], full) == Stashed([ClearAll], Dismissals(n)) by {
      assert full[1..] == Dismissals(n);
      assert Enqueued([], ClearAll) == [ClearAll];
    }
    FillsUp([ClearAll], n);
    StashedSnoc([], full, Dismiss(n));
    var q := Stashed([], batch);
    assert q == full[1..] + [Dismiss(n)] == Dismissals(n + 1);
    NoneKept(Dismissals(n + 1));
    FilterConcat(IdIndependent, [ClearAll], Dismissals(n + 1));
    assert DropStale([ClearAll]) == [ClearAll];
    assert DropStale(batch) == [ClearAll];
    assert Replay(d, [ClearAll]) == Handle(Replay(d, [ClearAll][..0]), ClearAll);
  }

  lemma {:induction false} NoneKept(q: seq<UiCommand>)
    requires forall c :: c in q ==> !IdIndependent(c)
    ensures DropStale(q) == []
  {
    if q != [] {
      assert q[0] in q;
      NoneKept(q[1..]);
    }
  }

  // ---------------------------------------------------------------------------------------------
  // The buffer
  // ---------------------------------------------------------------------------------------------

  class OfflineBuffer {
    var offline: seq<UiCommand>

    ghost predicate Valid()
      reads this
    {
      Coalesced(offline)
    }

    constructor ()
      ensures Valid() && offline == []
    {
      offline := [];
    }

    /** enqueue_offline_command: true when the command was buffered. */
    method Enqueue(command: UiCommand) returns (buffered: bool)
      requires Valid()
      modifies this
      ensures Valid()
      ensures offline == Enqueued(old(offline), command)
      ensures buffered <==> !Repeats(old(offline), command)
    {
      EnqueueKeepsCoalesced(offline, command);
      match command {
        case ClearAll | ClosePanel =>
          if command in offline {
            return false;
          }
        case SetDnd(_) =>
          offline := Filter(NotDnd, offline);
        case _ =>
      }
      if |offline| >= MAX_OFFLINE_COMMANDS {
        offline := offline[1..];
      }
      offline := offline + [command];
      return true;
    }

    /** Drains everything the channel holds right now. */
    method Stash(batch: seq<UiCommand>) returns (drained: nat)
      requires Valid()
      modifies this
      ensures Valid()
      ensures offline == Stashed(old(offline), batch) && drained <= |batch|
    {
      drained := 0;
      var rest := batch;
      while rest != []
        invariant Valid()
        invariant Stashed(offline, rest) == Stashed(old(offline), batch)
        invariant drained + |rest| <= |batch|
        decreases |rest|
      {
        var buffered := Enqueue(rest[0]);
        rest := rest[1..];
        if buffered {
          drained := drained + 1;
        }
      }
    }

    method DropStaleCommands()
      requires Valid()
      modifies this
      ensures Valid()
      ensures offline == DropStale(old(offline))
    {
      FilterKeepsOneOfEach(IdIndependent, offline);
      FilterMembers(IdIndependent, offline);
      offline := Filter(IdIndependent, offline);
    }

    /**
     Hands every buffered command to the daemon once, oldest first. A call may fail without effect,
     as `took` says for each position; it is not retried.
     */
    method Flush(d: DaemonState, took: nat -> bool) returns (after: DaemonState, handled: seq<UiCommand>)
      modifies this
      ensures offline == [] && handled == old(offline)
      ensures after == Replay(d, Delivered(old(offline), took))
    {
      after, handled := d, [];
      while offline != []
        invariant handled + offline == old(offline)
        invariant after == Replay(d, Delivered(handled, took))
        decreases |offline|
      {
        var command := offline[0];
        offline := offline[1..];
        DeliveredSnoc(d, handled, command, took);
        if took(|handled|) {
          after := Handle(after, command);
        }
        handled := handled + [command];
      }
    }

    /** Reconnecting: the stale commands go, the others are replayed. */
    method Reconnect(d: DaemonState, took: nat -> bool, ghost requested: seq<UiCommand>)
      returns (after: DaemonState)
      requires Valid() && offline == Stashed([], requested)
      modifies this
      ensures offline == []
      ensures var missing := LostIn([], requested, {}) + Undelivered(requested, took);
              && after == Impose(d, Surviving(EffectOf(requested), missing))
              && (missing == {} ==> after == Replay(d, DropStale(requested)))
    {
      ReplayImposesDelivered(d, requested, took);
      ReplayOfRequests(d, requested);
      NothingMissing(EffectOf(requested));
      DropStaleCommands();
      var handled;
      after, handled := Flush(d, took);
    }
  }

  lemma NothingMissing(e: Effect)
    ensures Surviving(e, {}) == e
  {
  }
}
