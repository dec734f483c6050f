/**
 The do-not-disturb switch: every change bumps a revision, and a write that failed to persist may
 be undone later, guarded by the revision it captured.
 */
module Dnd {

  const U64_MAX: nat := 0xFFFF_FFFF_FFFF_FFFF

  datatype Switch = Switch(enabled: bool, revision: nat)

  /** What a write reports: enough to undo it if nothing newer happened. */
  datatype DndWrite = DndWrite(changed: bool, previous: bool, current: bool, revision: nat)

  function NextRevision(revision: nat): nat {
    if revision < U64_MAX then revision + 1 else revision
  }

  function Write(s: Switch, enabled: bool): (Switch, DndWrite) {
    if s.enabled == enabled then (s, DndWrite(false, s.enabled, s.enabled, s.revision))
    else
      var s' := Switch(enabled, NextRevision(s.revision));
      (s', DndWrite(true, s.enabled, enabled, s'.revision))
  }

  function Rollback(s: Switch, w: DndWrite): (Switch, bool) {
    if !w.changed then (s, false)
    else if s.revision != w.revision || s.enabled != w.current then (s, false)
    else (Switch(w.previous, NextRevision(s.revision)), true)
  }

  /** Set and toggle requests, and rollbacks of any earlier write, in any order. */
  datatype Op = Set(enabled: bool) | Toggle | Undo(token: nat)

  datatype History = History(switch: Switch, writes: seq<DndWrite>)

  function Step(h: History, op: Op): History {
    match op
    case Set(enabled) =>
      var (s, w) := Write(h.switch, enabled);
      History(s, h.writes + [w])
    case Toggle =>
      var (s, w) := Write(h.switch, !h.switch.enabled);
      History(s, h.writes + [w])
    case Undo(token) =>
      if token < |h.writes| then h.(switch := Rollback(h.switch, h.writes[token]).0) else h
  }

  function After(initial: bool, ops: seq<Op>): History {
    if ops == [] then History(Switch(initial, 0), [])
    else Step(After(initial, ops[..|ops| - 1]), ops[|ops| - 1])
  }

  /**
   A set request is obeyed in every history. Asking for the present value changes nothing and is
   reported as no change; any other request counts as one transition, up to the largest revision.
   */
  lemma SetIsObeyed(initial: bool, ops: seq<Op>, enabled: bool)
    ensures var before, after := After(initial, ops), After(initial, ops + [Set(enabled)]);
            && after.switch.enabled == enabled
            && |after.writes| == |before.writes| + 1 && after.writes[..|before.writes|] == before.writes
            && var w := after.writes[|before.writes|];
               && w.previous == before.switch.enabled && w.current == enabled
               && w.changed == (before.switch.enabled != enabled) && w.revision == after.switch.revision
               && after.switch.revision ==
                    if w.changed && before.switch.revision < 0xFFFF_FFFF_FFFF_FFFF
                    then before.switch.revision + 1 else before.switch.revision
  {
    assert (ops + [Set(enabled)])[..|ops|] == ops;
  }

  /** A toggle is a set request for the other value. */
  lemma ToggleIsSet(initial: bool, ops: seq<Op>)
    ensures After(initial, ops + [Toggle]) == After(initial, ops + [Set(!After(initial, ops).switch.enabled)])
  {
    assert (ops + [Toggle])[..|ops|] == ops;
    assert (ops + [Set(!After(initial, ops).switch.enabled)])[..|ops|] == ops;
  }

  /** A rollback either leaves the switch alone, or is one transition to the other value. */
  lemma UndoIsTransition(initial: bool, ops: seq<Op>, token: nat)
    requires After(initial, ops).switch.revision < 0xFFFF_FFFF_FFFF_FFFF
    ensures var before, after := After(initial, ops), After(initial, ops + [Undo(token)]);
            && after.writes == before.writes
            && (after.switch == before.switch
                || after.switch == Switch(!before.switch.enabled, before.switch.revision + 1))
  {
    assert (ops + [Undo(token)])[..|ops|] == ops;
    FlagFollowsRevision(initial, ops);
    hide After, FlippedTimes;
    UndoTransition(initial, After(initial, ops), token);
  }

  lemma UndoTransition(initial: bool, h: History, token: nat)
    requires Consistent(initial, h)
    ensures var after := Step(h, Undo(token));
            && after.writes == h.writes
            && (after.switch == h.switch || after.switch == Switch(!h.switch.enabled, h.switch.revision + 1))
  {
    assert token < |h.writes| ==> TokenConsistent(initial, h.switch.revision, h.writes[token]);
  }

  /** The initial value flipped once per revision. */
  predicate FlippedTimes(initial: bool, revision: nat) {
    if revision % 2 == 0 then initial else !initial
  }

  ghost predicate Consistent(initial: bool, h: History) {
    && h.switch.revision < U64_MAX
    && h.switch.enabled == FlippedTimes(initial, h.switch.revision)
    && (forall k :: 0 <= k < |h.writes| ==> TokenConsistent(initial, h.switch.revision, h.writes[k]))
  }

  ghost predicate TokenConsistent(initial: bool, revision: nat, w: DndWrite) {
    && w.revision <= revision
    && w.current == FlippedTimes(initial, w.revision)
    && (w.changed ==> w.revision >= 1 && w.previous == FlippedTimes(initial, w.revision - 1))
  }

  lemma RevisionsOnlyGrow(initial: bool, ops: seq<Op>, k: nat)
    requires k <= |ops|
    ensures After(initial, ops[..k]).switch.revision <= After(initial, ops).switch.revision
    decreases |ops|
  {
    if k < |ops| {
      RevisionsOnlyGrow(initial, ops[..|ops| - 1], k);
      assert ops[..|ops| - 1][..k] == ops[..k];
    } else {
      assert ops[..k] == ops;
    }
  }

  lemma StepKeepsConsistent(initial: bool, h: History, op: Op)
    requires Consistent(initial, h) && Step(h, op).switch.revision < U64_MAX
    ensures Consistent(initial, Step(h, op))
  {
  }

  /** Below saturation the flag is the initial value flipped once per revision, at every step. */
  lemma {:induction false} FlagFollowsRevision(initial: bool, ops: seq<Op>)
    requires After(initial, ops).switch.revision < U64_MAX
    ensures Consistent(initial, After(initial, ops))
  {
    if ops != [] {
      hide Step, Consistent;
      RevisionsOnlyGrow(initial, ops, |ops| - 1);
      FlagFollowsRevision(initial, ops[..|ops| - 1]);
      StepKeepsConsistent(initial, After(initial, ops[..|ops| - 1]), ops[|ops| - 1]);
    }
  }

  /** Writes stay at their place in the token list. */
  lemma {:induction false} TokensPersist(initial: bool, ops: seq<Op>, k: nat)
    requires k <= |ops|
    ensures After(initial, ops[..k]).writes <= After(initial, ops).writes
    decreases |ops|
  {
    if k < |ops| {
      TokensPersist(initial, ops[..|ops| - 1], k);
      assert ops[..|ops| - 1][..k] == ops[..k];
    } else {
      assert ops[..k] == ops;
    }
  }

  /** An unchanged revision means an unchanged switch all along. */
  lemma {:induction false} SameRevisionSameSwitch(initial: bool, ops: seq<Op>, k: nat)
    requires k <= |ops| && After(initial, ops).switch.revision < U64_MAX
    requires After(initial, ops[..k]).switch.revision == After(initial, ops).switch.revision
    ensures After(initial, ops[..k]).switch == After(initial, ops).switch
  {
    RevisionsOnlyGrow(initial, ops, k);
    FlagFollowsRevision(initial, ops);
    FlagFollowsRevision(initial, ops[..k]);
  }

  /** The undo token that a set or toggle reports. */
  function Issue(s: Switch, op: Op): DndWrite
    requires !op.Undo?
  {
    if op.Set? then Write(s, op.enabled).1 else Write(s, !s.enabled).1
  }

  /** No step after step `k` changed the switch, not even there and back. */
  ghost predicate Untouched(initial: bool, ops: seq<Op>, k: nat)
    requires k < |ops|
  {
    forall m :: k < m <= |ops| ==> After(initial, ops[..m]).switch == After(initial, ops[..k + 1]).switch
  }

  /** The token of step `k` is at its place in the token list, and describes that step. */
  lemma TokenOfStep(initial: bool, ops: seq<Op>, k: nat)
    requires k < |ops| && !ops[k].Undo?
    ensures var before, issued := After(initial, ops[..k]), After(initial, ops[..k + 1]);
            var w := Issue(before.switch, ops[k]);
            && |before.writes| < |After(initial, ops).writes| && After(initial, ops).writes[|before.writes|] == w
            && w.current == issued.switch.enabled && w.revision == issued.switch.revision
            && w.previous == before.switch.enabled && (w.changed <==> before.switch.enabled != issued.switch.enabled)
  {
    var before, issued := After(initial, ops[..k]), After(initial, ops[..k + 1]);
    assert ops[..k + 1][..k] == ops[..k] && issued == Step(before, ops[k]);
    TokensPersist(initial, ops, k + 1);
    assert issued.writes[|before.writes|] == Issue(before.switch, ops[k]);
  }

  /** An unsaturated revision that comes back was there all along, and so was its switch. */
  lemma SameRevisionUntouched(initial: bool, ops: seq<Op>, k: nat)
    requires k < |ops| && After(initial, ops[..k + 1]).switch.revision < U64_MAX
    requires After(initial, ops).switch.revision == After(initial, ops[..k + 1]).switch.revision
    ensures Untouched(initial, ops, k)
  {
    forall m | k < m <= |ops|
      ensures After(initial, ops[..m]).switch == After(initial, ops[..k + 1]).switch
    {
      RevisionsOnlyGrow(initial, ops, m);
      assert ops[..m][..k + 1] == ops[..k + 1];
      RevisionsOnlyGrow(initial, ops[..m], k + 1);
      SameRevisionSameSwitch(initial, ops[..m], k + 1);
    }
  }

  /**
   A late rollback of the write made by step `k` takes effect exactly when that write changed the
   flag and no transition happened since, and it then restores the value before step `k`. Only the
   token's own revision must be below saturation; later revisions may be anything.
   */
  lemma RollbackIffUntouched(initial: bool, ops: seq<Op>, k: nat)
    requires k < |ops| && !ops[k].Undo?
    requires After(initial, ops[..k + 1]).switch.revision < U64_MAX
    ensures var before, issued := After(initial, ops[..k]), After(initial, ops[..k + 1]);
            var (restored, done) := Rollback(After(initial, ops).switch, Issue(before.switch, ops[k]));
            && (done <==> before.switch.enabled != issued.switch.enabled && Untouched(initial, ops, k))
            && (done ==> restored.enabled == before.switch.enabled)
            && (!done ==> restored == After(initial, ops).switch)
  {
    TokenOfStep(initial, ops, k);
    assert ops[..|ops|] == ops;
    if After(initial, ops).switch.revision == After(initial, ops[..k + 1]).switch.revision {
      SameRevisionUntouched(initial, ops, k);
    }
  }

  // ---------------------------------------------------------------------------------------------
  // Saturation
  // ---------------------------------------------------------------------------------------------

  /** Followed by `later`, the rollback of step `k` succeeds although a transition happened since. */
  ghost predicate Deceived(initial: bool, ops: seq<Op>, k: nat, later: seq<Op>)
    requires k < |ops| && !ops[k].Undo?
  {
    var all := ops[..k + 1] + later;
    && Rollback(After(initial, all).switch, Issue(After(initial, ops[..k]).switch, ops[k])).1
    && !Untouched(initial, all, k)
  }

  lemma AfterTwo(initial: bool, ops: seq<Op>, a: Op, b: Op)
    ensures After(initial, ops + [a]) == Step(After(initial, ops), a)
    ensures After(initial, ops + [a, b]) == Step(Step(After(initial, ops), a), b)
  {
    assert (ops + [a])[..|ops|] == ops;
    assert (ops + [a, b])[..|ops| + 1] == ops + [a];
  }

  /** There and back at the largest revision looks like nothing happened. */
  lemma SaturatedThereAndBack(initial: bool, ops: seq<Op>, k: nat)
    requires k < |ops| && !ops[k].Undo?
    requires After(initial, ops[..k + 1]).switch.revision >= U64_MAX
    requires Issue(After(initial, ops[..k]).switch, ops[k]).changed
    ensures Deceived(initial, ops, k, [Toggle, Toggle])
  {
    var issued := ops[..k + 1];
    var later := issued + [Toggle, Toggle];
    TokenOfStep(initial, ops, k);
    AfterTwo(initial, issued, Toggle, Toggle);
    assert later[..k + 1] == issued && later[..k + 2] == issued + [Toggle];
    assert After(initial, later[..k + 2]).switch != After(initial, issued).switch;
  }

  lemma UnsaturatedTellsTheTruth(initial: bool, ops: seq<Op>, k: nat, later: seq<Op>)
    requires k < |ops| && !ops[k].Undo? && After(initial, ops[..k + 1]).switch.revision < U64_MAX
    ensures !Deceived(initial, ops, k, later)
  {
    var all := ops[..k + 1] + later;
    assert all[..k + 1] == ops[..k + 1];
    TokenOfStep(initial, ops, k);
    if After(initial, all).switch.revision == After(initial, all[..k + 1]).switch.revision {
      SameRevisionUntouched(initial, all, k);
    }
  }

  /**
   The guard of a token can be trusted, whatever happens later, exactly when its write changed
   nothing or its revision is below saturation.
   */
  lemma GuardHoldsIff(initial: bool, ops: seq<Op>, k: nat)
    requires k < |ops| && !ops[k].Undo?
    ensures var w := Issue(After(initial, ops[..k]).switch, ops[k]);
            (forall later :: !Deceived(initial, ops, k, later)) <==> !w.changed || w.revision < U64_MAX
  {
    TokenOfStep(initial, ops, k);
    if After(initial, ops[..k + 1]).switch.revision < U64_MAX {
      forall later
        ensures !Deceived(initial, ops, k, later)
      {
        UnsaturatedTellsTheTruth(initial, ops, k, later);
      }
    } else if Issue(After(initial, ops[..k]).switch, ops[k]).changed {
      SaturatedThereAndBack(initial, ops, k);
    }
  }

  function Toggles(n: nat): seq<Op> {
    seq(n, _ => Toggle)
  }

  lemma {:induction false} TogglesCount(initial: bool, n: nat)
    ensures After(initial, Toggles(n)).switch == Switch(
              FlippedTimes(initial, n), if n < U64_MAX then n else U64_MAX)
  {
    if n > 0 {
      TogglesCount(initial, n - 1);
      assert Toggles(n)[..n - 1] == Toggles(n - 1);
    }
  }

  /**
   The failing case is reachable: after as many toggles as there are revisions, two more toggles go
   unnoticed, and the rollback of the last counted toggle overwrites them.
   */
  lemma SaturationDefeatsGuard(initial: bool)
    ensures var ops, k := Toggles(U64_MAX), U64_MAX - 1;
            Deceived(initial, ops, k, [Toggle, Toggle])
  {
    var n := U64_MAX;
    var ops := Toggles(n);
    assert ops[..n - 1] == Toggles(n - 1) && ops[..n] == ops;
    TogglesCount(initial, n - 1);
    TogglesCount(initial, n);
    SaturatedThereAndBack(initial, ops, n - 1);
  }
}
