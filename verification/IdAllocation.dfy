/**
 The wrapping id allocator of the store: notification ids are nonzero u32 values handed out by a
 cursor that walks 1, 2, ..., u32::MAX, 1, ... and skips ids still held by a live row.
 */
module IdAllocation {
  import opened Support

  const ID_SPACE: int := 0x1_0000_0000
  /** How many nonzero ids there are. */
  const CYCLE: int := ID_SPACE - 1

  type Id = x: int | 0 <= x < ID_SPACE witness 0

  /** wrapping_add(1), stepping over 0. */
  function Bump(c: Id): Id {
    var w := (c + 1) % ID_SPACE;
    if w == 0 then 1 else w
  }

  /** The `k`-th candidate looked at from `start`. */
  function Candidate(start: Id, k: nat): Id {
    if k == 0 then start else Bump(Candidate(start, k - 1))
  }

  /** First candidate that is not held, within `attempts` looks. */
  function Search(c: Id, held: set<Id>, attempts: nat): Option<Id>
    decreases attempts
  {
    if attempts == 0 then None
    else if c !in held then Some(c)
    else Search(Bump(c), held, attempts - 1)
  }

  datatype Grant = Grant(id: Id, next: Id)

  function Start(cursor: Id): Id {
    if cursor < 1 then 1 else cursor
  }

  /** One allocation: the id handed out and the cursor it leaves behind. */
  function Allocate(cursor: Id, held: set<Id>): Grant {
    match Search(Start(cursor), held, |held| + 1)
    case Some(c) => Grant(c, Bump(c))
    case None => Grant(Start(cursor), Bump(Start(cursor)))
  }

  // ---------------------------------------------------------------------------------------------
  // Positions: unrolling the cursor onto the naturals
  // ---------------------------------------------------------------------------------------------

  /** The id found at an unrolled position; position 0 is id 1. */
  function IdAt(position: nat): Id {
    1 + position % CYCLE
  }

  lemma BumpIsNextPosition(position: nat)
    ensures Bump(IdAt(position)) == IdAt(position + 1)
  {
    var r := position % CYCLE;
    assert position == CYCLE * (position / CYCLE) + r;
    if r + 1 < CYCLE {
      assert position + 1 == CYCLE * (position / CYCLE) + (r + 1);
      DivisionUnique(position + 1, position / CYCLE, r + 1);
    } else {
      assert position + 1 == CYCLE * (position / CYCLE + 1) + 0;
      DivisionUnique(position + 1, position / CYCLE + 1, 0);
    }
  }

  lemma DivisionUnique(n: int, q: int, r: int)
    requires n == CYCLE * q + r && 0 <= r < CYCLE
    ensures n % CYCLE == r && n / CYCLE == q
  {
  }

  lemma {:induction false} CandidateIsPosition(start: Id, k: nat)
    requires start >= 1
    ensures Candidate(start, k) == IdAt(start - 1 + k)
  {
    if k > 0 {
      CandidateIsPosition(start, k - 1);
      BumpIsNextPosition(start - 1 + k - 1);
    }
  }

  /** Equal ids sit a whole number of cycles apart. */
  lemma SameIdWholeCycles(p: nat, q: nat)
    requires p <= q && IdAt(p) == IdAt(q)
    ensures (q - p) % CYCLE == 0
    ensures p < q ==> q - p >= CYCLE
  {
  }

  /** Among any `CYCLE` consecutive positions, each nonzero id occurs exactly once. */
  lemma EachIdOncePerCycle(from: nat, x: Id) returns (p: nat)
    requires x >= 1
    ensures from <= p < from + CYCLE && IdAt(p) == x
    ensures forall q: nat :: from <= q < from + CYCLE && IdAt(q) == x ==> q == p
  {
    var r := from % CYCLE;
    assert from == CYCLE * (from / CYCLE) + r;
    if r <= x - 1 {
      p := from + (x - 1 - r);
      assert p == CYCLE * (from / CYCLE) + (x - 1);
      DivisionUnique(p, from / CYCLE, x - 1);
    } else {
      p := from + (x - 1 - r) + CYCLE;
      assert p == CYCLE * (from / CYCLE + 1) + (x - 1);
      DivisionUnique(p, from / CYCLE + 1, x - 1);
    }
    forall q: nat | from <= q < from + CYCLE && IdAt(q) == x
      ensures q == p
    {
      if q < p {
        SameIdWholeCycles(q, p);
      } else {
        SameIdWholeCycles(p, q);
      }
    }
  }

  // ---------------------------------------------------------------------------------------------
  // Freshness
  // ---------------------------------------------------------------------------------------------

  /** What a search sees: everything before the hit is held, and a miss means all were held. */
  lemma {:induction false} SearchFindsFirst(start: Id, held: set<Id>, attempts: nat) returns (k: nat)
    requires start >= 1
    ensures k <= attempts
    ensures forall p: nat :: start - 1 <= p < start - 1 + k ==> IdAt(p) in held
    ensures Search(start, held, attempts) ==
            if k < attempts then Some(IdAt(start - 1 + k)) else None
    ensures k < attempts ==> IdAt(start - 1 + k) !in held
    decreases attempts
  {
    CandidateIsPosition(start, 0);
    if attempts == 0 || start !in held {
      k := 0;
    } else {
      BumpIsNextPosition(start - 1);
      var b := Bump(start);
      var k' := SearchFindsFirst(b, held, attempts - 1);
      k := k' + 1;
      forall p: nat | start - 1 <= p < start - 1 + k
        ensures IdAt(p) in held
      {
        if p > start - 1 {
          ShiftedCandidate(start, p - start);
        }
      }
      ShiftedCandidate(start, k');
    }
  }

  lemma ShiftedCandidate(start: Id, j: nat)
    requires start >= 1
    ensures IdAt(Bump(start) - 1 + j) == IdAt(start - 1 + (j + 1))
  {
  }

  /** The set of ids at positions [from, from + n). */
  ghost function Window(from: nat, n: nat): set<Id> {
    if n == 0 then {} else Window(from, n - 1) + {IdAt(from + n - 1)}
  }

  lemma {:induction false} WindowMembers(from: nat, n: nat)
    ensures forall x :: x in Window(from, n) <==> exists p: nat :: from <= p < from + n && IdAt(p) == x
  {
    if n > 0 {
      WindowMembers(from, n - 1);
      forall x | x in Window(from, n)
        ensures exists p: nat :: from <= p < from + n && IdAt(p) == x
      {
        if x !in Window(from, n - 1) {
          assert IdAt(from + n - 1) == x;
        }
      }
    }
  }

  lemma {:induction false} WindowSize(from: nat, n: nat)
    requires n <= CYCLE
    ensures |Window(from, n)| == n
  {
    if n > 0 {
      WindowSize(from, n - 1);
      WindowMembers(from, n - 1);
      if IdAt(from + n - 1) in Window(from, n - 1) {
        var p: nat :| from <= p < from + n - 1 && IdAt(p) == IdAt(from + n - 1);
        SameIdWholeCycles(p, from + n - 1);
      }
    }
  }

  ghost function NonzeroIds(): set<Id> {
    Window(0, CYCLE)
  }

  lemma NonzeroIdsAreAll()
    ensures forall x: Id :: x in NonzeroIds() <==> x >= 1
    ensures |NonzeroIds()| == CYCLE
  {
    WindowMembers(0, CYCLE);
    WindowSize(0, CYCLE);
    forall x: Id | x >= 1
      ensures x in NonzeroIds()
    {
      var p := EachIdOncePerCycle(0, x);
    }
  }

  /** Held ids form a subset of the cycle, and fill it exactly when there are CYCLE of them. */
  lemma HeldFitsInCycle(held: set<Id>)
    requires 0 !in held
    ensures |held| <= CYCLE
    ensures |held| == CYCLE <==> held == NonzeroIds()
  {
    NonzeroIdsAreAll();
    assert held <= NonzeroIds();
    SubsetSize(held, NonzeroIds());
    if held != NonzeroIds() {
      assert NonzeroIds() - held != {};
      var extra :| extra in NonzeroIds() - held;
      SubsetSize(held + {extra}, NonzeroIds());
    }
  }

  /** Pigeonhole: with room left in the cycle, |held| + 1 consecutive candidates cannot all be held. */
  lemma WindowNotAllHeld(from: nat, held: set<Id>)
    requires |held| < CYCLE
    ensures exists p: nat :: from <= p < from + |held| + 1 && IdAt(p) !in held
  {
    var n := |held| + 1;
    WindowMembers(from, n);
    WindowSize(from, n);
    if Window(from, n) <= held {
      SubsetSize(Window(from, n), held);
    } else {
      var x :| x in Window(from, n) && x !in held;
    }
  }

  /**
   An allocated id is never 0, and it collides with a held id exactly when every nonzero id is
   held: the exhaustion branch is unreachable below that bound, whatever the cursor.
   */
  lemma AllocatedIdIsFresh(cursor: Id, held: set<Id>)
    requires 0 !in held
    ensures Allocate(cursor, held).id >= 1 && Allocate(cursor, held).next >= 1
    ensures Allocate(cursor, held).id !in held <==> |held| < CYCLE
    ensures |held| == CYCLE <==> held == NonzeroIds()
  {
    HeldFitsInCycle(held);
    NonzeroIdsAreAll();
    var k := SearchFindsFirst(Start(cursor), held, |held| + 1);
    if |held| < CYCLE {
      WindowNotAllHeld(Start(cursor) - 1, held);
    }
  }

  // ---------------------------------------------------------------------------------------------
  // Reuse across a run of allocations
  // ---------------------------------------------------------------------------------------------

  /** One allocation in a run: the cursor and the held ids it started from. */
  datatype Request = Request(cursor: Id, held: set<Id>)

  function Granted(r: Request): Id {
    Allocate(r.cursor, r.held).id
  }

  /** Live rows may change arbitrarily between two allocations; only the cursor is carried over. */
  ghost predicate IsRun(run: seq<Request>) {
    && (forall k :: 0 <= k < |run| ==> run[k].cursor >= 1 && 0 !in run[k].held)
    && (forall k :: 0 <= k < |run| - 1 ==> run[k + 1].cursor == Allocate(run[k].cursor, run[k].held).next)
  }

  /** Unrolled position of the cursor before allocation `k`. */
  ghost function Position(run: seq<Request>, k: nat): nat
    requires k <= |run|
  {
    if k == 0 then (if run == [] || run[0].cursor < 1 then 0 else run[0].cursor - 1)
    else Position(run, k - 1) + Passes(run[k - 1])
  }

  /** How many candidates an allocation moved past, the granted one included. */
  ghost function Passes(r: Request): nat {
    if r.cursor < 1 then 1 else
    (Granted(r) - r.cursor) % CYCLE + 1
  }

  /** One allocation seen from the position that equals its cursor. */
  lemma PassesAre(r: Request)
    requires r.cursor >= 1 && 0 !in r.held
    ensures Granted(r) == IdAt(r.cursor - 1 + Passes(r) - 1)
    ensures forall p: nat :: r.cursor - 1 <= p < r.cursor - 1 + Passes(r) - 1 ==> IdAt(p) in r.held
  {
    var start := r.cursor;
    var k := SearchFindsFirst(start, r.held, |r.held| + 1);
    if k == |r.held| + 1 {
      assert Granted(r) == start && Passes(r) == 1;
    } else {
      HitWithinCycle(start, r.held, k);
      OffsetFrom(start, k);
      assert Passes(r) == k + 1;
    }
  }

  /** The first free candidate comes before the walk starts to repeat. */
  lemma HitWithinCycle(start: Id, held: set<Id>, k: nat)
    requires start >= 1 && 0 !in held && IdAt(start - 1 + k) !in held
    requires forall p: nat :: start - 1 <= p < start - 1 + k ==> IdAt(p) in held
    ensures k < CYCLE
  {
    if k >= CYCLE {
      var p := EachIdOncePerCycle(start - 1, IdAt(start - 1 + k));
      assert false;
    }
  }

  /** One allocation seen on positions. */
  lemma AllocationOnPositions(r: Request, from: nat)
    requires r.cursor >= 1 && 0 !in r.held && IdAt(from) == r.cursor
    ensures Granted(r) == IdAt(from + Passes(r) - 1)
    ensures Allocate(r.cursor, r.held).next == IdAt(from + Passes(r))
    ensures forall p: nat :: from <= p < from + Passes(r) ==> IdAt(p) in r.held || IdAt(p) == Granted(r)
  {
    PassesAre(r);
    var last := Passes(r) - 1;
    forall p: nat | from <= p < from + Passes(r)
      ensures IdAt(p) in r.held || IdAt(p) == Granted(r)
    {
      SamePhase(from, r.cursor - 1, p - from);
    }
    SamePhase(from, r.cursor - 1, last);
    BumpIsNextPosition(from + last);
  }

  lemma OffsetFrom(start: Id, k: nat)
    requires start >= 1 && k < CYCLE
    ensures (IdAt(start - 1 + k) - start) % CYCLE == k
  {
  }

  lemma SamePhase(a: nat, b: nat, j: nat)
    requires IdAt(a) == IdAt(b)
    ensures IdAt(a + j) == IdAt(b + j)
  {
  }

  lemma {:induction false} PositionTracksCursor(run: seq<Request>, k: nat)
    requires IsRun(run) && k < |run|
    ensures IdAt(Position(run, k)) == run[k].cursor
  {
    hide Allocate, Passes, Granted;
    if k == 0 {
    } else {
      PositionTracksCursor(run, k - 1);
      AllocationOnPositions(run[k - 1], Position(run, k - 1));
    }
  }

  lemma {:induction false} PositionsGrow(run: seq<Request>, i: nat, j: nat)
    requires i <= j <= |run|
    ensures Position(run, i) + (j - i) <= Position(run, j)
  {
    if i < j {
      PositionsGrow(run, i, j - 1);
    }
  }

  /** A position passed between two allocations belongs to exactly one allocation in between. */
  lemma {:induction false} PassedBy(run: seq<Request>, i: nat, j: nat, p: nat) returns (k: nat)
    requires i <= j <= |run| && Position(run, i) <= p < Position(run, j)
    ensures i <= k < j && Position(run, k) <= p < Position(run, k) + Passes(run[k])
    decreases j
  {
    if p >= Position(run, j - 1) {
      k := j - 1;
    } else {
      k := PassedBy(run, i, j - 1, p);
    }
  }

  /** Allocation `k` moved past id `x`, which was held then or is the id handed out. */
  ghost predicate PassedOver(run: seq<Request>, k: nat, x: Id)
    requires k < |run|
  {
    && (exists p: nat :: Position(run, k) <= p < Position(run, k) + Passes(run[k]) && IdAt(p) == x)
    && (x in run[k].held || x == Granted(run[k]))
  }

  ghost predicate PassedBetween(run: seq<Request>, i: nat, j: nat, x: Id)
    requires i < j < |run|
  {
    exists k :: i < k <= j && PassedOver(run, k, x)
  }

  /**
   The reuse rule. If two allocations of one run hand out the same id, the cursor has gone round a
   whole number of cycles in between, so it has passed every other nonzero id, and each id it
   passed was held or was itself handed out by the allocation that passed it.
   */
  lemma ReuseOnlyAfterFullCycle(run: seq<Request>, i: nat, j: nat)
    requires IsRun(run) && i < j < |run|
    requires Granted(run[i]) == Granted(run[j])
    ensures (Position(run, j + 1) - Position(run, i + 1)) % CYCLE == 0
    ensures Position(run, j + 1) - Position(run, i + 1) >= CYCLE
    ensures forall x: Id :: x >= 1 ==> PassedBetween(run, i, j, x)
  {
    hide Allocate, IdAt, Granted;
    PositionTracksCursor(run, i);
    PositionTracksCursor(run, j);
    AllocationOnPositions(run[i], Position(run, i));
    AllocationOnPositions(run[j], Position(run, j));
    PositionsGrow(run, i + 1, j);
    SameIdWholeCycles(Position(run, i + 1) - 1, Position(run, j + 1) - 1);
    forall x: Id | x >= 1
      ensures PassedBetween(run, i, j, x)
    {
      PassedBetweenWitness(run, i, j, x);
    }
  }

  lemma PassedBetweenWitness(run: seq<Request>, i: nat, j: nat, x: Id)
    requires IsRun(run) && i < j < |run| && x >= 1
    requires Position(run, j + 1) - Position(run, i + 1) >= CYCLE
    ensures PassedBetween(run, i, j, x)
  {
    var at := EachIdOncePerCycle(Position(run, i + 1), x);
    var k := PassedBy(run, i + 1, j + 1, at);
    PositionTracksCursor(run, k);
    AllocationOnPositions(run[k], Position(run, k));
    assert PassedOver(run, k, x);
  }
}
