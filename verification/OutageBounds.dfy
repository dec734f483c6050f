/** How many commands that name a notification an outage can bear before a request is forgotten. */
module OutageBounds {
  import opened Support
  import opened OfflineCommands

  predicate NamesId(c: UiCommand) {
    !IdIndependent(c)
  }

  function IdCommands(q: seq<UiCommand>): nat {
    |Filter(NamesId, q)|
  }

  function One(c: UiCommand): nat {
    if NamesId(c) then 1 else 0
  }

  lemma IdCommandsConcat(a: seq<UiCommand>, b: seq<UiCommand>)
    ensures IdCommands(a + b) == IdCommands(a) + IdCommands(b)
  {
    FilterConcat(NamesId, a, b);
  }

  lemma IdCommandsOne(c: UiCommand)
    ensures IdCommands([c]) == One(c)
  {
    assert Filter(NamesId, [c]) == if NamesId(c) then [c] else [];
  }

  lemma IdCommandsHead(q: seq<UiCommand>)
    requires q != []
    ensures IdCommands(q) == One(q[0]) + IdCommands(q[1..])
  {
    assert q == [q[0]] + q[1..];
    IdCommandsConcat([q[0]], q[1..]);
    IdCommandsOne(q[0]);
  }

  lemma {:induction false} SplitCount(q: seq<UiCommand>)
    ensures |q| == IdCommands(q) + |DropStale(q)|
  {
    if q != [] {
      SplitCount(q[1..]);
    }
  }

  /** A do-not-disturb request drops no command that names a notification. */
  lemma {:induction false} KeptIds(q: seq<UiCommand>, c: UiCommand)
    ensures IdCommands(Kept(q, c)) == IdCommands(q)
  {
    if q != [] && c.SetDnd? {
      KeptIds(q[1..], c);
      IdCommandsHead(q);
      IdCommandsConcat(if NotDnd(q[0]) then [q[0]] else [], Filter(NotDnd, q[1..]));
      IdCommandsOne(q[0]);
    }
  }

  // ---------------------------------------------------------------------------------------------
  // Few of them
  // ---------------------------------------------------------------------------------------------

  /** One command of each other kind still fits beside 125 commands that name a notification. */
  lemma RoomLeft(q: seq<UiCommand>, c: UiCommand)
    requires Coalesced(q) && !Repeats(q, c) && IdCommands(q) + One(c) <= MAX_OFFLINE_COMMANDS - 3
    ensures |Kept(q, c)| < MAX_OFFLINE_COMMANDS
  {
    var k := Kept(q, c);
    KeptFacts(q, c);
    KeptIds(q, c);
    SplitCount(k);
    FilterKeepsOneOfEach(IdIndependent, k);
    FilterMembers(IdIndependent, k);
    var others := {0, 1, 2} - {KindOf(c)};
    forall x | x in DropStale(k)
      ensures KindOf(x) in others
    {
      assert x in k && x in q;
    }
    KindsBound(DropStale(k), others);
    assert NamesId(c) ==> others == {0, 1, 2};
    assert IdIndependent(c) ==> others + {KindOf(c)} == {0, 1, 2};
  }

  lemma EnqueueIds(q: seq<UiCommand>, c: UiCommand)
    ensures IdCommands(Enqueued(q, c)) <= IdCommands(q) + One(c)
  {
    var k := Kept(q, c);
    KeptIds(q, c);
    if |k| >= MAX_OFFLINE_COMMANDS {
      IdCommandsHead(k);
    }
    IdCommandsConcat(Trimmed(k), [c]);
    IdCommandsOne(c);
  }

  lemma {:induction false} FewIdsLoseNothing(q: seq<UiCommand>, batch: seq<UiCommand>)
    requires Coalesced(q) && IdCommands(q) + IdCommands(batch) <= 125
    ensures LostIn(q, batch, {}) == {}
    decreases |batch|
  {
    hide Coalesced, Enqueued;
    if batch != [] {
      var c := batch[0];
      IdCommandsHead(batch);
      EnqueueIds(q, c);
      EnqueueOneOfEach(q, c);
      if !Repeats(q, c) {
        RoomLeft(q, c);
      }
      assert LostAfter(q, c, {}) == {};
      FewIdsLoseNothing(Enqueued(q, c), batch[1..]);
    }
  }

  // ---------------------------------------------------------------------------------------------
  // Many of them
  // ---------------------------------------------------------------------------------------------

  /** What follows the first command of kind `kind`. */
  function Behind(q: seq<UiCommand>, kind: nat): seq<UiCommand> {
    if q == [] then []
    else if KindOf(q[0]) == kind then q[1..]
    else Behind(q[1..], kind)
  }

  ghost predicate Has(q: seq<UiCommand>, kind: nat) {
    exists c :: c in q && KindOf(c) == kind
  }

  /** A command of kind `kind` has at least `m` commands that name a notification behind it. */
  ghost predicate Buried(q: seq<UiCommand>, kind: nat, m: nat) {
    Has(q, kind) ==> IdCommands(Behind(q, kind)) >= m
  }

  lemma {:induction false} BehindIsShorter(q: seq<UiCommand>, kind: nat)
    requires Has(q, kind)
    ensures |Behind(q, kind)| < |q|
  {
    if KindOf(q[0]) != kind {
      BehindIsShorter(q[1..], kind);
    }
  }

  lemma {:induction false} BehindSnoc(q: seq<UiCommand>, kind: nat, c: UiCommand)
    requires Has(q, kind)
    ensures Behind(q + [c], kind) == Behind(q, kind) + [c]
  {
    assert (q + [c])[1..] == q[1..] + [c];
    if KindOf(q[0]) != kind {
      BehindSnoc(q[1..], kind, c);
    }
  }

  lemma {:induction false} BehindKept(q: seq<UiCommand>, kind: nat, c: UiCommand)
    requires KindOf(c) != kind
    ensures Behind(Kept(q, c), kind) == Kept(Behind(q, kind), c)
  {
    if c.SetDnd? && q != [] {
      if NotDnd(q[0]) {
        assert ([q[0]] + Filter(NotDnd, q[1..]))[1..] == Filter(NotDnd, q[1..]);
      }
      if KindOf(q[0]) != kind {
        BehindKept(q[1..], kind, c);
        assert [] + Filter(NotDnd, q[1..]) == Filter(NotDnd, q[1..]);
      }
    }
  }

  lemma KeptStaysBuried(q: seq<UiCommand>, kind: nat, m: nat, c: UiCommand)
    requires Coalesced(q) && Buried(q, kind, m) && KindOf(c) != kind
    ensures Buried(Kept(q, c), kind, m)
  {
    KeptFacts(q, c);
    BehindKept(q, kind, c);
    KeptIds(Behind(q, kind), c);
  }

  /** Losing its front buries nothing less: either the front was the command itself, or it is ahead. */
  lemma TrimmedStaysBuried(q: seq<UiCommand>, kind: nat, m: nat)
    requires OneOfEach(q) && Buried(q, kind, m) && kind < 3
    ensures Buried(Trimmed(q), kind, m)
  {
    if |q| >= MAX_OFFLINE_COMMANDS && Has(q[1..], kind) {
      var c :| c in q[1..] && KindOf(c) == kind;
      var i :| 0 <= i < |q[1..]| && q[1..][i] == c;
      assert q[i + 1] == c && !SameKind(q[0], q[i + 1]);
    }
  }

  lemma EnqueueBuries(q: seq<UiCommand>, kind: nat, m: nat, c: UiCommand)
    requires Coalesced(q) && Buried(q, kind, m) && KindOf(c) != kind && kind < 3
    ensures Buried(Enqueued(q, c), kind, m + One(c))
  {
    hide Buried;
    if Repeats(q, c) {
      assert One(c) == 0;
    } else {
      KeptStaysBuried(q, kind, m, c);
      KeptFacts(q, c);
      var t := Trimmed(Kept(q, c));
      TrimmedStaysBuried(Kept(q, c), kind, m);
      SnocBuries(t, kind, m, c);
    }
  }

  lemma SnocBuries(q: seq<UiCommand>, kind: nat, m: nat, c: UiCommand)
    requires Buried(q, kind, m) && KindOf(c) != kind
    ensures Buried(q + [c], kind, m + One(c))
  {
    if Has(q + [c], kind) {
      var x :| x in q + [c] && KindOf(x) == kind;
      assert x in q;
      BehindSnoc(q, kind, c);
      IdCommandsConcat(Behind(q, kind), [c]);
      IdCommandsOne(c);
    }
  }

  lemma {:induction false} StashBuries(q: seq<UiCommand>, kind: nat, m: nat, tail: seq<UiCommand>)
    requires Coalesced(q) && Buried(q, kind, m) && kind < 3
    requires forall x :: x in tail ==> KindOf(x) != kind
    ensures Buried(Stashed(q, tail), kind, m + IdCommands(tail))
    decreases |tail|
  {
    hide Coalesced, Buried, Enqueued;
    if tail != [] {
      EnqueueBuries(q, kind, m, tail[0]);
      EnqueueOneOfEach(q, tail[0]);
      IdCommandsHead(tail);
      StashBuries(Enqueued(q, tail[0]), kind, m + One(tail[0]), tail[1..]);
    }
  }

  lemma {:induction false} StashedConcat(q: seq<UiCommand>, a: seq<UiCommand>, b: seq<UiCommand>)
    ensures Stashed(q, a + b) == Stashed(Stashed(q, a), b)
    decreases |a|
  {
    if a == [] {
      assert a + b == b;
    } else {
      assert (a + b)[1..] == a[1..] + b;
      StashedConcat(Enqueued(q, a[0]), a[1..], b);
    }
  }

  /** A request is forgotten once as many notification commands follow it as the queue holds. */
  lemma BuriedIsForgotten(before: seq<UiCommand>, c: UiCommand, tail: seq<UiCommand>)
    requires IdIndependent(c) && (forall x :: x in tail ==> !SameKind(x, c))
    requires IdCommands(tail) >= 128
    ensures KindOf(c) in LostIn([], before + [c] + tail, {})
  {
    var batch, kind := before + [c] + tail, KindOf(c);
    var mid, end := Stashed([], before + [c]), Stashed([], batch);
    StashKeepsCoalesced([], before + [c]);
    StashKeepsCoalesced([], batch);
    StashBuries(mid, kind, 0, tail);
    StashedConcat([], before + [c], tail);
    if Has(end, kind) {
      BehindIsShorter(end, kind);
      SplitCount(Behind(end, kind));
    }
    StashAgrees([], batch, [], {});
    assert [] + batch == batch;
    EffectHasKind(batch, c);
    EffectByMembers(end);
    EffectNeedsCommand(end, c);
  }

  predicate HasKind(e: Effect, kind: nat) {
    (kind == 0 && e.cleared) || (kind == 1 && e.closed) || (kind == 2 && e.dnd.Some?)
  }

  lemma {:induction false} EffectHasKind(q: seq<UiCommand>, c: UiCommand)
    requires c in q && IdIndependent(c)
    ensures HasKind(EffectOf(q), KindOf(c))
  {
    var before, last := q[..|q| - 1], q[|q| - 1];
    if last != c {
      assert q == before + [last];
      EffectHasKind(before, c);
    }
  }

  lemma EffectNeedsCommand(q: seq<UiCommand>, c: UiCommand)
    requires OneOfEach(q) && IdIndependent(c)
    ensures HasKind(EffectOf(q), KindOf(c)) ==> Has(q, KindOf(c))
  {
    EffectByMembers(q);
    var e := EffectOf(q);
    if HasKind(e, KindOf(c)) {
      var x := if c.SetDnd? then SetDnd(e.dnd.value) else c;
      assert x in q && KindOf(x) == KindOf(c);
    }
  }

  // ---------------------------------------------------------------------------------------------
  // Exactly how many
  // ---------------------------------------------------------------------------------------------

  /** Commands that name a notification pass through the queue as through a sliding window. */
  lemma {:induction false} IdsSlide(q: seq<UiCommand>, tail: seq<UiCommand>)
    requires |q| <= MAX_OFFLINE_COMMANDS && forall c :: c in tail ==> NamesId(c)
    ensures Stashed(q, tail) == Suffix(q + tail, MAX_OFFLINE_COMMANDS)
    decreases |tail|
  {
    if tail == [] {
      assert q + tail == q;
    } else {
      var c, rest := tail[0], tail[1..];
      IdSlides(q, c);
      IdsSlide(Enqueued(q, c), rest);
      hide Suffix, Enqueued;
      SuffixAbsorbs(q + [c], rest, MAX_OFFLINE_COMMANDS);
      ConcatAssociates(q, [c], rest);
      assert [c] + rest == tail;
    }
  }

  lemma IdSlides(q: seq<UiCommand>, c: UiCommand)
    requires |q| <= MAX_OFFLINE_COMMANDS && NamesId(c)
    ensures Enqueued(q, c) == Suffix(q + [c], MAX_OFFLINE_COMMANDS)
    ensures |Enqueued(q, c)| <= MAX_OFFLINE_COMMANDS
  {
  }

  /** One request of each kind, then nothing but dismissals. */
  function AllKindsFirst(n: nat): seq<UiCommand> {
    [ClearAll, ClosePanel, SetDnd(true)] + Dismissals(n)
  }

  lemma AllKindsFirstLoses(n: nat)
    requires n > MAX_OFFLINE_COMMANDS - 3
    ensures IdCommands(AllKindsFirst(n)) == n
    ensures LostIn([], AllKindsFirst(n), {}) != {}
  {
    var q, ids := [ClearAll, ClosePanel, SetDnd(true)], Dismissals(n);
    var batch := AllKindsFirst(n);
    IdCommandsConcat(q, ids);
    FilterAll(NamesId, ids);
    assert Filter(NamesId, q) == [] by {
      assert q[1..] == [ClosePanel, SetDnd(true)] && q[1..][1..] == [SetDnd(true)] && q[1..][1..][1..] == [];
    }
    AllKindsFit(q);
    StashedConcat([], q, ids);
    IdsSlide(q, ids);
    StashKeepsCoalesced([], batch);
    var end := Stashed([], batch);
    assert ClearAll !in end;
    StashEffect(batch);
    EffectByMembers(end);
    EffectHasKind(batch, ClearAll);
  }

  lemma AllKindsFit(q: seq<UiCommand>)
    requires q == [ClearAll, ClosePanel, SetDnd(true)]
    ensures Stashed([], q) == q
  {
    var two := [ClearAll, ClosePanel];
    assert Enqueued([], ClearAll) == [ClearAll] && Enqueued([ClearAll], ClosePanel) == two;
    FilterAll(NotDnd, two);
    assert Enqueued(two, SetDnd(true)) == q;
    assert q[1..][1..] == [SetDnd(true)] && q[1..][1..][1..] == [];
    calc {
      Stashed([], q);
      Stashed([ClearAll], q[1..]);
      Stashed(two, q[1..][1..]);
      Stashed(q, []);
    }
  }

  /**
   The exact bound: `n` commands that name a notification can never make an outage forget a
   request, in whatever order and among however many requests, if and only if `n` leaves room for
   one request of each kind.
   */
  lemma SafeCountIff(n: nat)
    ensures (forall batch :: IdCommands(batch) == n ==> LostIn([], batch, {}) == {})
            <==> n <= 125
  {
    if n <= MAX_OFFLINE_COMMANDS - 3 {
      forall batch | IdCommands(batch) == n
        ensures LostIn([], batch, {}) == {}
      {
        FewIdsLoseNothing([], batch);
      }
    } else {
      AllKindsFirstLoses(n);
    }
  }
}
