/** The media snapshot: active players, sorted, with duplicates replaced in place. */
module MediaSnapshot {
  import opened Support
  import opened MediaKeys
  import opened PathOrder

  function PlaybackRank(status: string): nat {
    if status == "Playing" then 0 else if status == "Paused" then 1 else 2
  }

  function Rank(info: MediaInfo): nat {
    PlaybackRank(info.playbackStatus)
  }

  predicate IsActivePlayer(info: MediaInfo) {
    info.playbackStatus == "Playing" || info.playbackStatus == "Paused"
  }

  /** Playing before paused, then with art before without. */
  predicate Better(a: MediaInfo, b: MediaInfo) {
    Rank(a) < Rank(b) || (Rank(a) == Rank(b) && a.hasArt && !b.hasArt)
  }

  // ---------------------------------------------------------------------------------------------
  // What the result must be
  // ---------------------------------------------------------------------------------------------

  predicate HasKey(infos: seq<MediaInfo>, key: string) {
    exists i :: 0 <= i < |infos| && DedupeKey(infos[i]) == Some(key)
  }

  /** Keyless players, and the first player of every key, in order. */
  function FirstOfEach(infos: seq<MediaInfo>): seq<MediaInfo> {
    if infos == [] then []
    else
      var before, last := infos[..|infos| - 1], infos[|infos| - 1];
      FirstOfEach(before)
      + if DedupeKey(last).Some? && HasKey(before, DedupeKey(last).value) then [] else [last]
  }

  /** Position `i` holds the best player of `key`, and none before it is as good. */
  ghost predicate BestAt(infos: seq<MediaInfo>, key: string, i: int) {
    && 0 <= i < |infos| && DedupeKey(infos[i]) == Some(key)
    && forall j :: 0 <= j < |infos| && DedupeKey(infos[j]) == Some(key) ==>
                     !Better(infos[j], infos[i]) && (j < i ==> Better(infos[i], infos[j]))
  }

  /** The player shown in the place of `first`: itself without a key, else the best of its key. */
  ghost predicate Stands(infos: seq<MediaInfo>, first: MediaInfo, shown: MediaInfo) {
    match DedupeKey(first)
    case None => shown == first
    case Some(key) => exists i :: BestAt(infos, key, i) && infos[i] == shown
  }

  ghost predicate IsDeduped(infos: seq<MediaInfo>, output: seq<MediaInfo>) {
    && |output| == |FirstOfEach(infos)|
    && forall j :: 0 <= j < |output| ==> Stands(infos, FirstOfEach(infos)[j], output[j])
  }

  // ---------------------------------------------------------------------------------------------
  // Adding one player
  // ---------------------------------------------------------------------------------------------

  lemma FirstSnoc(infos: seq<MediaInfo>, last: MediaInfo)
    ensures FirstOfEach(infos + [last]) == FirstOfEach(infos)
              + if DedupeKey(last).Some? && HasKey(infos, DedupeKey(last).value) then [] else [last]
  {
  }

  /** A player with another key, or none, does not change who is best. */
  lemma OtherKey(infos: seq<MediaInfo>, last: MediaInfo, key: string, i: nat)
    requires BestAt(infos, key, i) && DedupeKey(last) != Some(key)
    ensures BestAt(infos + [last], key, i)
  {
  }

  /** A later player of the same key takes over only if it is better. */
  lemma SameKey(infos: seq<MediaInfo>, last: MediaInfo, key: string, i: nat)
    requires BestAt(infos, key, i) && DedupeKey(last) == Some(key)
    ensures BestAt(infos + [last], key, if Better(last, infos[i]) then |infos| else i)
  {
  }

  lemma NewKey(infos: seq<MediaInfo>, last: MediaInfo, key: string)
    requires !HasKey(infos, key) && DedupeKey(last) == Some(key)
    ensures BestAt(infos + [last], key, |infos|)
  {
  }

  lemma {:induction false} FirstsCoverKeys(infos: seq<MediaInfo>, key: string)
    ensures HasKey(infos, key) <==> HasKey(FirstOfEach(infos), key)
    ensures forall x :: x in FirstOfEach(infos) ==> x in infos
  {
    if infos != [] {
      var before, last := infos[..|infos| - 1], infos[|infos| - 1];
      assert infos == before + [last];
      FirstsCoverKeys(before, key);
      FirstSnoc(before, last);
      HasKeyConcat(before, [last], key);
      if FirstOfEach(infos) == FirstOfEach(before) + [last] {
        HasKeyConcat(FirstOfEach(before), [last], key);
      } else {
        assert FirstOfEach(infos) == FirstOfEach(before);
      }
    }
  }

  lemma HasKeyConcat(a: seq<MediaInfo>, b: seq<MediaInfo>, key: string)
    ensures HasKey(a + b, key) <==> HasKey(a, key) || HasKey(b, key)
  {
    if HasKey(a, key) {
      var i :| 0 <= i < |a| && DedupeKey(a[i]) == Some(key);
      assert (a + b)[i] == a[i];
    }
    if HasKey(b, key) {
      var i :| 0 <= i < |b| && DedupeKey(b[i]) == Some(key);
      assert (a + b)[|a| + i] == b[i];
    }
  }

  /** Keys of the firsts are pairwise different. */
  ghost predicate KeysDiffer(infos: seq<MediaInfo>) {
    forall i, j :: 0 <= i < j < |infos| && DedupeKey(infos[i]).Some? ==> DedupeKey(infos[i]) != DedupeKey(infos[j])
  }

  lemma {:induction false} FirstsDiffer(infos: seq<MediaInfo>)
    ensures KeysDiffer(FirstOfEach(infos))
  {
    if infos != [] {
      var before, last := infos[..|infos| - 1], infos[|infos| - 1];
      FirstsDiffer(before);
      if DedupeKey(last).Some? {
        FirstsCoverKeys(before, DedupeKey(last).value);
      }
    }
  }

  // ---------------------------------------------------------------------------------------------
  // The loop
  // ---------------------------------------------------------------------------------------------

  /** The index map: every key met, with the place of its player. */
  ghost predicate Indexed(seen: map<string, nat>, output: seq<MediaInfo>, infos: seq<MediaInfo>) {
    && (forall key :: key in seen <==> HasKey(infos, key))
    && (forall key :: key in seen ==> seen[key] < |output| && DedupeKey(output[seen[key]]) == Some(key))
  }

  lemma StandsKeepsKey(infos: seq<MediaInfo>, first: MediaInfo, shown: MediaInfo)
    requires Stands(infos, first, shown)
    ensures DedupeKey(shown) == DedupeKey(first)
  {
  }

  lemma StandsOther(infos: seq<MediaInfo>, last: MediaInfo, first: MediaInfo, shown: MediaInfo)
    requires Stands(infos, first, shown) && (DedupeKey(first).None? || DedupeKey(first) != DedupeKey(last))
    ensures Stands(infos + [last], first, shown)
  {
    if DedupeKey(first).Some? {
      var key := DedupeKey(first).value;
      var i :| BestAt(infos, key, i) && infos[i] == shown;
      OtherKey(infos, last, key, i);
    }
  }

  lemma StandsSame(infos: seq<MediaInfo>, last: MediaInfo, first: MediaInfo, shown: MediaInfo)
    requires Stands(infos, first, shown) && DedupeKey(first).Some? && DedupeKey(first) == DedupeKey(last)
    ensures Stands(infos + [last], first, if Better(last, shown) then last else shown)
  {
    var key := DedupeKey(first).value;
    var i :| BestAt(infos, key, i) && infos[i] == shown;
    SameKey(infos, last, key, i);
  }

  lemma StandsNew(infos: seq<MediaInfo>, last: MediaInfo)
    requires DedupeKey(last).Some? ==> !HasKey(infos, DedupeKey(last).value)
    ensures Stands(infos + [last], last, last)
  {
    if DedupeKey(last).Some? {
      NewKey(infos, last, DedupeKey(last).value);
    }
  }

  lemma NoFirstHas(infos: seq<MediaInfo>, key: string)
    requires !HasKey(infos, key)
    ensures forall j :: 0 <= j < |FirstOfEach(infos)| ==> DedupeKey(FirstOfEach(infos)[j]) != Some(key)
  {
  }

  /** The player has no key, or a new one: it gets its own place. */
  lemma Appends(infos: seq<MediaInfo>, output: seq<MediaInfo>, info: MediaInfo)
    requires IsDeduped(infos, output)
    requires DedupeKey(info).Some? ==> !HasKey(infos, DedupeKey(info).value)
    ensures IsDeduped(infos + [info], output + [info])
  {
    FirstSnoc(infos, info);
    StandsNew(infos, info);
    var firsts := FirstOfEach(infos);
    forall j | 0 <= j < |output|
      ensures Stands(infos + [info], firsts[j], output[j])
    {
      if DedupeKey(info).Some? {
        NoFirstHas(infos, DedupeKey(info).value);
      }
      StandsOther(infos, info, firsts[j], output[j]);
    }
  }

  /** The player's key has a place already: the better of the two keeps it. */
  lemma Merges(infos: seq<MediaInfo>, output: seq<MediaInfo>, info: MediaInfo, at: nat)
    requires IsDeduped(infos, output) && at < |output|
    requires DedupeKey(info).Some? && DedupeKey(output[at]) == DedupeKey(info)
    ensures IsDeduped(infos + [info], if Better(info, output[at]) then output[at := info] else output)
  {
    var firsts := FirstOfEach(infos);
    FirstsDiffer(infos);
    StandsKeepsKey(infos, firsts[at], output[at]);
    FirstsCoverKeys(infos, DedupeKey(info).value);
    FirstSnoc(infos, info);
    StandsSame(infos, info, firsts[at], output[at]);
    forall j | 0 <= j < |output| && j != at
      ensures Stands(infos + [info], firsts[j], output[j])
    {
      StandsOther(infos, info, firsts[j], output[j]);
    }
  }

  lemma KeysGrow(infos: seq<MediaInfo>, info: MediaInfo)
    ensures forall key :: HasKey(infos + [info], key) <==> HasKey(infos, key) || DedupeKey(info) == Some(key)
  {
    forall key
      ensures HasKey(infos + [info], key) <==> HasKey(infos, key) || DedupeKey(info) == Some(key)
    {
      HasKeyConcat(infos, [info], key);
      assert HasKey([info], key) <==> DedupeKey([info][0]) == Some(key);
    }
  }

  lemma NothingYet()
    ensures IsDeduped([], []) && Indexed(map[], [], [])
  {
  }

  /** The index after a player got its own place, or shares one. */
  lemma IndexAppends(seen: map<string, nat>, output: seq<MediaInfo>, infos: seq<MediaInfo>, info: MediaInfo)
    requires Indexed(seen, output, infos)
    ensures DedupeKey(info).None? ==> Indexed(seen, output + [info], infos + [info])
    ensures DedupeKey(info).Some? && !HasKey(infos, DedupeKey(info).value) ==>
              Indexed(seen[DedupeKey(info).value := |output|], output + [info], infos + [info])
  {
    KeysGrow(infos, info);
    hide HasKey;
  }

  lemma IndexMerges(seen: map<string, nat>, output: seq<MediaInfo>, infos: seq<MediaInfo>, info: MediaInfo,
                    at: nat)
    requires Indexed(seen, output, infos) && at < |output| && DedupeKey(info).Some?
    requires DedupeKey(output[at]) == DedupeKey(info) && DedupeKey(info).value in seen
    ensures Indexed(seen, if Better(info, output[at]) then output[at := info] else output, infos + [info])
  {
    KeysGrow(infos, info);
    hide HasKey;
  }

  method DedupePlayers(infos: seq<MediaInfo>) returns (output: seq<MediaInfo>)
    ensures IsDeduped(infos, output)
  {
    hide IsDeduped, HasKey, DedupeKey;
    output := [];
    var seen: map<string, nat> := map[];
    NothingYet();
    assert infos[..0] == [];
    for i := 0 to |infos|
      invariant IsDeduped(infos[..i], output)
      invariant Indexed(seen, output, infos[..i])
    {
      var info := infos[i];
      ghost var before := infos[..i];
      assert infos[..i + 1] == before + [info];
      var key := DedupeKey(info);
      if key.None? {
        Appends(before, output, info);
        IndexAppends(seen, output, before, info);
        output := output + [info];
        continue;
      }
      if key.value in seen {
        var at := seen[key.value];
        Merges(before, output, info, at);
        IndexMerges(seen, output, before, info, at);
        if Better(info, output[at]) {
          output := output[at := info];
        }
        continue;
      }
      Appends(before, output, info);
      IndexAppends(seen, output, before, info);
      seen := seen[key.value := |output|];
      output := output + [info];
    }
    assert infos[..|infos|] == infos;
  }

  // ---------------------------------------------------------------------------------------------
  // What deduplication gives
  // ---------------------------------------------------------------------------------------------

  ghost predicate RanksAscend(infos: seq<MediaInfo>) {
    forall i, j :: 0 <= i < j < |infos| ==> Rank(infos[i]) <= Rank(infos[j])
  }

  /** Firsts come in input order. */
  lemma {:induction false} FirstsAscend(infos: seq<MediaInfo>)
    requires RanksAscend(infos)
    ensures RanksAscend(FirstOfEach(infos))
  {
    if infos != [] {
      var before, last := infos[..|infos| - 1], infos[|infos| - 1];
      FirstsAscend(before);
      FirstsCoverKeys(before, "");
      forall x | x in FirstOfEach(before)
        ensures Rank(x) <= Rank(last)
      {
        var i :| 0 <= i < |before| && before[i] == x;
        assert infos[i] == x;
      }
    }
  }

  /** The newest player is a first of its key only when the key is new. */
  lemma FirstBefore(before: seq<MediaInfo>, last: MediaInfo, key: string, first: MediaInfo)
    requires first in FirstOfEach(before + [last]) && DedupeKey(first) == Some(key)
    ensures HasKey(before, key) ==> first in FirstOfEach(before)
    ensures !HasKey(before, key) ==> first == last
  {
    FirstSnoc(before, last);
    if !HasKey(before, key) {
      NoFirstHas(before, key);
    }
  }

  lemma WithKey(infos: seq<MediaInfo>, key: string) returns (h: nat)
    requires HasKey(infos, key)
    ensures h < |infos| && DedupeKey(infos[h]) == Some(key)
  {
    h :| h < |infos| && DedupeKey(infos[h]) == Some(key);
  }

  lemma NoneWithKey(infos: seq<MediaInfo>, key: string, i: nat)
    requires i < |infos| && DedupeKey(infos[i]) == Some(key)
    ensures HasKey(infos, key)
  {
  }

  lemma RanksAt(infos: seq<MediaInfo>, i: nat, j: nat)
    requires RanksAscend(infos) && i <= j < |infos|
    ensures Rank(infos[i]) <= Rank(infos[j]) && RanksAscend(infos[..|infos| - 1])
  {
  }

  /** In a ranked list the first player of a key has the least rank of the key. */
  lemma {:induction false} FirstIsLeast(infos: seq<MediaInfo>, key: string, first: MediaInfo, i: nat)
    requires RanksAscend(infos) && first in FirstOfEach(infos) && DedupeKey(first) == Some(key)
    requires i < |infos| && DedupeKey(infos[i]) == Some(key)
    ensures Rank(first) <= Rank(infos[i])
  {
    hide FirstOfEach, DedupeKey, PlaybackRank, RanksAscend, HasKey;
    var before, last := infos[..|infos| - 1], infos[|infos| - 1];
    assert infos == before + [last];
    FirstBefore(before, last, key, first);
    RanksAt(infos, i, |infos| - 1);
    if i < |before| {
      NoneWithKey(before, key, i);
      FirstIsLeast(before, key, first, i);
    } else if HasKey(before, key) {
      var h := WithKey(before, key);
      FirstIsLeast(before, key, first, h);
      RanksAt(infos, h, i);
    }
  }

  /**
   Replacement in place keeps the order by playback rank: in a ranked list, a player can only be
   replaced by one of the same rank.
   */
  lemma DedupeKeepsRanks(infos: seq<MediaInfo>, output: seq<MediaInfo>)
    requires RanksAscend(infos) && IsDeduped(infos, output)
    ensures RanksAscend(output)
  {
    var firsts := FirstOfEach(infos);
    FirstsAscend(infos);
    forall j | 0 <= j < |output|
      ensures Rank(output[j]) == Rank(firsts[j])
    {
      StandsKeepsRank(infos, firsts[j], output[j]);
    }
  }

  lemma StandsKeepsRank(infos: seq<MediaInfo>, first: MediaInfo, shown: MediaInfo)
    requires RanksAscend(infos) && first in FirstOfEach(infos) && Stands(infos, first, shown)
    ensures Rank(shown) == Rank(first)
  {
    FirstsCoverKeys(infos, "");
    if DedupeKey(first).Some? {
      var key := DedupeKey(first).value;
      var i :| BestAt(infos, key, i) && infos[i] == shown;
      hide FirstOfEach;
      FirstIsLeast(infos, key, first, i);
      var k :| 0 <= k < |infos| && infos[k] == first;
      assert !Better(infos[k], infos[i]);
    }
  }

  /**
   One card per key and it is the best; every player is shown or represented by one at least as
   good; players without a key all stay.
   */
  lemma DedupeShowsBest(infos: seq<MediaInfo>, output: seq<MediaInfo>)
    requires IsDeduped(infos, output)
    ensures KeysDiffer(output)
    ensures forall x :: x in output ==> x in infos
    ensures forall x :: x in infos ==> exists y :: y in output && Represents(y, x)
  {
    var firsts := FirstOfEach(infos);
    FirstsDiffer(infos);
    FirstsCoverKeys(infos, "");
    forall j | 0 <= j < |output|
      ensures DedupeKey(output[j]) == DedupeKey(firsts[j]) && output[j] in infos
    {
      StandsKeepsKey(infos, firsts[j], output[j]);
    }
    forall x | x in infos
      ensures exists y :: y in output && Represents(y, x)
    {
      IsRepresented(infos, output, x);
    }
  }

  ghost predicate Represents(shown: MediaInfo, player: MediaInfo) {
    if DedupeKey(player).None? then shown == player
    else DedupeKey(shown) == DedupeKey(player) && !Better(player, shown)
  }

  lemma IsRepresented(infos: seq<MediaInfo>, output: seq<MediaInfo>, x: MediaInfo)
    requires IsDeduped(infos, output) && x in infos
    ensures exists y :: y in output && Represents(y, x)
  {
    var firsts := FirstOfEach(infos);
    var j: nat;
    if DedupeKey(x).None? {
      KeylessStay(infos, x);
      j :| j < |firsts| && firsts[j] == x;
    } else {
      var key := DedupeKey(x).value;
      var h :| 0 <= h < |infos| && infos[h] == x;
      FirstsCoverKeys(infos, key);
      j :| j < |firsts| && DedupeKey(firsts[j]) == Some(key);
    }
    assert Stands(infos, firsts[j], output[j]);
    assert output[j] in output && Represents(output[j], x);
  }

  lemma {:induction false} KeylessStay(infos: seq<MediaInfo>, x: MediaInfo)
    requires x in infos && DedupeKey(x).None?
    ensures x in FirstOfEach(infos)
  {
    var before, last := infos[..|infos| - 1], infos[|infos| - 1];
    assert infos == before + [last];
    if x != last {
      KeylessStay(before, x);
    }
  }

  // ---------------------------------------------------------------------------------------------
  // The snapshot
  // ---------------------------------------------------------------------------------------------

  /** Sort order: playback rank, then the lower-cased identity; `lower` is Unicode lower-casing. */
  predicate Before(lower: string -> string, a: MediaInfo, b: MediaInfo) {
    Rank(a) < Rank(b) || (Rank(a) == Rank(b) && TextLess(lower(a.identity), lower(b.identity)))
  }

  ghost predicate InOrder(lower: string -> string, infos: seq<MediaInfo>) {
    forall i, j :: 0 <= i < j < |infos| ==> !Before(lower, infos[j], infos[i])
  }

  function Place(lower: string -> string, x: MediaInfo, sorted: seq<MediaInfo>): seq<MediaInfo> {
    if sorted == [] || !Before(lower, sorted[0], x) then [x] + sorted
    else [sorted[0]] + Place(lower, x, sorted[1..])
  }

  /** A stable sort: equal players keep their order. */
  function Sort(lower: string -> string, infos: seq<MediaInfo>): seq<MediaInfo> {
    if infos == [] then [] else Place(lower, infos[0], Sort(lower, infos[1..]))
  }

  lemma BeforeTrans(lower: string -> string, a: MediaInfo, b: MediaInfo, c: MediaInfo)
    requires !Before(lower, b, a) && !Before(lower, c, b)
    ensures !Before(lower, c, a)
  {
    var x, y, z := lower(a.identity), lower(b.identity), lower(c.identity);
    TextTotal(x, y);
    TextTotal(y, z);
    TextTotal(x, z);
    if TextLess(x, y) && TextLess(y, z) {
      TextTrans(x, y, z);
    }
  }

  lemma {:induction false} PlaceSorts(lower: string -> string, x: MediaInfo, sorted: seq<MediaInfo>)
    requires InOrder(lower, sorted)
    ensures InOrder(lower, Place(lower, x, sorted))
    ensures multiset(Place(lower, x, sorted)) == multiset(sorted) + multiset{x}
  {
    if sorted == [] {
    } else if !Before(lower, sorted[0], x) {
      forall j | 0 <= j < |sorted|
        ensures !Before(lower, sorted[j], x)
      {
        if j > 0 {
          BeforeTrans(lower, x, sorted[0], sorted[j]);
        }
      }
    } else {
      PlaceSorts(lower, x, sorted[1..]);
      assert sorted == [sorted[0]] + sorted[1..];
      var rest := Place(lower, x, sorted[1..]);
      TextTotal(lower(x.identity), lower(sorted[0].identity));
      forall j | 0 <= j < |rest|
        ensures !Before(lower, rest[j], sorted[0])
      {
        assert rest[j] in multiset(rest);
        if rest[j] != x {
          assert rest[j] in sorted[1..];
          var k :| 0 <= k < |sorted[1..]| && sorted[1..][k] == rest[j];
          assert sorted[k + 1] == rest[j];
        }
      }
    }
  }

  lemma {:induction false} SortKeepsAll(lower: string -> string, infos: seq<MediaInfo>)
    ensures InOrder(lower, Sort(lower, infos)) && multiset(Sort(lower, infos)) == multiset(infos)
  {
    if infos != [] {
      SortKeepsAll(lower, infos[1..]);
      PlaceSorts(lower, infos[0], Sort(lower, infos[1..]));
      assert infos == [infos[0]] + infos[1..];
    }
  }

  predicate Playing(info: MediaInfo) {
    info.playbackStatus == "Playing"
  }

  /** `shown` is the card of `player`: same key, no less active, and with art if that is the difference. */
  ghost predicate StandsIn(shown: MediaInfo, player: MediaInfo) {
    && (shown == player || (DedupeKey(player).Some? && DedupeKey(shown) == DedupeKey(player)))
    && (Playing(player) ==> Playing(shown))
    && (player.playbackStatus == shown.playbackStatus && player.hasArt ==> shown.hasArt)
  }

  lemma RepresentedStandsIn(shown: MediaInfo, player: MediaInfo)
    requires Represents(shown, player) && IsActivePlayer(shown) && IsActivePlayer(player)
    ensures StandsIn(shown, player)
  {
  }

  lemma PlayingFirst(infos: seq<MediaInfo>)
    requires RanksAscend(infos)
    ensures forall i, j :: 0 <= i < j < |infos| && Playing(infos[j]) ==> Playing(infos[i])
  {
    forall i, j | 0 <= i < j < |infos| && Playing(infos[j])
      ensures Playing(infos[i])
    {
      assert Rank(infos[i]) <= Rank(infos[j]) == 0;
    }
  }

  lemma OrderedRanksAscend(lower: string -> string, infos: seq<MediaInfo>)
    requires InOrder(lower, infos)
    ensures RanksAscend(infos)
  {
  }

  /** What deduplicating active players gives. */
  lemma CardsStandIn(infos: seq<MediaInfo>, cards: seq<MediaInfo>)
    requires IsDeduped(infos, cards) && forall x :: x in infos ==> IsActivePlayer(x)
    ensures forall x :: x in infos ==> exists y :: y in cards && StandsIn(y, x)
  {
    DedupeShowsBest(infos, cards);
    hide Represents, StandsIn, IsDeduped;
    forall x | x in infos
      ensures exists y :: y in cards && StandsIn(y, x)
    {
      var y :| y in cards && Represents(y, x);
      RepresentedStandsIn(y, x);
    }
  }

  /** The snapshot of a cache, whose values come in any order. */
  method BuildSnapshot(lower: string -> string, cached: seq<MediaInfo>) returns (snapshot: seq<MediaInfo>)
    ensures IsDeduped(Sort(lower, Filter(IsActivePlayer, cached)), snapshot)
    ensures forall i, j :: 0 <= i < j < |snapshot| && Playing(snapshot[j]) ==> Playing(snapshot[i])
    ensures KeysDiffer(snapshot)
    ensures forall x :: x in snapshot ==>
              x in cached && (x.playbackStatus == "Playing" || x.playbackStatus == "Paused")
    ensures forall x :: x in cached && (x.playbackStatus == "Playing" || x.playbackStatus == "Paused") ==>
              exists y :: y in snapshot && StandsIn(y, x)
  {
    hide StandsIn, Represents, IsDeduped, RanksAscend, InOrder, KeysDiffer, Sort, Filter;
    var active := Filter(IsActivePlayer, cached);
    FilterMembers(IsActivePlayer, cached);
    var infos := Sort(lower, active);
    SortKeepsAll(lower, active);
    SameMembers(infos, active);
    OrderedRanksAscend(lower, infos);
    snapshot := DedupePlayers(infos);
    DedupeKeepsRanks(infos, snapshot);
    PlayingFirst(snapshot);
    DedupeShowsBest(infos, snapshot);
    CardsStandIn(infos, snapshot);
  }

  // ---------------------------------------------------------------------------------------------
  // Deduplicating again
  // ---------------------------------------------------------------------------------------------

  lemma {:induction false} DifferentAreFirst(infos: seq<MediaInfo>)
    requires KeysDiffer(infos)
    ensures FirstOfEach(infos) == infos
  {
    if infos != [] {
      DifferentAreFirst(infos[..|infos| - 1]);
      assert infos == infos[..|infos| - 1] + [infos[|infos| - 1]];
    }
  }

  /** A deduplicated list is left alone. */
  lemma DedupeIsIdempotent(infos: seq<MediaInfo>, once: seq<MediaInfo>, twice: seq<MediaInfo>)
    requires IsDeduped(infos, once) && IsDeduped(once, twice)
    ensures twice == once
  {
    DedupeShowsBest(infos, once);
    DifferentAreFirst(once);
    hide FirstOfEach, Stands;
    forall j | 0 <= j < |once|
      ensures twice[j] == once[j]
    {
      OnlyItself(once, j, twice[j]);
    }
  }

  /** The result is determined by the input. */
  lemma DedupeIsDetermined(infos: seq<MediaInfo>, a: seq<MediaInfo>, b: seq<MediaInfo>)
    requires IsDeduped(infos, a) && IsDeduped(infos, b)
    ensures a == b
  {
  }

  lemma OnlyItself(infos: seq<MediaInfo>, j: nat, shown: MediaInfo)
    requires j < |infos| && KeysDiffer(infos) && Stands(infos, infos[j], shown)
    ensures shown == infos[j]
  {
  }
}
