/**
 The full sort order of a media snapshot: when it survives deduplication, where a better duplicate
 takes the place of an earlier one.
 */
module MediaOrder {
  import opened Support
  import opened MediaKeys
  import opened MediaSnapshot

  /** The first position from `from` on whose player has this key, or the end. */
  function FirstWith(infos: seq<MediaInfo>, key: string, from: nat): (p: nat)
    requires from <= |infos|
    ensures from <= p <= |infos| && (p < |infos| ==> DedupeKey(infos[p]) == Some(key))
    ensures forall j :: from <= j < p ==> DedupeKey(infos[j]) != Some(key)
    decreases |infos| - from
  {
    if from == |infos| || DedupeKey(infos[from]) == Some(key) then from else FirstWith(infos, key, from + 1)
  }

  /** The position whose place in the snapshot belongs to player `i`. */
  function PlaceOf(infos: seq<MediaInfo>, i: nat): (p: nat)
    requires i < |infos|
    ensures p <= i && DedupeKey(infos[p]) == DedupeKey(infos[i])
  {
    match DedupeKey(infos[i])
    case None => i
    case Some(key) => FirstWith(infos, key, 0)
  }

  /** Player `i` is on a card: it has no key, or it is the best of its key. */
  ghost predicate Shown(infos: seq<MediaInfo>, i: nat) {
    && i < |infos|
    && match DedupeKey(infos[i])
       case None => true
       case Some(key) => BestAt(infos, key, i)
  }

  /** The positions of the firsts. */
  function FirstPlaces(infos: seq<MediaInfo>): seq<nat> {
    if infos == [] then []
    else
      var before, last := infos[..|infos| - 1], infos[|infos| - 1];
      FirstPlaces(before)
      + if DedupeKey(last).Some? && HasKey(before, DedupeKey(last).value) then [] else [|before|]
  }

  /** The listed positions are the firsts, in ascending order. */
  ghost predicate PlacesFit(infos: seq<MediaInfo>, places: seq<nat>, firsts: seq<MediaInfo>) {
    && |places| == |firsts|
    && (forall j :: 0 <= j < |places| ==> places[j] < |infos| && firsts[j] == infos[places[j]])
    && (forall j, k :: 0 <= j < k < |places| ==> places[j] < places[k])
  }

  /** Every player has its place among them, and they are their own places. */
  ghost predicate PlacesCover(infos: seq<MediaInfo>, places: seq<nat>) {
    && (forall i :: 0 <= i < |infos| ==> PlaceOf(infos, i) in places)
    && (forall p :: p in places ==> p < |infos| && PlaceOf(infos, p) == p)
  }

  lemma {:induction false} FirstWithPrefix(before: seq<MediaInfo>, last: MediaInfo, key: string, from: nat)
    requires from <= |before|
    ensures FirstWith(before, key, from) < |before| ==>
              FirstWith(before + [last], key, from) == FirstWith(before, key, from)
    decreases |before| - from
  {
    if from < |before| {
      assert (before + [last])[from] == before[from];
      FirstWithPrefix(before, last, key, if DedupeKey(before[from]) == Some(key) then |before| else from + 1);
    }
  }

  lemma PlaceOfPrefix(before: seq<MediaInfo>, last: MediaInfo, i: nat)
    requires i < |before|
    ensures PlaceOf(before + [last], i) == PlaceOf(before, i)
  {
    assert (before + [last])[i] == before[i];
    if DedupeKey(before[i]).Some? {
      FirstWithPrefix(before, last, DedupeKey(before[i]).value, 0);
    }
  }

  lemma PlaceOfLast(before: seq<MediaInfo>, last: MediaInfo)
    ensures var p := PlaceOf(before + [last], |before|);
      if DedupeKey(last).Some? && HasKey(before, DedupeKey(last).value)
      then p < |before| && PlaceOf(before, p) == p else p == |before|
  {
    var infos := before + [last];
    assert infos[|before|] == last;
    if DedupeKey(last).Some? {
      var key := DedupeKey(last).value;
      var p := FirstWith(infos, key, 0);
      assert forall j :: 0 <= j < |before| ==> infos[j] == before[j];
      if HasKey(before, key) {
        var h :| 0 <= h < |before| && DedupeKey(before[h]) == Some(key);
        assert DedupeKey(infos[h]) == Some(key);
        PlaceOfPrefix(before, last, p);
      }
    }
  }

  lemma PlacesSnoc(before: seq<MediaInfo>, last: MediaInfo)
    ensures FirstPlaces(before + [last]) == FirstPlaces(before)
              + if DedupeKey(last).Some? && HasKey(before, DedupeKey(last).value) then [] else [|before|]
  {
    assert (before + [last])[..|before + [last]| - 1] == before;
  }

  lemma {:induction false} PlacesAreFirsts(infos: seq<MediaInfo>)
    ensures PlacesFit(infos, FirstPlaces(infos), FirstOfEach(infos))
  {
    if infos != [] {
      var before, last := infos[..|infos| - 1], infos[|infos| - 1];
      assert infos == before + [last];
      PlacesAreFirsts(before);
      FirstSnoc(before, last);
      PlacesSnoc(before, last);
    }
  }

  lemma PlacesKept(before: seq<MediaInfo>, last: MediaInfo, places: seq<nat>)
    requires PlacesCover(before, places)
    ensures forall i :: 0 <= i < |before| ==> PlaceOf(before + [last], i) in places
    ensures forall p :: p in places ==> p < |before| && PlaceOf(before + [last], p) == p
  {
    forall i | 0 <= i < |before|
      ensures PlaceOf(before + [last], i) == PlaceOf(before, i)
    {
      PlaceOfPrefix(before, last, i);
    }
  }

  lemma {:induction false} PlacesCoverAll(infos: seq<MediaInfo>)
    ensures PlacesCover(infos, FirstPlaces(infos))
  {
    if infos != [] {
      var before, last := infos[..|infos| - 1], infos[|infos| - 1];
      assert infos == before + [last];
      PlacesCoverAll(before);
      PlacesKept(before, last, FirstPlaces(before));
      PlacesSnoc(before, last);
      PlaceOfLast(before, last);
      hide FirstPlaces, HasKey;
      LastCovered(before, last, FirstPlaces(before), FirstPlaces(infos));
    }
  }

  lemma LastCovered(before: seq<MediaInfo>, last: MediaInfo, places: seq<nat>, grown: seq<nat>)
    requires PlacesCover(before, places)
    requires var p := PlaceOf(before + [last], |before|);
      if p < |before| then PlaceOf(before, p) == p && grown == places
      else p == |before| && grown == places + [|before|]
    ensures PlacesCover(before + [last], grown)
  {
    PlacesKept(before, last, places);
    hide PlaceOf;
    var infos := before + [last];
    var p := PlaceOf(infos, |before|);
    if p < |before| {
      assert PlaceOf(before, p) in places;
    }
    forall i | 0 <= i < |infos|
      ensures PlaceOf(infos, i) in grown
    {
      assert i < |before| || i == |before|;
    }
  }

  /** Some shown player stands before another that sorts strictly before it. */
  ghost predicate Jumps(lower: string -> string, infos: seq<MediaInfo>, i: nat, m: nat) {
    && Shown(infos, i) && Shown(infos, m)
    && PlaceOf(infos, i) < PlaceOf(infos, m) && Before(lower, infos[m], infos[i])
  }

  /** The card at place `j` and the player on it. */
  lemma CardAt(infos: seq<MediaInfo>, output: seq<MediaInfo>, j: nat) returns (i: nat)
    requires IsDeduped(infos, output) && j < |output|
    ensures |FirstPlaces(infos)| == |output|
    ensures Shown(infos, i) && PlaceOf(infos, i) == FirstPlaces(infos)[j] && output[j] == infos[i]
  {
    PlacesAreFirsts(infos);
    PlacesCoverAll(infos);
    var p := FirstPlaces(infos)[j];
    assert p in FirstPlaces(infos);
    assert Stands(infos, infos[p], output[j]);
    i := OnTheCard(infos, p, output[j]);
  }

  lemma OnTheCard(infos: seq<MediaInfo>, p: nat, shown: MediaInfo) returns (i: nat)
    requires p < |infos| && PlaceOf(infos, p) == p && Stands(infos, infos[p], shown)
    ensures Shown(infos, i) && PlaceOf(infos, i) == p && infos[i] == shown
  {
    if DedupeKey(infos[p]).None? {
      i := p;
    } else {
      i :| BestAt(infos, DedupeKey(infos[p]).value, i) && infos[i] == shown;
    }
  }

  /** The card of a shown player. */
  lemma CardOf(infos: seq<MediaInfo>, output: seq<MediaInfo>, i: nat) returns (j: nat)
    requires IsDeduped(infos, output) && Shown(infos, i)
    ensures |FirstPlaces(infos)| == |output|
    ensures j < |output| && FirstPlaces(infos)[j] == PlaceOf(infos, i) && output[j] == infos[i]
  {
    PlacesAreFirsts(infos);
    PlacesCoverAll(infos);
    var p := PlaceOf(infos, i);
    assert p in FirstPlaces(infos);
    j :| j < |FirstPlaces(infos)| && FirstPlaces(infos)[j] == p;
    assert Stands(infos, infos[p], output[j]);
    ShownStands(infos, i, p, output[j]);
  }

  lemma ShownStands(infos: seq<MediaInfo>, i: nat, p: nat, shown: MediaInfo)
    requires Shown(infos, i) && p == PlaceOf(infos, i) && Stands(infos, infos[p], shown)
    ensures shown == infos[i]
  {
    if DedupeKey(infos[i]).Some? {
      var key := DedupeKey(infos[i]).value;
      var h: nat :| BestAt(infos, key, h) && infos[h] == shown;
      OneBest(infos, key, i, h);
    }
  }

  lemma OneBest(infos: seq<MediaInfo>, key: string, i: nat, h: nat)
    requires BestAt(infos, key, i) && BestAt(infos, key, h)
    ensures i == h
  {
    assert DedupeKey(infos[i]) == Some(key) && DedupeKey(infos[h]) == Some(key);
  }

  /**
   The snapshot keeps the whole sort order exactly when no shown player takes a place before the
   place of a shown player that sorts strictly before it.
   */
  lemma OrderStaysIff(lower: string -> string, infos: seq<MediaInfo>, output: seq<MediaInfo>)
    requires IsDeduped(infos, output)
    ensures InOrder(lower, output) <==> forall i: nat, m: nat :: !Jumps(lower, infos, i, m)
  {
    PlacesAreFirsts(infos);
    hide FirstOfEach, FirstPlaces, IsDeduped, PlaceOf, Shown;
    if forall i: nat, m: nat :: !Jumps(lower, infos, i, m) {
      forall a, b | 0 <= a < b < |output|
        ensures !Before(lower, output[b], output[a])
      {
        var i := CardAt(infos, output, a);
        var m := CardAt(infos, output, b);
        assert !Jumps(lower, infos, i, m);
      }
    }
    if InOrder(lower, output) {
      forall i: nat, m: nat
        ensures !Jumps(lower, infos, i, m)
      {
        if Jumps(lower, infos, i, m) {
          JumpShows(lower, infos, output, i, m);
        }
      }
    }
  }

  lemma JumpShows(lower: string -> string, infos: seq<MediaInfo>, output: seq<MediaInfo>, i: nat, m: nat)
    requires IsDeduped(infos, output) && Jumps(lower, infos, i, m)
    ensures !InOrder(lower, output)
  {
    PlacesAreFirsts(infos);
    hide FirstOfEach, FirstPlaces, IsDeduped, PlaceOf, Shown, Before;
    var a := CardOf(infos, output, i);
    var b := CardOf(infos, output, m);
    assert a < b;
    assert Before(lower, output[b], output[a]);
  }

  lemma OrderAt(lower: string -> string, infos: seq<MediaInfo>, i: nat, m: nat)
    requires InOrder(lower, infos) && i < m < |infos|
    ensures !Before(lower, infos[m], infos[i])
  {
  }

  /** In a sorted list only a duplicate that was moved up can jump, over a player that came before it. */
  lemma JumpersMovedUp(lower: string -> string, infos: seq<MediaInfo>, i: nat, m: nat)
    requires InOrder(lower, infos) && Jumps(lower, infos, i, m)
    ensures PlaceOf(infos, i) < PlaceOf(infos, m) <= m < i
  {
    if i < m {
      OrderAt(lower, infos, i, m);
    }
  }

  lemma StaysPut(infos: seq<MediaInfo>, i: nat)
    requires i < |infos| && KeysDiffer(infos)
    ensures PlaceOf(infos, i) == i
  {
    assert DedupeKey(infos[PlaceOf(infos, i)]) == DedupeKey(infos[i]);
  }

  /** Without duplicates nobody moves. */
  lemma WithoutDuplicatesOrderStays(lower: string -> string, infos: seq<MediaInfo>, output: seq<MediaInfo>)
    requires InOrder(lower, infos) && KeysDiffer(infos) && IsDeduped(infos, output)
    ensures InOrder(lower, output)
  {
    forall i: nat, m: nat
      ensures !Jumps(lower, infos, i, m)
    {
      if Jumps(lower, infos, i, m) {
        JumpersMovedUp(lower, infos, i, m);
        StaysPut(infos, i);
      }
    }
    OrderStaysIff(lower, infos, output);
  }

  function Browser(identity: string, hasArt: bool): MediaInfo {
    MediaInfo("", identity, Some("firefox"), Some(7), "", "", "Playing", hasArt)
  }

  function Untitled(identity: string): MediaInfo {
    MediaInfo("", identity, None, None, "", "", "Playing", false)
  }

  lemma FirstAlone(a: MediaInfo)
    ensures FirstOfEach([a]) == [a]
  {
    FirstSnoc([], a);
    assert [] + [a] == [a];
  }

  lemma KeylessIsFirst(infos: seq<MediaInfo>, b: MediaInfo)
    requires DedupeKey(b).None?
    ensures FirstOfEach(infos + [b]) == FirstOfEach(infos) + [b]
  {
    FirstSnoc(infos, b);
  }

  lemma DuplicateIsNotFirst(infos: seq<MediaInfo>, c: MediaInfo)
    requires infos != [] && DedupeKey(c).Some? && DedupeKey(infos[0]) == DedupeKey(c)
    ensures FirstOfEach(infos + [c]) == FirstOfEach(infos)
  {
    FirstSnoc(infos, c);
    assert HasKey(infos, DedupeKey(c).value);
  }

  lemma ThreeFirsts(a: MediaInfo, b: MediaInfo, c: MediaInfo)
    requires DedupeKey(a).Some? && DedupeKey(b).None? && DedupeKey(c) == DedupeKey(a)
    ensures FirstOfEach([a, b, c]) == [a, b]
  {
    hide DedupeKey, FirstOfEach;
    FirstAlone(a);
    KeylessIsFirst([a], b);
    DuplicateIsNotFirst([a, b], c);
    assert [a] + [b] == [a, b] && [a, b] + [c] == [a, b, c];
  }

  /**
   With a replacement it need not be: the card with art takes the earlier place of its duplicate,
   before a card whose identity sorts first.
   */
  lemma ReplacementBreaksIdentityOrder(lower: string -> string)
    requires lower("a") == "a" && lower("b") == "b" && lower("c") == "c"
    ensures var infos := [Browser("a", false), Untitled("b"), Browser("c", true)];
            var output := [Browser("c", true), Untitled("b")];
            InOrder(lower, infos) && IsDeduped(infos, output) && !InOrder(lower, output)
  {
    var a, b, c := Browser("a", false), Untitled("b"), Browser("c", true);
    var infos := [a, b, c];
    ThreeFirsts(a, b, c);
    assert BestAt(infos, DedupeKey(a).value, 2);
    assert Before(lower, [c, b][1], [c, b][0]);
  }
}
