/** Notification rows, close reasons and the two policies every component shares. */
module Notifications {
  import opened Support
  import opened IdAllocation

  /** A point on the monotonic clock, in nanoseconds. */
  type Instant = int

  /** A stored row. Display text is opaque; hints and image bytes are what history strips. */
  datatype Notification = Notification(
    id: Id,
    isTransient: bool,
    senderName: Option<string>,
    senderPid: Option<nat>,
    senderStartTime: Option<nat>,
    text: string,
    hints: map<string, string>,
    imageData: seq<bv8>)

  datatype CloseReason = Expired | DismissedByUser | ClosedByCall | Undefined

  /** History rows keep no raw hint payload and no image bytes. */
  function ToHistory(n: Notification): Notification {
    n.(hints := map[], imageData := [])
  }

  predicate ShouldArchive(reason: CloseReason, isTransient: bool, transientToHistory: bool) {
    if reason == DismissedByUser then false
    else if isTransient && !transientToHistory then false
    else true
  }

  /** Same bus name, or same process lifetime (pid and start time together). */
  predicate OwnedBy(n: Notification, sender: Option<string>, pid: Option<nat>, startTime: Option<nat>) {
    || (sender.Some? && n.senderName == sender)
    || (pid.Some? && startTime.Some? && n.senderPid == pid && n.senderStartTime == startTime)
  }

  function Ids(rows: seq<Notification>): seq<Id> {
    Map((n: Notification) => n.id, rows)
  }

  ghost function IdSet(rows: seq<Notification>): set<Id> {
    set n | n in rows :: n.id
  }

  ghost predicate DistinctIds(rows: seq<Notification>) {
    forall i, j :: 0 <= i < j < |rows| ==> rows[i].id != rows[j].id
  }

  /** The row carrying an id, if any. */
  function Find(rows: seq<Notification>, id: Id): Option<Notification> {
    if rows == [] then None
    else if rows[0].id == id then Some(rows[0])
    else Find(rows[1..], id)
  }

  /** The rows not carrying an id, in order. */
  function Without(rows: seq<Notification>, id: Id): seq<Notification> {
    Filter((n: Notification) => n.id != id, rows)
  }

  lemma {:induction false} FindMeans(rows: seq<Notification>, id: Id)
    ensures Find(rows, id).Some? <==> id in IdSet(rows)
    ensures Find(rows, id).Some? ==> Find(rows, id).value in rows && Find(rows, id).value.id == id
  {
    if rows != [] {
      FindMeans(rows[1..], id);
      assert rows == [rows[0]] + rows[1..];
    }
  }

  lemma WithoutMeans(rows: seq<Notification>, id: Id)
    ensures forall n :: n in Without(rows, id) <==> n in rows && n.id != id
    ensures IdSet(Without(rows, id)) == IdSet(rows) - {id}
    ensures |Without(rows, id)| <= |rows|
  {
    FilterMembers((n: Notification) => n.id != id, rows);
  }

  lemma WithoutAbsent(rows: seq<Notification>, id: Id)
    requires id !in IdSet(rows)
    ensures Without(rows, id) == rows
  {
    FilterAll((n: Notification) => n.id != id, rows);
  }

  lemma {:induction false} WithoutDistinct(rows: seq<Notification>, id: Id)
    requires DistinctIds(rows)
    ensures DistinctIds(Without(rows, id))
    ensures id in IdSet(rows) ==> |Without(rows, id)| == |rows| - 1
  {
    if rows != [] {
      WithoutDistinct(rows[1..], id);
      WithoutMeans(rows[1..], id);
      assert rows == [rows[0]] + rows[1..];
      if rows[0].id == id {
        assert id !in IdSet(rows[1..]);
        WithoutAbsent(rows[1..], id);
      }
    }
  }

  lemma IdCount(rows: seq<Notification>)
    requires DistinctIds(rows)
    ensures |IdSet(rows)| == |rows|
  {
    DistinctSize(Ids(rows));
    forall id | id in IdSet(rows)
      ensures id in Elements(Ids(rows))
    {
      var n :| n in rows && n.id == id;
      var i :| 0 <= i < |rows| && rows[i] == n;
      assert Ids(rows)[i] == id;
    }
    assert IdSet(rows) == Elements(Ids(rows));
  }
}
