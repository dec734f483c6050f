/**
 The config tree as preset export sees it: what is excluded, what a walk meets, and what a path in
 the tree deserves. Directory listings come in no particular order.
 */
module ConfigTree {
  import opened Support
  import opened PathOrder

  const BACKUP_PREFIX := "Backup-"

  /** `outside` says that the directory's real path lies outside the real config root. */
  datatype Node =
    | File(size: nat, mode: nat)
    | Symlink
    | Special
    | Dir(outside: bool, entries: seq<Entry>)

  datatype Entry = Entry(name: string, node: Node)

  /** The bundle being written, if it lies in the tree, and the excluded paths. */
  datatype Options = Options(output: Option<Path>, exclusions: seq<Path>)

  datatype FileSource = FileSource(path: Path, size: nat, mode: nat)

  /** What the walk notes for one directory entry. */
  datatype Item = Keep(file: FileSource) | Link(path: Path) | Odd(path: Path) | Fault(path: Path)

  predicate Excluded(o: Options, path: Path) {
    exists i :: 0 <= i < |o.exclusions| && o.exclusions[i] <= path
  }

  predicate IsBackup(path: Path) {
    path != [] && BACKUP_PREFIX <= path[0]
  }

  predicate Pruned(o: Options, path: Path) {
    IsBackup(path) || Excluded(o, path)
  }

  /** Set-user-id, set-group-id or sticky. */
  predicate SpecialBits(mode: nat) {
    (mode / 0x200) % 8 != 0
  }

  function Classify(o: Options, path: Path, node: Node): Option<Item> {
    match node
    case Symlink => Some(Link(path))
    case Dir(outside, _) => if !Pruned(o, path) && outside then Some(Fault(path)) else None
    case Special => if Excluded(o, path) || o.output == Some(path) then None else Some(Odd(path))
    case File(size, mode) =>
      if Excluded(o, path) || o.output == Some(path) then None
      else if SpecialBits(mode) then Some(Fault(path))
      else Some(Keep(FileSource(path, size, mode % 0x200)))
  }

  /** The walk goes on below this entry. */
  predicate Descends(o: Options, path: Path, node: Node) {
    node.Dir? && !node.outside && !Pruned(o, path)
  }

  function One(item: Option<Item>): seq<Item> {
    if item.Some? then [item.value] else []
  }

  /** Everything a walk of these entries notes, entry by entry. */
  function Items(o: Options, entries: seq<Entry>, prefix: Path): seq<Item>
    decreases entries
  {
    if entries == [] then []
    else
      var path, node := prefix + [entries[0].name], entries[0].node;
      One(Classify(o, path, node))
      + (if Descends(o, path, node) then Items(o, node.entries, path) else [])
      + Items(o, entries[1..], prefix)
  }

  /** The part of the items that comes from the first entry. */
  function FirstItems(o: Options, entries: seq<Entry>, prefix: Path): seq<Item>
    requires entries != []
  {
    var path, node := prefix + [entries[0].name], entries[0].node;
    One(Classify(o, path, node)) + if Descends(o, path, node) then Items(o, node.entries, path) else []
  }

  function Find(entries: seq<Entry>, name: string): Option<Node> {
    if entries == [] then None
    else if entries[0].name == name then Some(entries[0].node)
    else Find(entries[1..], name)
  }

  /** The node at a path of the tree. */
  function Lookup(entries: seq<Entry>, path: Path): Option<Node>
    decreases |path|
  {
    if path == [] then None
    else
      match Find(entries, path[0])
      case None => None
      case Some(node) =>
        if |path| == 1 then Some(node)
        else if node.Dir? then Lookup(node.entries, path[1..])
        else None
  }

  /** Names are unique in every directory. */
  ghost predicate WellNamed(entries: seq<Entry>)
    decreases entries
  {
    && (forall i, j :: 0 <= i < j < |entries| ==> entries[i].name != entries[j].name)
    && (forall i :: 0 <= i < |entries| && entries[i].node.Dir? ==> WellNamed(entries[i].node.entries))
  }

  /** No directory strictly between `prefix` and `prefix + rel` is pruned. */
  ghost predicate Visible(o: Options, prefix: Path, rel: Path) {
    forall k :: 0 < k < |rel| ==> !Pruned(o, prefix + rel[..k])
  }

  /** The path is there, its directories are walked, and it deserves `item`. */
  ghost predicate Deserves(o: Options, entries: seq<Entry>, prefix: Path, rel: Path, item: Item) {
    && Lookup(entries, rel).Some?
    && Visible(o, prefix, rel)
    && Classify(o, prefix + rel, Lookup(entries, rel).value) == Some(item)
  }

  function PathOf(item: Item): Path {
    if item.Keep? then item.file.path else item.path
  }

  ghost predicate NoFault(items: seq<Item>) {
    forall i :: i in items ==> !i.Fault?
  }

  // ---------------------------------------------------------------------------------------------
  // What is noted is deserved
  // ---------------------------------------------------------------------------------------------

  lemma {:induction false} FindAgrees(entries: seq<Entry>, i: nat)
    requires i < |entries| && WellNamed(entries)
    ensures Find(entries, entries[i].name) == Some(entries[i].node)
  {
    if i > 0 {
      FindAgrees(entries[1..], i - 1);
    }
  }

  lemma {:induction false} FindSays(entries: seq<Entry>, name: string) returns (i: nat)
    requires Find(entries, name).Some?
    ensures i < |entries| && entries[i] == Entry(name, Find(entries, name).value)
  {
    if entries[0].name == name {
      i := 0;
    } else {
      var j := FindSays(entries[1..], name);
      i := j + 1;
    }
  }

  lemma VisibleAbove(o: Options, prefix: Path, name: string, rel: Path)
    requires !Pruned(o, prefix + [name]) && Visible(o, prefix + [name], rel)
    ensures Visible(o, prefix, [name] + rel)
    ensures prefix + [name] + rel == prefix + ([name] + rel)
  {
    var full := [name] + rel;
    forall k | 0 < k < |full|
      ensures !Pruned(o, prefix + full[..k])
    {
      assert prefix + full[..k] == prefix + [name] + rel[..k - 1];
      if k == 1 {
        assert prefix + full[..k] == prefix + [name];
      }
    }
  }

  lemma LookupBelow(entries: seq<Entry>, i: nat, rel: Path)
    requires i < |entries| && WellNamed(entries) && entries[i].node.Dir? && rel != []
    ensures Lookup(entries, [entries[i].name] + rel) == Lookup(entries[i].node.entries, rel)
  {
    FindAgrees(entries, i);
    assert ([entries[i].name] + rel)[1..] == rel;
  }

  /** Noted below an entry: deserved through it. */
  lemma ThroughEntry(o: Options, entries: seq<Entry>, prefix: Path, i: nat, rel: Path, item: Item)
    requires i < |entries| && WellNamed(entries)
    requires Descends(o, prefix + [entries[i].name], entries[i].node)
    requires Deserves(o, entries[i].node.entries, prefix + [entries[i].name], rel, item)
    ensures Deserves(o, entries, prefix, [entries[i].name] + rel, item)
  {
    LookupBelow(entries, i, rel);
    VisibleAbove(o, prefix, entries[i].name, rel);
  }

  lemma AtEntry(o: Options, entries: seq<Entry>, prefix: Path, i: nat, item: Item)
    requires i < |entries| && WellNamed(entries)
    requires Classify(o, prefix + [entries[i].name], entries[i].node) == Some(item)
    ensures Deserves(o, entries, prefix, [entries[i].name], item)
  {
    FindAgrees(entries, i);
  }

  lemma {:induction false} TailWellNamed(entries: seq<Entry>)
    requires WellNamed(entries) && entries != []
    ensures WellNamed(entries[1..])
    ensures entries[0].node.Dir? ==> WellNamed(entries[0].node.entries)
  {
  }

  lemma FromTail(o: Options, entries: seq<Entry>, prefix: Path, rel: Path, item: Item)
    requires WellNamed(entries) && entries != [] && Deserves(o, entries[1..], prefix, rel, item)
    ensures Deserves(o, entries, prefix, rel, item)
  {
    var j := FindSays(entries[1..], rel[0]);
    FindAgrees(entries, j + 1);
  }

  /** Whatever the walk notes, some path of the tree deserves. */
  lemma {:induction false} NotedIsDeserved(o: Options, entries: seq<Entry>, prefix: Path, item: Item)
    requires WellNamed(entries) && item in Items(o, entries, prefix)
    ensures exists rel :: Deserves(o, entries, prefix, rel, item)
    decreases entries
  {
    var path, node := prefix + [entries[0].name], entries[0].node;
    TailWellNamed(entries);
    if Classify(o, path, node) == Some(item) {
      AtEntry(o, entries, prefix, 0, item);
    } else if Descends(o, path, node) && item in Items(o, node.entries, path) {
      NotedIsDeserved(o, node.entries, path, item);
      var rel :| Deserves(o, node.entries, path, rel, item);
      ThroughEntry(o, entries, prefix, 0, rel, item);
    } else {
      NotedIsDeserved(o, entries[1..], prefix, item);
      var rel :| Deserves(o, entries[1..], prefix, rel, item);
      FromTail(o, entries, prefix, rel, item);
    }
  }

  // ---------------------------------------------------------------------------------------------
  // What is deserved is noted
  // ---------------------------------------------------------------------------------------------

  lemma {:induction false} EntryContributes(o: Options, entries: seq<Entry>, prefix: Path, i: nat, item: Item)
    requires i < |entries|
    requires var path, node := prefix + [entries[i].name], entries[i].node;
      || Classify(o, path, node) == Some(item)
      || (Descends(o, path, node) && item in Items(o, node.entries, path))
    ensures item in Items(o, entries, prefix)
  {
    assert Items(o, entries, prefix) == FirstItems(o, entries, prefix) + Items(o, entries[1..], prefix);
    if i == 0 {
      assert item in FirstItems(o, entries, prefix);
    } else {
      assert entries[1..][i - 1] == entries[i];
      EntryContributes(o, entries[1..], prefix, i - 1, item);
    }
  }

  /** A deserved item is noted, unless the walk stops at a directory outside the root before it. */
  lemma {:induction false} DeservedIsNoted(o: Options, entries: seq<Entry>, prefix: Path, rel: Path, item: Item)
    requires Deserves(o, entries, prefix, rel, item)
    ensures item in Items(o, entries, prefix) || exists f :: f in Items(o, entries, prefix) && f.Fault?
    decreases |rel|
  {
    var i := FindSays(entries, rel[0]);
    var path, node := prefix + [rel[0]], entries[i].node;
    if |rel| == 1 {
      assert rel == [rel[0]];
      EntryContributes(o, entries, prefix, i, item);
    } else {
      assert rel[..1] == [rel[0]];
      assert !Pruned(o, prefix + rel[..1]);
      if node.outside {
        EntryContributes(o, entries, prefix, i, Fault(path));
      } else {
        VisibleBelow(o, prefix, rel);
        DeservedIsNoted(o, node.entries, path, rel[1..], item);
        var got :| got in Items(o, node.entries, path) && (got == item || got.Fault?);
        EntryContributes(o, entries, prefix, i, got);
      }
    }
  }

  lemma VisibleBelow(o: Options, prefix: Path, rel: Path)
    requires |rel| > 1 && Visible(o, prefix, rel)
    ensures Visible(o, prefix + [rel[0]], rel[1..])
    ensures prefix + [rel[0]] + rel[1..] == prefix + rel
  {
    forall k | 0 < k < |rel[1..]|
      ensures !Pruned(o, prefix + [rel[0]] + rel[1..][..k])
    {
      assert prefix + [rel[0]] + rel[1..][..k] == prefix + rel[..k + 1];
    }
  }

  // ---------------------------------------------------------------------------------------------
  // Different items have different paths
  // ---------------------------------------------------------------------------------------------

  ghost predicate PathsDiffer(items: seq<Item>) {
    forall i, j :: 0 <= i < j < |items| ==> PathOf(items[i]) != PathOf(items[j])
  }

  lemma PathsDifferConcat(a: seq<Item>, b: seq<Item>)
    requires PathsDiffer(a) && PathsDiffer(b)
    requires forall x, y :: x in a && y in b ==> PathOf(x) != PathOf(y)
    ensures PathsDiffer(a + b)
  {
  }

  lemma {:induction false} ItemsLieBelow(o: Options, entries: seq<Entry>, prefix: Path)
    ensures forall x :: x in Items(o, entries, prefix) ==>
              && |PathOf(x)| > |prefix| && prefix <= PathOf(x)
              && exists i :: 0 <= i < |entries| && PathOf(x)[|prefix|] == entries[i].name
    decreases entries
  {
    if entries != [] {
      var path, node := prefix + [entries[0].name], entries[0].node;
      ItemsLieBelow(o, entries[1..], prefix);
      var tail := entries[1..];
      forall x | x in Items(o, tail, prefix)
        ensures exists i :: 0 <= i < |entries| && PathOf(x)[|prefix|] == entries[i].name
      {
        var j :| 0 <= j < |tail| && PathOf(x)[|prefix|] == tail[j].name;
        assert entries[j + 1] == tail[j];
      }
      if Descends(o, path, node) {
        ItemsLieBelow(o, node.entries, path);
        forall x | x in Items(o, node.entries, path)
          ensures PathOf(x)[|prefix|] == entries[0].name && prefix <= PathOf(x)
        {
          assert path[|prefix|] == entries[0].name && prefix <= path;
        }
      }
    }
  }

  lemma {:induction false} ItemPathsDiffer(o: Options, entries: seq<Entry>, prefix: Path)
    requires WellNamed(entries)
    ensures PathsDiffer(Items(o, entries, prefix))
    decreases entries
  {
    if entries != [] {
      var path, node := prefix + [entries[0].name], entries[0].node;
      TailWellNamed(entries);
      var first, rest := FirstItems(o, entries, prefix), Items(o, entries[1..], prefix);
      if Descends(o, path, node) {
        ItemPathsDiffer(o, node.entries, path);
        ItemsLieBelow(o, node.entries, path);
        assert first == Items(o, node.entries, path);
      }
      FirstIsApart(o, entries, prefix);
      ItemPathsDiffer(o, entries[1..], prefix);
      PathsDifferConcat(first, rest);
    }
  }

  lemma FirstIsApart(o: Options, entries: seq<Entry>, prefix: Path)
    requires WellNamed(entries) && entries != []
    ensures forall x, y :: x in FirstItems(o, entries, prefix) && y in Items(o, entries[1..], prefix) ==>
              PathOf(x) != PathOf(y)
  {
    var path, node := prefix + [entries[0].name], entries[0].node;
    ItemsLieBelow(o, entries[1..], prefix);
    if Descends(o, path, node) {
      ItemsLieBelow(o, node.entries, path);
    }
    forall x, y | x in FirstItems(o, entries, prefix) && y in Items(o, entries[1..], prefix)
      ensures PathOf(x) != PathOf(y)
    {
      assert path <= PathOf(x) && PathOf(x)[|prefix|] == path[|prefix|] == entries[0].name;
      var i :| 0 <= i < |entries[1..]| && PathOf(y)[|prefix|] == entries[1..][i].name;
      assert entries[1..][i] == entries[i + 1];
    }
  }
}
