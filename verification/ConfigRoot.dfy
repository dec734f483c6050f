/** The export walk over the config tree: an explicit stack of directories, pruned as it goes. */
module ConfigRoot {
  import opened Support
  import opened PathOrder
  import opened ConfigTree

  datatype Collected = Collected(files: seq<FileSource>, skippedSymlinks: seq<Path>, skippedNonRegular: seq<Path>)

  datatype WalkResult = Ok(value: Collected) | Err(path: Path)

  datatype Frame = Frame(path: Path, entries: seq<Entry>)

  // ---------------------------------------------------------------------------------------------
  // What is promised
  // ---------------------------------------------------------------------------------------------

  /** A file of the tree that belongs in the bundle. */
  ghost predicate Portable(o: Options, root: seq<Entry>, f: FileSource) {
    && (exists mode: nat :: Lookup(root, f.path) == Some(File(f.size, mode)) && f.mode == mode % 0x200)
    && !Excluded(o, f.path) && !UnderBackup(f.path) && o.output != Some(f.path)
  }

  /** Below a top-level backup directory; a top-level file with such a name is not. */
  predicate UnderBackup(path: Path) {
    |path| > 1 && IsBackup(path)
  }

  /** No directory above `path` is excluded or a backup. */
  ghost predicate Reached(o: Options, path: Path) {
    forall k :: 0 < k < |path| ==> !Pruned(o, path[..k])
  }

  /** A path the walk reaches and refuses: a directory leading outside, or a file with special bits. */
  ghost predicate Refused(o: Options, root: seq<Entry>, path: Path) {
    && Reached(o, path) && Lookup(root, path).Some?
    && match Lookup(root, path).value
       case Dir(outside, _) => outside && !Pruned(o, path)
       case File(_, mode) => SpecialBits(mode) && !Excluded(o, path) && o.output != Some(path)
       case _ => false
  }

  function FilePath(f: FileSource): Path { f.path }

  function Self(p: Path): Path { p }

  ghost predicate IsCollected(o: Options, root: seq<Entry>, c: Collected) {
    && Ascending(FilePath, c.files) && Ascending(Self, c.skippedSymlinks) && Ascending(Self, c.skippedNonRegular)
    && (forall f :: f in c.files <==> Portable(o, root, f))
    && (forall p :: p in c.skippedSymlinks <==> Lookup(root, p) == Some(Symlink) && Reached(o, p))
    && (forall p :: p in c.skippedNonRegular <==>
          Lookup(root, p) == Some(Special) && !Excluded(o, p) && !UnderBackup(p) && o.output != Some(p))
  }

  // ---------------------------------------------------------------------------------------------
  // Items of the whole tree
  // ---------------------------------------------------------------------------------------------

  lemma VisibleFromRoot(o: Options, path: Path)
    ensures Visible(o, [], path) <==> Reached(o, path)
    ensures [] + path == path
  {
  }

  /** An exclusion covers everything below it. */
  lemma ExcludedBelow(o: Options, path: Path, k: nat)
    requires k <= |path| && Excluded(o, path[..k])
    ensures Excluded(o, path)
  {
  }

  /** For a path that is not excluded itself, only a backup directory can hide it. */
  lemma ReachedIff(o: Options, path: Path)
    requires !Excluded(o, path)
    ensures Reached(o, path) <==> !UnderBackup(path)
  {
    forall k | 0 < k < |path|
      ensures !Excluded(o, path[..k]) && (IsBackup(path[..k]) <==> IsBackup(path))
    {
      if Excluded(o, path[..k]) {
        ExcludedBelow(o, path, k);
      }
    }
    if UnderBackup(path) {
      assert IsBackup(path[..1]);
    }
  }

  ghost predicate NotesAll(o: Options, root: seq<Entry>, items: seq<Item>) {
    forall item :: item in items <==> exists rel :: Deserves(o, root, [], rel, item)
  }

  /** Without a fault, the walk notes exactly what is deserved. */
  lemma ItemsExactly(o: Options, root: seq<Entry>)
    requires WellNamed(root) && NoFault(Items(o, root, []))
    ensures NotesAll(o, root, Items(o, root, []))
  {
    var items := Items(o, root, []);
    forall item
      ensures item in items <==> exists rel :: Deserves(o, root, [], rel, item)
    {
      if item in items {
        NotedIsDeserved(o, root, [], item);
      }
      if rel :| Deserves(o, root, [], rel, item) {
        DeservedIsNoted(o, root, [], rel, item);
      }
    }
  }

  lemma FaultIsRefused(o: Options, root: seq<Entry>, path: Path)
    requires WellNamed(root) && Fault(path) in Items(o, root, [])
    ensures Refused(o, root, path)
  {
    hide Items, WellNamed;
    NotedIsDeserved(o, root, [], Fault(path));
    var rel :| Deserves(o, root, [], rel, Fault(path));
    VisibleFromRoot(o, rel);
  }

  lemma RefusedIsFault(o: Options, root: seq<Entry>, path: Path)
    requires Refused(o, root, path)
    ensures !NoFault(Items(o, root, []))
  {
    VisibleFromRoot(o, path);
    assert Deserves(o, root, [], path, Fault(path));
    DeservedIsNoted(o, root, [], path, Fault(path));
  }

  lemma DeservedAt(o: Options, root: seq<Entry>, rel: Path, item: Item)
    requires Deserves(o, root, [], rel, item)
    ensures PathOf(item) == rel && Reached(o, rel)
  {
  }

  ghost predicate Meant(o: Options, root: seq<Entry>, item: Item) {
    match item
    case Keep(f) => KeepMeaning(o, root, f)
    case Link(p) => Lookup(root, p) == Some(Symlink) && Reached(o, p)
    case Odd(p) => Lookup(root, p) == Some(Special) && Reached(o, p) && !Excluded(o, p) && o.output != Some(p)
    case Fault(_) => false
  }

  /** What each kind of item says about the tree. */
  lemma ItemMeaning(o: Options, root: seq<Entry>, item: Item)
    requires !item.Fault?
    ensures Meant(o, root, item) <==> exists rel :: Deserves(o, root, [], rel, item)
  {
    var path := PathOf(item);
    VisibleFromRoot(o, path);
    if rel :| Deserves(o, root, [], rel, item) {
      DeservedAt(o, root, rel, item);
      assert Deserves(o, root, [], path, item);
    }
    if Lookup(root, path).Some? && Reached(o, path) && Classify(o, path, Lookup(root, path).value) == Some(item) {
      assert Deserves(o, root, [], path, item);
    }
  }

  ghost predicate KeepMeaning(o: Options, root: seq<Entry>, f: FileSource) {
    && Reached(o, f.path) && !Excluded(o, f.path) && o.output != Some(f.path)
    && Lookup(root, f.path).Some?
    && match Lookup(root, f.path).value
       case File(size, mode) => size == f.size && f.mode == mode % 0x200 && !SpecialBits(mode)
       case _ => false
  }

  // ---------------------------------------------------------------------------------------------
  // The walk
  // ---------------------------------------------------------------------------------------------

  /** The lists hold what has been noted so far, each path once. */
  ghost predicate Holds(c: Collected, seen: seq<Item>) {
    && (forall f :: f in c.files <==> Keep(f) in seen)
    && (forall p :: p in c.skippedSymlinks <==> Link(p) in seen)
    && (forall p :: p in c.skippedNonRegular <==> Odd(p) in seen)
    && NoFault(seen) && DifferentPaths(c)
  }

  ghost predicate DifferentPaths(c: Collected) {
    && (forall i, j :: 0 <= i < j < |c.files| ==> FilePath(c.files[i]) != FilePath(c.files[j]))
    && (forall i, j :: 0 <= i < j < |c.skippedSymlinks| ==> Self(c.skippedSymlinks[i]) != Self(c.skippedSymlinks[j]))
    && (forall i, j :: 0 <= i < j < |c.skippedNonRegular| ==>
          Self(c.skippedNonRegular[i]) != Self(c.skippedNonRegular[j]))
  }

  function Push(c: Collected, item: Item): Collected {
    match item
    case Keep(f) => c.(files := c.files + [f])
    case Link(p) => c.(skippedSymlinks := c.skippedSymlinks + [p])
    case Odd(p) => c.(skippedNonRegular := c.skippedNonRegular + [p])
    case Fault(_) => c
  }

  lemma PushHolds(c: Collected, seen: seq<Item>, item: Item)
    requires Holds(c, seen) && !item.Fault?
    requires forall x :: x in seen ==> PathOf(x) != PathOf(item)
    ensures Holds(Push(c, item), seen + [item])
  {
    forall f | f in c.files
      ensures FilePath(f) != PathOf(item)
    {
      assert Keep(f) in seen;
    }
    forall p | p in c.skippedSymlinks
      ensures p != PathOf(item)
    {
      assert Link(p) in seen;
    }
    forall p | p in c.skippedNonRegular
      ensures p != PathOf(item)
    {
      assert Odd(p) in seen;
    }
  }

  /** What the directories on the stack will still contribute. */
  ghost function Pending(o: Options, stack: seq<Frame>): multiset<Item> {
    if stack == [] then multiset{}
    else
      Pending(o, stack[..|stack| - 1])
      + multiset(Items(o, stack[|stack| - 1].entries, stack[|stack| - 1].path))
  }

  /** Directory entries below and including these. */
  ghost function Weight(entries: seq<Entry>): nat
    decreases entries
  {
    if entries == [] then 0
    else 2 + (if entries[0].node.Dir? then Weight(entries[0].node.entries) else 0) + Weight(entries[1..])
  }

  ghost function StackWeight(stack: seq<Frame>): nat {
    if stack == [] then 0
    else StackWeight(stack[..|stack| - 1]) + 1 + Weight(stack[|stack| - 1].entries)
  }

  lemma PushedFrame(o: Options, stack: seq<Frame>, f: Frame)
    ensures Pending(o, stack + [f]) == Pending(o, stack) + multiset(Items(o, f.entries, f.path))
    ensures StackWeight(stack + [f]) == StackWeight(stack) + 1 + Weight(f.entries)
  {
  }

  lemma {:induction false} AtMostOnce(items: seq<Item>, x: Item)
    requires PathsDiffer(items)
    ensures multiset(items)[x] <= 1
  {
    if items != [] {
      assert items == [items[0]] + items[1..];
      assert forall i :: 0 <= i < |items[1..]| ==> items[1..][i] == items[i + 1];
      AtMostOnce(items[1..], x);
    }
  }

  /** The whole tree's items, split into those seen, the next one and the others. */
  lemma NextIsNew(items: seq<Item>, seen: seq<Item>, next: Item, others: multiset<Item>)
    requires PathsDiffer(items)
    requires multiset(seen) + multiset{next} + others == multiset(items)
    ensures forall x :: x in seen ==> PathOf(x) != PathOf(next)
    ensures next in items
  {
    assert next in multiset(items);
    forall x | x in seen
      ensures PathOf(x) != PathOf(next)
    {
      assert x in multiset(seen) && x in multiset(items);
      AtMostOnce(items, next);
      assert multiset(items)[next] == multiset(seen)[next] + 1 + others[next];
      var i :| 0 <= i < |items| && items[i] == x;
      var j :| 0 <= j < |items| && items[j] == next;
      assert x != next && i != j;
    }
  }

  /** The items of a directory from its first entry on. */
  lemma FirstEntry(o: Options, entries: seq<Entry>, prefix: Path)
    requires entries != []
    ensures var path, node := prefix + [entries[0].name], entries[0].node;
      multiset(Items(o, entries, prefix))
      == multiset(One(Classify(o, path, node)))
         + (if Descends(o, path, node) then multiset(Items(o, node.entries, path)) else multiset{})
         + multiset(Items(o, entries[1..], prefix))
  {
  }

  lemma NoteAccounts(o: Options, all: seq<Item>, c: Collected, seen: seq<Item>, item: Item, tail: multiset<Item>)
    requires PathsDiffer(all) && Holds(c, seen)
    requires multiset(seen) + multiset{item} + tail == multiset(all)
    ensures item in all
    ensures !item.Fault? ==> Holds(Push(c, item), seen + [item]) && multiset(seen + [item]) + tail == multiset(all)
  {
    NextIsNew(all, seen, item, tail);
    if !item.Fault? {
      PushHolds(c, seen, item);
    }
  }

  function PathAt(frame: Frame, i: nat): Path
    requires i < |frame.entries|
  {
    frame.path + [frame.entries[i].name]
  }

  function Visit(o: Options, frame: Frame, i: nat): Option<Item>
    requires i < |frame.entries|
  {
    Classify(o, PathAt(frame, i), frame.entries[i].node)
  }

  function StackAfter(o: Options, frame: Frame, i: nat, stack: seq<Frame>): seq<Frame>
    requires i < |frame.entries|
  {
    if Descends(o, PathAt(frame, i), frame.entries[i].node)
    then stack + [Frame(PathAt(frame, i), frame.entries[i].node.entries)]
    else stack
  }

  /** Moving past one entry: what it gives is its item and what was stacked. */
  lemma EntryMoves(o: Options, frame: Frame, i: nat, stack: seq<Frame>)
    requires i < |frame.entries|
    ensures multiset(Items(o, frame.entries[i..], frame.path)) + Pending(o, stack)
         == multiset(One(Visit(o, frame, i)))
            + (multiset(Items(o, frame.entries[i + 1..], frame.path)) + Pending(o, StackAfter(o, frame, i, stack)))
  {
    var rest := frame.entries[i..];
    assert rest[0] == frame.entries[i] && rest[1..] == frame.entries[i + 1..];
    FirstEntry(o, rest, frame.path);
    hide Items, Classify;
    if Descends(o, PathAt(frame, i), frame.entries[i].node) {
      PushedFrame(o, stack, Frame(PathAt(frame, i), frame.entries[i].node.entries));
    }
  }

  /** Everything not yet seen, from entry `i` of the current directory on. */
  ghost function Left(o: Options, frame: Frame, i: nat, stack: seq<Frame>): multiset<Item>
    requires i <= |frame.entries|
  {
    multiset(Items(o, frame.entries[i..], frame.path)) + Pending(o, stack)
  }

  lemma NothingLeft(o: Options, frame: Frame, stack: seq<Frame>)
    ensures Left(o, frame, |frame.entries|, stack) == Pending(o, stack)
  {
  }

  lemma PassesOver(o: Options, all: seq<Item>, seen: seq<Item>, frame: Frame, i: nat, stack: seq<Frame>)
    requires i < |frame.entries| && Visit(o, frame, i).None?
    requires multiset(seen) + Left(o, frame, i, stack) == multiset(all)
    ensures multiset(seen) + Left(o, frame, i + 1, StackAfter(o, frame, i, stack)) == multiset(all)
  {
    EntryMoves(o, frame, i, stack);
  }

  lemma Notes(o: Options, all: seq<Item>, c: Collected, seen: seq<Item>, frame: Frame, i: nat, stack: seq<Frame>,
              item: Item)
    requires PathsDiffer(all) && Holds(c, seen) && i < |frame.entries| && Visit(o, frame, i) == Some(item)
    requires multiset(seen) + Left(o, frame, i, stack) == multiset(all)
    ensures item in all
    ensures !item.Fault? ==>
              && Holds(Push(c, item), seen + [item])
              && multiset(seen + [item]) + Left(o, frame, i + 1, StackAfter(o, frame, i, stack)) == multiset(all)
  {
    EntryMoves(o, frame, i, stack);
    NoteAccounts(o, all, c, seen, item, Left(o, frame, i + 1, StackAfter(o, frame, i, stack)));
  }

  lemma VisitWeighs(o: Options, frame: Frame, i: nat, stack: seq<Frame>)
    requires i < |frame.entries|
    ensures StackWeight(StackAfter(o, frame, i, stack)) + Weight(frame.entries[i + 1..])
         <= StackWeight(stack) + Weight(frame.entries[i..])
  {
  }

  /** A fault ends the walk. */
  function Outcome(c: Collected, item: Option<Item>): WalkResult {
    match item
    case None => Ok(c)
    case Some(Fault(path)) => Err(path)
    case Some(noted) => Ok(Push(c, noted))
  }

  /** One directory entry: noted, descended into, passed over or refused. */
  method VisitEntry(o: Options, frame: Frame, i: nat, c: Collected, before: seq<Frame>)
    returns (stack: seq<Frame>, r: WalkResult)
    requires i < |frame.entries|
    ensures stack == StackAfter(o, frame, i, before)
    ensures r == Outcome(c, Visit(o, frame, i))
  {
    var path, node := frame.path + [frame.entries[i].name], frame.entries[i].node;
    stack, r := before, Ok(c);
    if node.Symlink? {
      return stack, Ok(c.(skippedSymlinks := c.skippedSymlinks + [path]));
    }
    if node.Dir? {
      if IsBackup(path) || Excluded(o, path) {
        return;
      }
      if node.outside {
        return stack, Err(path);
      }
      stack := stack + [Frame(path, node.entries)];
      return;
    }
    if Excluded(o, path) {
      return;
    }
    if o.output == Some(path) {
      return;
    }
    if !node.File? {
      return stack, Ok(c.(skippedNonRegular := c.skippedNonRegular + [path]));
    }
    if (node.mode / 0x200) % 8 != 0 {
      return stack, Err(path);
    }
    r := Ok(c.(files := c.files + [FileSource(path, node.size, node.mode % 0x200)]));
  }

  /** Reads one directory: notes its entries and stacks the directories to descend into. */
  method ReadDirectory(o: Options, frame: Frame, before: seq<Frame>, c: Collected, ghost seen: seq<Item>,
                       ghost all: seq<Item>)
    returns (stack: seq<Frame>, r: WalkResult, ghost seen': seq<Item>)
    requires PathsDiffer(all) && Holds(c, seen)
    requires multiset(seen) + Left(o, frame, 0, before) == multiset(all)
    ensures r.Ok? ==> Holds(r.value, seen') && multiset(seen') + Pending(o, stack) == multiset(all)
    ensures StackWeight(stack) <= StackWeight(before) + Weight(frame.entries)
    ensures r.Err? ==> Fault(r.path) in all
  {
    hide Items, Classify, Descends, Holds, Pending, Weight, StackWeight, PathsDiffer, Visit, StackAfter, PathAt;
    stack, seen', r := before, seen, Ok(c);
    var i := 0;
    assert frame.entries[0..] == frame.entries;
    while i < |frame.entries|
      invariant i <= |frame.entries| && r.Ok?
      invariant Holds(r.value, seen')
      invariant multiset(seen') + Left(o, frame, i, stack) == multiset(all)
      invariant StackWeight(stack) + Weight(frame.entries[i..]) <= StackWeight(before) + Weight(frame.entries)
    {
      VisitWeighs(o, frame, i, stack);
      ghost var item := Visit(o, frame, i);
      if item.Some? {
        Notes(o, all, r.value, seen', frame, i, stack, item.value);
        seen' := seen' + [item.value];
      } else {
        PassesOver(o, all, seen', frame, i, stack);
      }
      stack, r := VisitEntry(o, frame, i, r.value, stack);
      if r.Err? {
        return;
      }
      i := i + 1;
    }
    NothingLeft(o, frame, stack);
  }

  function Sorted(c: Collected): Collected {
    Collected(SortByPath(FilePath, c.files), SortByPath(Self, c.skippedSymlinks),
              SortByPath(Self, c.skippedNonRegular))
  }

  lemma SortedHolds(c: Collected, seen: seq<Item>)
    requires Holds(c, seen)
    ensures Ascending(FilePath, Sorted(c).files) && Ascending(Self, Sorted(c).skippedSymlinks)
    ensures Ascending(Self, Sorted(c).skippedNonRegular)
    ensures forall f :: f in Sorted(c).files <==> Keep(f) in seen
    ensures forall p :: p in Sorted(c).skippedSymlinks <==> Link(p) in seen
    ensures forall p :: p in Sorted(c).skippedNonRegular <==> Odd(p) in seen
  {
    SortSorts(FilePath, c.files);
    SortSorts(Self, c.skippedSymlinks);
    SortSorts(Self, c.skippedNonRegular);
    SameMembers(Sorted(c).files, c.files);
    SameMembers(Sorted(c).skippedSymlinks, c.skippedSymlinks);
    SameMembers(Sorted(c).skippedNonRegular, c.skippedNonRegular);
  }

  lemma SeenMeant(o: Options, root: seq<Entry>, seen: seq<Item>, item: Item)
    requires WellNamed(root) && NoFault(seen) && multiset(seen) == multiset(Items(o, root, [])) && !item.Fault?
    ensures item in seen <==> Meant(o, root, item)
  {
    SameMembers(seen, Items(o, root, []));
    ItemsExactly(o, root);
    ItemMeaning(o, root, item);
  }

  lemma NothingRefused(o: Options, root: seq<Entry>, seen: seq<Item>)
    requires NoFault(seen) && multiset(seen) == multiset(Items(o, root, []))
    ensures forall path :: !Refused(o, root, path)
  {
    SameMembers(seen, Items(o, root, []));
    forall path
      ensures !Refused(o, root, path)
    {
      if Refused(o, root, path) {
        RefusedIsFault(o, root, path);
      }
    }
  }

  /** With nothing refused, a kept file is a portable file. */
  lemma KeepIsPortable(o: Options, root: seq<Entry>, f: FileSource)
    requires !Refused(o, root, f.path)
    ensures KeepMeaning(o, root, f) <==> Portable(o, root, f)
  {
    if !Excluded(o, f.path) {
      ReachedIff(o, f.path);
    }
  }

  lemma SeenIsCollected(o: Options, root: seq<Entry>, c: Collected, seen: seq<Item>)
    requires WellNamed(root) && Holds(c, seen) && multiset(seen) == multiset(Items(o, root, []))
    ensures IsCollected(o, root, Sorted(c))
  {
    SortedHolds(c, seen);
    NothingRefused(o, root, seen);
    forall f
      ensures Keep(f) in seen <==> Portable(o, root, f)
    {
      SeenMeant(o, root, seen, Keep(f));
      KeepIsPortable(o, root, f);
    }
    forall p
      ensures Link(p) in seen <==> Lookup(root, p) == Some(Symlink) && Reached(o, p)
      ensures Odd(p) in seen <==>
                Lookup(root, p) == Some(Special) && !Excluded(o, p) && !UnderBackup(p) && o.output != Some(p)
    {
      SeenMeant(o, root, seen, Link(p));
      SeenMeant(o, root, seen, Odd(p));
      if !Excluded(o, p) {
        ReachedIff(o, p);
      }
    }
  }

  /** The files to export, and what was skipped. */
  method CollectConfigFiles(root: seq<Entry>, o: Options) returns (r: WalkResult)
    requires WellNamed(root)
    ensures r.Ok? ==> IsCollected(o, root, r.value)
    ensures r.Err? ==> Refused(o, root, r.path)
    ensures r.Ok? <==> forall path :: !Refused(o, root, path)
  {
    ghost var all := Items(o, root, []);
    ItemPathsDiffer(o, root, []);
    var stack := [Frame([], root)];
    var collected := Collected([], [], []);
    ghost var seen: seq<Item> := [];
    PushedFrame(o, [], Frame([], root));
    assert [] + [Frame([], root)] == stack;
    while stack != []
      invariant Holds(collected, seen)
      invariant multiset(seen) + Pending(o, stack) == multiset(all)
      decreases StackWeight(stack)
    {
      var frame := stack[|stack| - 1];
      var below := stack[..|stack| - 1];
      assert frame.entries[0..] == frame.entries;
      var read;
      stack, read, seen := ReadDirectory(o, frame, below, collected, seen, all);
      if read.Err? {
        FaultIsRefused(o, root, read.path);
        return read;
      }
      collected := read.value;
    }
    SeenIsCollected(o, root, collected, seen);
    NothingRefused(o, root, seen);
    r := Ok(Sorted(collected));
  }

  // ---------------------------------------------------------------------------------------------
  // In terms of names and bits
  // ---------------------------------------------------------------------------------------------

  /** Neither below an excluded path nor in a directory whose first name begins with the backup prefix. */
  predicate Exported(o: Options, path: Path) {
    && (forall i :: 0 <= i < |o.exclusions| ==> !(o.exclusions[i] <= path))
    && !(|path| > 1 && |path[0]| >= 7 && path[0][..7] == "Backup-")
  }

  /** Which files of the tree end up in the bundle, and with which mode. */
  lemma FileIsCollectedIff(o: Options, root: seq<Entry>, c: Collected, path: Path, size: nat, mode: nat)
    requires IsCollected(o, root, c) && Lookup(root, path) == Some(File(size, mode))
    ensures FileSource(path, size, mode % 512) in c.files <==> Exported(o, path) && o.output != Some(path)
    ensures forall f :: f in c.files && f.path == path ==> f == FileSource(path, size, mode % 512)
  {
    assert UnderBackup(path) <==> |path| > 1 && |path[0]| >= 7 && path[0][..7] == "Backup-";
    assert Excluded(o, path) <==> !(forall i :: 0 <= i < |o.exclusions| ==> !(o.exclusions[i] <= path));
    var f := FileSource(path, size, mode % 512);
    assert Portable(o, root, f) <==> f in c.files;
  }

  /** Which entries make the export fail. */
  lemma RefusedIff(o: Options, root: seq<Entry>, path: Path)
    ensures Refused(o, root, path) <==>
              && Lookup(root, path).Some?
              && match Lookup(root, path).value
                 case Dir(outside, _) =>
                   && outside && Exported(o, path)
                   && !(|path| == 1 && |path[0]| >= 7 && path[0][..7] == "Backup-")
                 case File(_, mode) => mode / 512 % 8 != 0 && Exported(o, path) && o.output != Some(path)
                 case _ => false
  {
    assert IsBackup(path) <==> path != [] && |path[0]| >= 7 && path[0][..7] == "Backup-";
    assert Excluded(o, path) <==> !(forall i :: 0 <= i < |o.exclusions| ==> !(o.exclusions[i] <= path));
    if !Excluded(o, path) {
      ReachedIff(o, path);
    }
    assert path == [] ==> Lookup(root, path).None?;
  }

  /** A path names the entry of each directory it goes through. */
  lemma {:induction false} LookupGoesDown(entries: seq<Entry>, i: nat, rest: Path)
    requires WellNamed(entries) && i < |entries|
    ensures Lookup(entries, [entries[i].name]) == Some(entries[i].node)
    ensures rest != [] ==>
              var below := if entries[i].node.Dir? then Lookup(entries[i].node.entries, rest) else None;
              Lookup(entries, [entries[i].name] + rest) == below
  {
    FindEntry(entries, i);
    assert ([entries[i].name] + rest)[1..] == rest;
  }

  lemma {:induction false} FindEntry(entries: seq<Entry>, i: nat)
    requires i < |entries| && forall j, k :: 0 <= j < k < |entries| ==> entries[j].name != entries[k].name
    ensures Find(entries, entries[i].name) == Some(entries[i].node)
  {
    if i > 0 {
      assert forall j :: 0 <= j < |entries[1..]| ==> entries[1..][j] == entries[j + 1];
      FindEntry(entries[1..], i - 1);
    }
  }

  /**
   The result depends on the tree only, not on the order directories list their entries in: two
   trees with the same paths give the same lists.
   */
  lemma OrderOfEntriesIsIrrelevant(o: Options, root: seq<Entry>, other: seq<Entry>, c: Collected, d: Collected)
    requires IsCollected(o, root, c) && IsCollected(o, other, d)
    requires forall path :: SameNode(Lookup(root, path), Lookup(other, path))
    ensures c == d
  {
    forall f
      ensures f in c.files <==> f in d.files
    {
      assert SameNode(Lookup(root, f.path), Lookup(other, f.path));
    }
    forall p
      ensures p in c.skippedSymlinks <==> p in d.skippedSymlinks
      ensures p in c.skippedNonRegular <==> p in d.skippedNonRegular
    {
      assert SameNode(Lookup(root, p), Lookup(other, p));
    }
    AscendingIsUnique(FilePath, c.files, d.files);
    AscendingIsUnique(Self, c.skippedSymlinks, d.skippedSymlinks);
    AscendingIsUnique(Self, c.skippedNonRegular, d.skippedNonRegular);
  }

  /** The same kind of node: directories may list their entries differently. */
  predicate SameNode(a: Option<Node>, b: Option<Node>) {
    || a == b
    || (a.Some? && b.Some? && a.value.Dir? && b.value.Dir? && a.value.outside == b.value.outside)
  }
}
