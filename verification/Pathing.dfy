/**
 Path algebra of presets, for Unix paths: parsing into components, normalising, archive mapping.
 Names are character sequences.
 */
module Pathing {
  import opened Support

  datatype Component = RootDir | CurDir | ParentDir | Normal(part: string)

  datatype PathError = EmptyPath | AbsolutePath | ParentTraversal | EmptyResult | NotInPayload

  datatype Result<+T> = Ok(value: T) | Err(error: PathError)

  const PAYLOAD_ARCHIVE_DIR := "payload"
  const MANIFEST_ARCHIVE_PATH := "manifest.toml"

  /** The pieces between slashes; never empty. */
  function Pieces(s: string): seq<string> {
    if s == [] then [""]
    else if s[0] == '/' then [""] + Pieces(s[1..])
    else
      var rest := Pieces(s[1..]);
      if rest == [] then [] else [[s[0]] + rest[0]] + rest[1..]
  }

  function Join(parts: seq<string>): string {
    if parts == [] then ""
    else if |parts| == 1 then parts[0]
    else parts[0] + "/" + Join(parts[1..])
  }

  /** A piece that names something: not empty, not `.`, not `..`. */
  predicate Names(piece: string) {
    piece != "" && piece != "." && piece != ".."
  }

  /** A name without slashes. */
  predicate IsName(part: string) {
    Names(part) && '/' !in part
  }

  function ToComponents(pieces: seq<string>): seq<Component> {
    if pieces == [] then []
    else
      (if pieces[0] == "" || pieces[0] == "." then []
       else if pieces[0] == ".." then [ParentDir]
       else [Normal(pieces[0])]) + ToComponents(pieces[1..])
  }

  /** Path::components: a leading slash is the root, a leading `.` stays, other empty or dot pieces go. */
  function Components(path: string): seq<Component> {
    if path == "" then []
    else if path[0] == '/' then [RootDir] + ToComponents(Pieces(path))
    else if Pieces(path) != [] && Pieces(path)[0] == "." then [CurDir] + ToComponents(Pieces(path))
    else ToComponents(Pieces(path))
  }

  function AsComponents(parts: seq<string>): seq<Component> {
    Map((p: string) => Normal(p), parts)
  }

  /** Not empty and not a dot. */
  predicate Counts(piece: string) {
    |piece| > 0 && !(|piece| == 1 && piece[0] == '.')
  }

  function Step(piece: string): Component {
    if |piece| == 2 && piece[0] == '.' && piece[1] == '.' then ParentDir else Normal(piece)
  }

  /** Slashes separate; empty pieces and dots go, except a leading dot; two dots climb; the rest are names. */
  lemma ComponentsAre(path: string)
    requires path != ""
    ensures Pieces(path) != []
    ensures Components(path)
         == (if path[0] == '/' then [RootDir] else if Pieces(path)[0] == "." then [CurDir] else [])
            + Map(Step, Filter(Counts, Pieces(path)))
  {
    PiecesHaveNoSlash(path);
    StepsAre(Pieces(path));
    assert [] + ToComponents(Pieces(path)) == ToComponents(Pieces(path));
  }

  lemma {:induction false} StepsAre(pieces: seq<string>)
    ensures ToComponents(pieces) == Map(Step, Filter(Counts, pieces))
  {
    if pieces != [] {
      StepsAre(pieces[1..]);
      var p, rest := pieces[0], Filter(Counts, pieces[1..]);
      assert p == "." <==> |p| == 1 && p[0] == '.';
      assert p == ".." <==> |p| == 2 && p[0] == '.' && p[1] == '.';
      if Counts(p) {
        assert Filter(Counts, pieces) == [p] + rest;
        assert Map(Step, [p] + rest) == [Step(p)] + Map(Step, rest);
      } else {
        assert Filter(Counts, pieces) == [] + rest == rest;
        assert ToComponents(pieces) == [] + ToComponents(pieces[1..]) == ToComponents(pieces[1..]);
      }
    }
  }

  // ---------------------------------------------------------------------------------------------
  // Relative paths
  // ---------------------------------------------------------------------------------------------

  /** What normalising components may give: the names in order, if nothing climbs. */
  ghost predicate NormalizesTo(components: seq<Component>, r: Result<seq<string>>) {
    if ParentDir in components || RootDir in components then
      || (r == Err(ParentTraversal) && ParentDir in components)
      || (r == Err(AbsolutePath) && RootDir in components)
    else
      var parts := NamesOf(components);
      r == if parts == [] then Err(EmptyResult) else Ok(parts)
  }

  function NamesOf(components: seq<Component>): seq<string> {
    if components == [] then []
    else (if components[0].Normal? then [components[0].part] else []) + NamesOf(components[1..])
  }

  lemma {:induction false} NamesOfConcat(a: seq<Component>, b: seq<Component>)
    ensures NamesOf(a + b) == NamesOf(a) + NamesOf(b)
  {
    if a == [] {
      assert a + b == b;
    } else {
      hide NamesOf;
      var c, t := a[0], a[1..];
      NamesOfConcat(t, b);
      NamesOfFirst(c, t);
      NamesOfFirst(c, t + b);
      assert [c] + t == a;
      ConcatAssociates([c], t, b);
      ConcatAssociates(NamesOf([c]), NamesOf(t), NamesOf(b));
    }
  }

  lemma NamesOfFirst(c: Component, rest: seq<Component>)
    ensures NamesOf([c] + rest) == NamesOf([c]) + NamesOf(rest)
  {
    assert ([c] + rest)[1..] == rest && [c][1..] == [];
  }

  method NormalizeComponents(components: seq<Component>) returns (r: Result<seq<string>>)
    ensures NormalizesTo(components, r)
  {
    var normalized: seq<string> := [];
    for i := 0 to |components|
      invariant ParentDir !in components[..i] && RootDir !in components[..i]
      invariant normalized == NamesOf(components[..i])
    {
      assert components[..i + 1] == components[..i] + [components[i]];
      NamesOfConcat(components[..i], [components[i]]);
      match components[i]
      case CurDir =>
      case ParentDir => return Err(ParentTraversal);
      case RootDir => return Err(AbsolutePath);
      case Normal(part) => normalized := normalized + [part];
    }
    assert components[..|components|] == components;
    r := if normalized == [] then Err(EmptyResult) else Ok(normalized);
  }

  method NormalizeRelativePath(path: string) returns (r: Result<seq<string>>)
    ensures path == "" ==> r == Err(EmptyPath)
    ensures path != "" && path[0] == '/' ==> r == Err(AbsolutePath)
    ensures path != "" && path[0] != '/' && ".." in Pieces(path) ==> r == Err(ParentTraversal)
    ensures path != "" && path[0] != '/' && ".." !in Pieces(path) ==>
              var parts := Filter(Names, Pieces(path));
              r == if parts == [] then Err(EmptyResult) else Ok(parts)
  {
    if path == "" {
      return Err(EmptyPath);
    }
    if path[0] == '/' {
      return Err(AbsolutePath);
    }
    ComponentsOfRelative(path);
    r := NormalizeComponents(Components(path));
  }

  lemma {:induction false} ToComponentsNames(pieces: seq<string>)
    ensures RootDir !in ToComponents(pieces) && CurDir !in ToComponents(pieces)
    ensures ParentDir in ToComponents(pieces) <==> ".." in pieces
    ensures NamesOf(ToComponents(pieces)) == Filter(Names, pieces)
  {
    if pieces != [] {
      ToComponentsNames(pieces[1..]);
      assert pieces == [pieces[0]] + pieces[1..];
      var first := ToComponents(pieces)[..|ToComponents(pieces)| - |ToComponents(pieces[1..])|];
      assert ToComponents(pieces) == first + ToComponents(pieces[1..]);
      NamesOfConcat(first, ToComponents(pieces[1..]));
    }
  }

  lemma ComponentsOfRelative(path: string)
    requires path != "" && path[0] != '/'
    ensures RootDir !in Components(path)
    ensures ParentDir in Components(path) <==> ".." in Pieces(path)
    ensures NamesOf(Components(path)) == Filter(Names, Pieces(path))
  {
    ToComponentsNames(Pieces(path));
    NamesOfConcat([CurDir], ToComponents(Pieces(path)));
  }

  // ---------------------------------------------------------------------------------------------
  // Formatting undoes normalising
  // ---------------------------------------------------------------------------------------------

  lemma {:induction false} PiecesHaveNoSlash(s: string)
    ensures Pieces(s) != []
    ensures forall p :: p in Pieces(s) ==> '/' !in p
  {
    if s != [] {
      PiecesHaveNoSlash(s[1..]);
      var rest := Pieces(s[1..]);
      if s[0] != '/' {
        assert forall p :: p in rest[1..] ==> p in rest;
        assert rest[0] in rest;
      }
    }
  }

  lemma {:induction false} PiecesOfOne(part: string)
    requires '/' !in part
    ensures Pieces(part) == [part]
  {
    if part != [] {
      assert part[0] in part;
      assert forall c :: c in part[1..] ==> c in part;
      PiecesOfOne(part[1..]);
      assert [part[0]] + part[1..] == part;
    }
  }

  lemma {:induction false} PiecesOfFirst(part: string, rest: string)
    requires '/' !in part
    ensures Pieces(part + "/" + rest) == [part] + Pieces(rest)
  {
    var s := part + "/" + rest;
    if part == [] {
      assert s[1..] == rest;
    } else {
      assert part[0] in part;
      assert forall c :: c in part[1..] ==> c in part;
      assert s[1..] == part[1..] + "/" + rest;
      PiecesOfFirst(part[1..], rest);
      assert [part[0]] + part[1..] == part;
      assert ([part[1..]] + Pieces(rest))[1..] == Pieces(rest);
    }
  }

  lemma {:induction false} PiecesOfJoin(parts: seq<string>)
    requires parts != [] && forall p :: p in parts ==> '/' !in p
    ensures Pieces(Join(parts)) == parts
  {
    if |parts| == 1 {
      PiecesOfOne(parts[0]);
    } else {
      PiecesOfFirst(parts[0], Join(parts[1..]));
      PiecesOfJoin(parts[1..]);
    }
  }

  /** What normalising gives: a nonempty list of names. */
  ghost predicate Normalized(parts: seq<string>) {
    parts != [] && forall p :: p in parts ==> IsName(p)
  }

  lemma NormalizedIsNormal(path: string)
    ensures Filter(Names, Pieces(path)) != [] ==> Normalized(Filter(Names, Pieces(path)))
  {
    PiecesHaveNoSlash(path);
    FilterMembers(Names, Pieces(path));
  }

  lemma JoinStart(parts: seq<string>)
    requires Normalized(parts)
    ensures Join(parts) != "" && Join(parts)[0] != '/'
  {
    assert parts[0] in parts;
    assert parts[0][0] in parts[0];
  }

  /** The formatted path of a normalised list has exactly its names as components. */
  lemma ComponentsOfJoin(parts: seq<string>)
    requires Normalized(parts)
    ensures Pieces(Join(parts)) == parts && Filter(Names, parts) == parts && ".." !in parts
    ensures Components(Join(parts)) == AsComponents(parts)
  {
    PiecesOfJoin(parts);
    FilterAll(Names, parts);
    JoinStart(parts);
    assert parts[0] in parts;
    AllNormal(parts);
  }

  lemma {:induction false} AllNormal(parts: seq<string>)
    requires forall p :: p in parts ==> Names(p)
    ensures ToComponents(parts) == AsComponents(parts)
  {
    if parts != [] {
      assert parts[0] in parts;
      AllNormal(parts[1..]);
      assert AsComponents(parts) == [Normal(parts[0])] + AsComponents(parts[1..]);
    }
  }

  /** Reading a formatted normalised path gives the same names: manifests survive a round trip. */
  method FormatThenNormalize(path: string) returns (r: Result<seq<string>>, again: Result<seq<string>>)
    ensures r.Ok? ==> Normalized(r.value) && again == r
  {
    r := NormalizeRelativePath(path);
    again := r;
    if r.Ok? {
      NormalizedIsNormal(path);
      ComponentsOfJoin(r.value);
      JoinStart(r.value);
      again := NormalizeRelativePath(Join(r.value));
    }
  }

  // ---------------------------------------------------------------------------------------------
  // Archive layout
  // ---------------------------------------------------------------------------------------------

  function ArchivePayloadPath(parts: seq<string>): seq<string> {
    [PAYLOAD_ARCHIVE_DIR] + parts
  }

  lemma {:induction false} NamesOfAs(parts: seq<string>)
    ensures NamesOf(AsComponents(parts)) == parts
  {
    if parts != [] {
      NamesOfAs(parts[1..]);
      assert AsComponents(parts)[1..] == AsComponents(parts[1..]);
    }
  }

  lemma {:induction false} AsNamesOf(components: seq<Component>)
    requires forall c :: c in components ==> c.Normal?
    ensures AsComponents(NamesOf(components)) == components
  {
    if components != [] {
      AsNamesOf(components[1..]);
      assert components[0] in components;
      assert NamesOf(components) == [components[0].part] + NamesOf(components[1..]);
      assert AsComponents(NamesOf(components)) == [components[0]] + AsComponents(NamesOf(components[1..]));
    }
  }

  lemma AfterAName(path: string)
    requires Components(path) != [] && Components(path)[0].Normal?
    ensures RootDir !in Components(path) && CurDir !in Components(path)
  {
    ToComponentsNames(Pieces(path));
  }

  /** Without dots the rest is the relative path, and nothing else. */
  lemma PayloadRest(components: seq<Component>, relative: Result<seq<string>>, parts: seq<string>)
    requires components != [] && components[0] == Normal(PAYLOAD_ARCHIVE_DIR)
    requires RootDir !in components && CurDir !in components
    requires NormalizesTo(components[1..], relative) && parts != []
    ensures relative == Ok(parts) <==> components == AsComponents(ArchivePayloadPath(parts))
  {
    var rest := components[1..];
    assert components == [components[0]] + rest;
    assert AsComponents(ArchivePayloadPath(parts)) == [components[0]] + AsComponents(parts);
    if relative == Ok(parts) {
      assert forall c :: c in rest ==> c in components && c != ParentDir;
      AsNamesOf(rest);
    }
    if components == AsComponents(ArchivePayloadPath(parts)) {
      assert rest == AsComponents(parts);
      NamesOfAs(parts);
    }
  }

  /** The payload path an archive entry stands for; None for the manifest. */
  method ArchivePayloadRelative(path: string) returns (r: Result<Option<seq<string>>>)
    ensures r == Ok(None) <==> Components(path) == [Normal("manifest.toml")]
    ensures forall parts | parts != [] ::
              r == Ok(Some(parts)) <==> Components(path) == AsComponents(ArchivePayloadPath(parts))
  {
    var components := Components(path);
    if components == [Normal(MANIFEST_ARCHIVE_PATH)] {
      return Ok(None);
    }
    if components == [] || components[0] != Normal(PAYLOAD_ARCHIVE_DIR) {
      return Err(NotInPayload);
    }
    var rest := components[1..];
    if rest == [] {
      return Err(EmptyPath);
    }
    var relative := NormalizeComponents(rest);
    AfterAName(path);
    forall parts: seq<string> | parts != []
      ensures relative == Ok(parts) <==> components == AsComponents(ArchivePayloadPath(parts))
    {
      PayloadRest(components, relative, parts);
    }
    r := match relative
      case Ok(parts) => Ok(Some(parts))
      case Err(e) => Err(e);
  }

  /** The text of an entry for the path `parts`: its pieces are `payload` and the names, in order. */
  lemma PayloadTextIff(path: string, parts: seq<string>)
    ensures Components(path) == AsComponents(ArchivePayloadPath(parts)) <==>
              && path != "" && path[0] != '/' && Pieces(path) != [] && Pieces(path)[0] != "."
              && Filter(Counts, Pieces(path)) == ["payload"] + parts && ".." !in parts
  {
    if path != "" {
      ComponentsAre(path);
      var kept := Filter(Counts, Pieces(path));
      var all := ["payload"] + parts;
      if path[0] != '/' && Pieces(path)[0] != "." {
        assert Components(path) == Map(Step, kept);
        StepsMatch(kept, all);
      } else {
        assert AsComponents(all)[0] == Normal("payload");
        assert !Components(path)[0].Normal?;
      }
      assert ".." in all <==> ".." in parts;
    }
  }

  lemma StepMeans(piece: string)
    ensures Step(piece) == if piece == ".." then ParentDir else Normal(piece)
  {
    assert |piece| == 2 && piece[0] == '.' && piece[1] == '.' ==> piece == "..";
  }

  lemma StepsMatch(kept: seq<string>, names: seq<string>)
    ensures Map(Step, kept) == AsComponents(names) <==> kept == names && ".." !in names
  {
    if Map(Step, kept) == AsComponents(names) {
      assert |kept| == |Map(Step, kept)| == |names|;
      forall i | 0 <= i < |kept|
        ensures kept[i] == names[i] && names[i] != ".."
      {
        assert Map(Step, kept)[i] == AsComponents(names)[i] == Normal(names[i]);
      }
    }
    if kept == names && ".." !in names {
      forall i | 0 <= i < |kept|
        ensures Map(Step, kept)[i] == AsComponents(names)[i]
      {
        assert names[i] in names;
        StepMeans(names[i]);
      }
    }
  }

  /** Every normalised path survives the trip into the archive layout and back. */
  method ArchiveRoundTrip(parts: seq<string>) returns (r: Result<Option<seq<string>>>)
    requires Normalized(parts)
    ensures r == Ok(Some(parts))
  {
    var stored := ArchivePayloadPath(parts);
    assert forall p :: p in stored ==> IsName(p);
    ComponentsOfJoin(stored);
    r := ArchivePayloadRelative(Join(stored));
  }

  // ---------------------------------------------------------------------------------------------
  // Lexical normalisation
  // ---------------------------------------------------------------------------------------------

  function Fold(buffer: seq<Component>, c: Component): seq<Component> {
    match c
    case RootDir => [RootDir]
    case CurDir => buffer
    case Normal(_) => buffer + [c]
    case ParentDir =>
      if buffer != [] && buffer[|buffer| - 1].Normal? then buffer[..|buffer| - 1]
      else if buffer != [] && buffer[|buffer| - 1].RootDir? then buffer
      else buffer + [c]
  }

  function LexicalForm(components: seq<Component>): seq<Component> {
    if components == [] then []
    else Fold(LexicalForm(components[..|components| - 1]), components[|components| - 1])
  }

  method NormalizeLexicalPath(components: seq<Component>) returns (normalized: seq<Component>)
    ensures normalized == LexicalForm(components)
  {
    normalized := [];
    for i := 0 to |components|
      invariant normalized == LexicalForm(components[..i])
    {
      assert components[..i + 1][..i] == components[..i];
      match components[i]
      case RootDir => normalized := [RootDir];  // pushing an absolute path replaces the buffer
      case CurDir =>
      case Normal(part) => normalized := normalized + [Normal(part)];
      case ParentDir =>
        if normalized == [] {
          normalized := [ParentDir];
        } else {
          match normalized[|normalized| - 1]
          case Normal(_) => normalized := normalized[..|normalized| - 1];
          case RootDir =>
          case _ => normalized := normalized + [ParentDir];
        }
    }
    assert components[..|components|] == components;
  }

  /** Where a path leads when followed from directory `base`, a list of names below the root. */
  function Follow(base: seq<string>, components: seq<Component>): seq<string> {
    if components == [] then base
    else
      var before := Follow(base, components[..|components| - 1]);
      match components[|components| - 1]
      case RootDir => []
      case CurDir => before
      case Normal(part) => before + [part]
      case ParentDir => if before == [] then [] else before[..|before| - 1]
  }

  /** An optional root, then climbs (never below a root), then names. */
  ghost predicate Canonical(b: seq<Component>) {
    && (forall i :: 0 <= i < |b| ==> b[i] != CurDir && (b[i] == RootDir ==> i == 0))
    && (forall i :: 0 <= i < |b| && b[i] == ParentDir ==> forall j :: 0 <= j <= i ==> b[j] == ParentDir)
  }

  lemma FollowLast(base: seq<string>, b: seq<Component>, c: Component)
    ensures Follow(base, b + [c]) == match c
              case RootDir => []
              case CurDir => Follow(base, b)
              case Normal(part) => Follow(base, b) + [part]
              case ParentDir => if Follow(base, b) == [] then [] else Follow(base, b)[..|Follow(base, b)| - 1]
  {
  }

  /** One fold leads where the component it folds in leads. */
  lemma FoldFollows(base: seq<string>, b: seq<Component>, c: Component)
    requires Canonical(b)
    ensures Canonical(Fold(b, c))
    ensures Follow(base, Fold(b, c)) == Follow(base, b + [c])
  {
  }

  /**
   Normalisation keeps the meaning of a path: followed from any directory, the normal form leads to
   the same place; and the form is canonical.
   */
  lemma {:induction false} LexicalKeepsMeaning(base: seq<string>, components: seq<Component>)
    ensures Canonical(LexicalForm(components))
    ensures Follow(base, LexicalForm(components)) == Follow(base, components)
  {
    if components != [] {
      var before, c := components[..|components| - 1], components[|components| - 1];
      assert components == before + [c];
      LexicalKeepsMeaning(base, before);
      FoldFollows(base, LexicalForm(before), c);
      FollowLast(base, LexicalForm(before), c);
      FollowLast(base, before, c);
    }
  }

  lemma {:induction false} CanonicalIsFixed(b: seq<Component>)
    requires Canonical(b)
    ensures LexicalForm(b) == b
  {
    hide Follow;
    if b != [] {
      var before := b[..|b| - 1];
      CanonicalIsFixed(before);
      assert b == before + [b[|b| - 1]];
      if b[|b| - 1] == ParentDir && before != [] {
        assert b[|b| - 2] == ParentDir;
      }
    }
  }

  lemma LexicalIsIdempotent(components: seq<Component>)
    ensures LexicalForm(LexicalForm(components)) == LexicalForm(components)
  {
    LexicalKeepsMeaning([], components);
    CanonicalIsFixed(LexicalForm(components));
  }

  lemma {:induction false} RootedFollows(base: seq<string>, b: seq<Component>)
    requires Canonical(b) && b != [] && b[0] == RootDir
    ensures b == [RootDir] + AsComponents(Follow(base, b))
  {
    var before, last := b[..|b| - 1], b[|b| - 1];
    assert b == before + [last];
    FollowLast(base, before, last);
    if before != [] {
      assert last.Normal?;
      RootedFollows(base, before);
    }
  }

  lemma {:induction false} RootStays(components: seq<Component>)
    requires components != [] && components[0] == RootDir
    ensures LexicalForm(components) != [] && LexicalForm(components)[0] == RootDir
  {
    if |components| > 1 {
      RootStays(components[..|components| - 1]);
    }
  }

  /** An absolute path normalises to the root and the names of the place it leads to. */
  lemma AbsoluteForm(components: seq<Component>)
    requires components != [] && components[0] == RootDir
    ensures LexicalForm(components) == [RootDir] + AsComponents(Follow([], components))
  {
    LexicalKeepsMeaning([], components);
    RootStays(components);
    RootedFollows([], LexicalForm(components));
  }

  lemma AsComponentsPrefix(a: seq<string>, b: seq<string>)
    ensures AsComponents(a) <= AsComponents(b) <==> a <= b
  {
    if AsComponents(a) <= AsComponents(b) {
      forall i | 0 <= i < |a|
        ensures a[i] == b[i]
      {
        assert AsComponents(a)[i] == AsComponents(b)[i];
      }
    }
  }

  /**
   The containment test of the preset code, on normal forms, holds exactly when the candidate leads
   to a place below the root directory: dots and climbs cannot fool it in either direction.
   */
  lemma ContainmentIsExact(root: seq<Component>, candidate: seq<Component>)
    requires root != [] && root[0] == RootDir && candidate != [] && candidate[0] == RootDir
    ensures LexicalForm(root) <= LexicalForm(candidate) <==> Follow([], root) <= Follow([], candidate)
  {
    var a, b := Follow([], root), Follow([], candidate);
    AbsoluteForm(root);
    AbsoluteForm(candidate);
    AsComponentsPrefix(a, b);
    RootPrefix(AsComponents(a), AsComponents(b));
  }

  lemma RootPrefix(a: seq<Component>, b: seq<Component>)
    ensures [RootDir] + a <= [RootDir] + b <==> a <= b
  {
    var x, y := [RootDir] + a, [RootDir] + b;
    assert x[1..] == a && y[1..] == b;
    if x <= y {
      assert forall i :: 0 <= i < |a| ==> a[i] == x[i + 1] && b[i] == y[i + 1];
    }
  }
}
