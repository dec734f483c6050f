/**
 The declaration parser of the CSS checker and a printer for it. Text is a sequence of characters;
 reported offsets are UTF-8 byte offsets.
 */
module CssDeclarations {
  import opened Support
  import opened CssText

  datatype CssDeclaration = CssDeclaration(name: string, value: string, start: nat)

  /** Scanner state: an open quote, a pending escape inside it, and the group depths. */
  datatype Mode = Mode(quote: Option<char>, escaped: bool, paren: nat, bracket: nat)

  const INIT := Mode(None, false, 0, 0)

  predicate TopLevel(m: Mode) {
    m.quote.None? && m.paren == 0 && m.bracket == 0
  }

  function Dec(n: nat): nat {
    if n == 0 then 0 else n - 1
  }

  function Advance(m: Mode, c: char): Mode {
    if m.quote.Some? then
      if m.escaped then m.(escaped := false)
      else if c == '\\' then m.(escaped := true)
      else if c == m.quote.value then m.(quote := None)
      else m
    else
      match c
      case '"' => m.(quote := Some(c))
      case '\'' => m.(quote := Some(c))
      case '(' => m.(paren := m.paren + 1)
      case ')' => m.(paren := Dec(m.paren))
      case '[' => m.(bracket := m.bracket + 1)
      case ']' => m.(bracket := Dec(m.bracket))
      case _ => m
  }

  /** The state after reading `s` from state `m`. */
  function Run(m: Mode, s: string): Mode
    decreases s
  {
    if s == [] then m else Run(Advance(m, s[0]), s[1..])
  }

  /** Index of the first `mark` met at top level, reading from state `m`. */
  function FindTop(m: Mode, s: string, mark: char): (at: Option<nat>)
    ensures at.Some? ==> at.value < |s|
    decreases s
  {
    if s == [] then None
    else if s[0] == mark && TopLevel(m) then Some(0)
    else
      match FindTop(Advance(m, s[0]), s[1..], mark)
      case None => None
      case Some(i) => Some(i + 1)
  }

  /** str::find of a nonempty needle, as a character index. */
  function FindText(s: string, needle: string): (at: Option<nat>)
    ensures at.Some? ==> at.value <= |s|
  {
    if needle <= s then Some(0)
    else if s == [] then None
    else
      match FindText(s[1..], needle)
      case None => None
      case Some(i) => Some(i + 1)
  }

  /** At most one declaration from the text between two separators. */
  function Declare(raw: string, rawStart: nat): seq<CssDeclaration> {
    var trimmed := Trim(raw);
    if trimmed == [] then []
    else
      match FindTop(INIT, trimmed, ':')
      case None => []
      case Some(colon) =>
        var name := Trim(trimmed[..colon]);
        var value := Trim(trimmed[colon + 1..]);
        if name == [] || value == [] then []
        else
          var lead := FindText(raw, trimmed);
          [CssDeclaration(name, value, rawStart + if lead.Some? then ByteLen(raw[..lead.value]) else 0)]
  }

  /** A piece of the block between two separators, and its byte offset. */
  datatype Segment = Segment(raw: string, start: nat)

  /** The block cut at its top-level semicolons. */
  function Split(block: string, start: nat): seq<Segment>
    decreases |block|
  {
    match FindTop(INIT, block, ';')
    case None => [Segment(block, start)]
    case Some(k) =>
      [Segment(block[..k], start)] + Split(block[k + 1..], start + ByteLen(block[..k + 1]))
  }

  function DeclareAll(segments: seq<Segment>): seq<CssDeclaration> {
    if segments == [] then []
    else Declare(segments[0].raw, segments[0].start) + DeclareAll(segments[1..])
  }

  /** The declarations of a block. */
  function Parse(block: string): seq<CssDeclaration> {
    DeclareAll(Split(block, 0))
  }

  lemma {:induction false} FindTopInRange(m: Mode, s: string, mark: char)
    ensures FindTop(m, s, mark).Some? ==>
              var i := FindTop(m, s, mark).value;
              i < |s| && s[i] == mark && TopLevel(Run(m, s[..i])) && FindTop(m, s[..i], mark).None?
    decreases s
  {
    if s != [] && !(s[0] == mark && TopLevel(m)) {
      FindTopInRange(Advance(m, s[0]), s[1..], mark);
      var r := FindTop(m, s, mark);
      if r.Some? {
        assert s[..r.value][1..] == s[1..][..r.value - 1];
      }
    }
  }

  // ---------------------------------------------------------------------------------------------
  // Scanning laws
  // ---------------------------------------------------------------------------------------------

  lemma {:induction false} RunConcat(m: Mode, a: string, b: string)
    ensures Run(m, a + b) == Run(Run(m, a), b)
    decreases a
  {
    if a == [] {
      assert a + b == b;
    } else {
      RunConcat(Advance(m, a[0]), a[1..], b);
      assert (a + b)[1..] == a[1..] + b;
    }
  }

  lemma {:induction false} FindTopConcat(m: Mode, a: string, b: string, mark: char)
    requires FindTop(m, a, mark).None?
    ensures FindTop(m, a + b, mark) ==
            match FindTop(Run(m, a), b, mark) case None => None case Some(i) => Some(|a| + i)
    decreases a
  {
    if a == [] {
      assert a + b == b;
    } else {
      FindTopConcat(Advance(m, a[0]), a[1..], b, mark);
      assert (a + b)[1..] == a[1..] + b;
    }
  }

  lemma {:induction false} FindTopPrefix(m: Mode, a: string, b: string, mark: char)
    requires FindTop(m, a + b, mark).None?
    ensures FindTop(m, a, mark).None? && FindTop(Run(m, a), b, mark).None?
    decreases a
  {
    if a == [] {
      assert a + b == b;
    } else {
      assert (a + b)[1..] == a[1..] + b;
      FindTopPrefix(Advance(m, a[0]), a[1..], b, mark);
    }
  }

  /** States the scanner reaches: an escape is pending only inside a quote. */
  predicate Sane(m: Mode) {
    (m.quote.None? ==> !m.escaped) && (m.quote.Some? ==> m.quote.value == '"' || m.quote.value == '\'')
  }

  lemma {:induction false} RunSane(m: Mode, s: string)
    requires Sane(m)
    ensures Sane(Run(m, s))
    ensures TopLevel(Run(m, s)) ==> Run(m, s) == INIT
    decreases s
  {
    if s != [] {
      RunSane(Advance(m, s[0]), s[1..]);
    }
  }

  /** Blanks are inert at top level, and never bring the scanner to the top level. */
  lemma {:induction false} RunBlank(m: Mode, s: string)
    requires Blank(s) && Sane(m)
    ensures m == INIT ==> Run(m, s) == INIT
    ensures Run(m, s) == INIT ==> m == INIT
    ensures FindTop(m, s, ';').None? && FindTop(m, s, ':').None?
    decreases s
  {
    if s != [] {
      assert IsWhitespace(s[0]);
      RunBlank(Advance(m, s[0]), s[1..]);
    }
  }

  // ---------------------------------------------------------------------------------------------
  // Printing
  // ---------------------------------------------------------------------------------------------

  datatype Pair = Pair(name: string, value: string)

  /** A pair and the blanks printed around its parts. */
  datatype Piece = Piece(pair: Pair, beforeName: string, afterName: string, beforeValue: string, afterValue: string)

  ghost predicate BlankAround(p: Piece) {
    Blank(p.beforeName) && Blank(p.afterName) && Blank(p.beforeValue) && Blank(p.afterValue)
  }

  function Core(p: Piece): string {
    p.pair.name + p.afterName + ":" + (p.beforeValue + p.pair.value)
  }

  function PrintOne(p: Piece): string {
    p.beforeName + Core(p) + p.afterValue
  }

  /** Declarations separated by semicolons; the last one may go without. */
  function Print(pieces: seq<Piece>, terminated: bool): string {
    if pieces == [] then ""
    else if |pieces| == 1 && !terminated then PrintOne(pieces[0])
    else PrintOne(pieces[0]) + ";" + Print(pieces[1..], terminated)
  }

  function Locate(p: Piece, start: nat): CssDeclaration {
    CssDeclaration(p.pair.name, p.pair.value, start + ByteLen(p.beforeName))
  }

  /** The same pairs with the byte offset each name has in the printed text. */
  function Located(pieces: seq<Piece>, start: nat): seq<CssDeclaration> {
    if pieces == [] then []
    else [Locate(pieces[0], start)] + Located(pieces[1..], start + ByteLen(PrintOne(pieces[0]) + ";"))
  }

  /** A name closes what it opens and has no top-level colon or semicolon. */
  ghost predicate NameOk(name: string) {
    && Trimmed(name) && Run(INIT, name) == INIT
    && FindTop(INIT, name, ':').None? && FindTop(INIT, name, ';').None?
  }

  /** A value has no top-level semicolon. */
  ghost predicate ValueOk(value: string) {
    Trimmed(value) && FindTop(INIT, value, ';').None?
  }

  ghost predicate Closed(value: string) {
    Run(INIT, value) == INIT
  }

  /** Well-formed lists: only the last value may leave a quote or group open. */
  ghost predicate WellFormed(pairs: seq<Pair>, terminated: bool) {
    && (forall i :: 0 <= i < |pairs| ==> PairOk(pairs[i]))
    && (forall i :: 0 <= i < |pairs| && (terminated || i < |pairs| - 1) ==> Closed(pairs[i].value))
  }

  ghost predicate PairOk(p: Pair) {
    NameOk(p.name) && ValueOk(p.value)
  }

  ghost predicate PieceOk(p: Piece) {
    PairOk(p.pair) && BlankAround(p)
  }

  ghost predicate Printable(pieces: seq<Piece>, terminated: bool) {
    && (forall i :: 0 <= i < |pieces| ==> PieceOk(pieces[i]))
    && (forall i :: 0 <= i < |pieces| && (terminated || i < |pieces| - 1) ==> Closed(pieces[i].pair.value))
  }

  lemma {:induction false} FindTextSkipsBlanks(lead: string, t: string, tail: string)
    requires Blank(lead) && Trimmed(t)
    ensures FindText(lead + t + tail, t) == Some(|lead|)
  {
    var s := lead + t + tail;
    if lead == [] {
      assert s == t + tail;
    } else {
      assert s[0] == lead[0] && IsWhitespace(s[0]);
      assert s[1..] == lead[1..] + t + tail;
      FindTextSkipsBlanks(lead[1..], t, tail);
    }
  }

  lemma HeadScans(name: string, after: string)
    requires NameOk(name) && Blank(after)
    ensures Run(INIT, name + after) == INIT
    ensures FindTop(INIT, name + after, ':').None? && FindTop(INIT, name + after, ';').None?
  {
    RunBlank(INIT, after);
    RunConcat(INIT, name, after);
    FindTopConcat(INIT, name, after, ':');
    FindTopConcat(INIT, name, after, ';');
  }

  lemma ValueScans(before: string, value: string)
    requires ValueOk(value) && Blank(before)
    ensures FindTop(INIT, before + value, ';').None?
    ensures Run(INIT, before + value) == Run(INIT, value)
  {
    RunBlank(INIT, before);
    FindTopConcat(INIT, before, value, ';');
    RunConcat(INIT, before, value);
  }

  /** A colon after a closed head is the first top-level colon. */
  lemma ColonScans(head: string, rest: string)
    requires Run(INIT, head) == INIT
    requires FindTop(INIT, head, ':').None? && FindTop(INIT, head, ';').None?
    requires FindTop(INIT, rest, ';').None?
    ensures FindTop(INIT, head + ":" + rest, ':') == Some(|head|)
    ensures FindTop(INIT, head + ":" + rest, ';').None?
    ensures Run(INIT, head + ":" + rest) == Run(INIT, rest)
  {
    var tail := ":" + rest;
    assert head + ":" + rest == head + tail;
    assert tail[0] == ':' && tail[1..] == rest;
    FindTopConcat(INIT, head, tail, ':');
    FindTopConcat(INIT, head, tail, ';');
    RunConcat(INIT, head, tail);
  }

  lemma CoreScans(p: Piece)
    requires PieceOk(p)
    ensures Trimmed(Core(p))
    ensures FindTop(INIT, Core(p), ':') == Some(|p.pair.name + p.afterName|)
    ensures FindTop(INIT, Core(p), ';').None?
    ensures Run(INIT, Core(p)) == Run(INIT, p.pair.value)
  {
    HeadScans(p.pair.name, p.afterName);
    ValueScans(p.beforeValue, p.pair.value);
    ColonScans(p.pair.name + p.afterName, p.beforeValue + p.pair.value);
    CoreTrimmed(p);
  }

  lemma CoreTrimmed(p: Piece)
    requires Trimmed(p.pair.name) && Trimmed(p.pair.value)
    ensures Trimmed(Core(p))
  {
  }

  /** Scanning one printed declaration: nothing splits it before its end. */
  lemma PrintedScans(p: Piece)
    requires PieceOk(p)
    ensures FindTop(INIT, PrintOne(p), ';').None?
    ensures Closed(p.pair.value) ==> Run(INIT, PrintOne(p)) == INIT
  {
    CoreScans(p);
    WrapScans(p.beforeName, Core(p), p.afterValue);
  }

  lemma WrapScans(lead: string, core: string, tail: string)
    requires Blank(lead) && Blank(tail) && FindTop(INIT, core, ';').None?
    ensures FindTop(INIT, lead + core + tail, ';').None?
    ensures Run(INIT, core) == INIT ==> Run(INIT, lead + core + tail) == INIT
  {
    RunBlank(INIT, lead);
    RunConcat(INIT, lead, core);
    FindTopConcat(INIT, lead, core, ';');
    RunSane(INIT, lead + core);
    RunBlank(Run(INIT, lead + core), tail);
    FindTopConcat(INIT, lead + core, tail, ';');
    RunConcat(INIT, lead + core, tail);
  }

  /** One printed declaration declares itself, at the offset of its name. */
  lemma PrintedDeclares(p: Piece, start: nat)
    requires PieceOk(p)
    ensures Declare(PrintOne(p), start) == [Locate(p, start)]
  {
    hide FindTop, FindText, Run, TrimStart, TrimEnd;
    CoreScans(p);
    TrimFinds(p.beforeName, Core(p), p.afterValue);
    CoreParts(p);
    FindTextSkipsBlanks(p.beforeName, Core(p), p.afterValue);
    assert PrintOne(p)[..|p.beforeName|] == p.beforeName;
  }

  lemma CoreParts(p: Piece)
    requires Trimmed(p.pair.name) && Trimmed(p.pair.value) && BlankAround(p)
    ensures var colon := |p.pair.name + p.afterName|;
            && colon < |Core(p)|
            && Trim(Core(p)[..colon]) == p.pair.name && Trim(Core(p)[colon + 1..]) == p.pair.value
  {
    var colon := |p.pair.name + p.afterName|;
    assert Core(p)[..colon] == "" + p.pair.name + p.afterName;
    TrimFinds("", p.pair.name, p.afterName);
    assert Core(p)[colon + 1..] == p.beforeValue + p.pair.value + "";
    TrimFinds(p.beforeValue, p.pair.value, "");
  }

  /** Where the printed pieces lie; a terminated print leaves an empty last segment. */
  function Segments(pieces: seq<Piece>, terminated: bool, start: nat): seq<Segment> {
    if pieces == [] then [Segment("", start)]
    else if |pieces| == 1 && !terminated then [Segment(PrintOne(pieces[0]), start)]
    else
      [Segment(PrintOne(pieces[0]), start)]
      + Segments(pieces[1..], terminated, start + ByteLen(PrintOne(pieces[0]) + ";"))
  }

  /** A piece that ends closed is split off at the semicolon behind it. */
  lemma SplitFirst(one: string, rest: string, start: nat)
    requires FindTop(INIT, one, ';').None? && Run(INIT, one) == INIT
    ensures Split(one + ";" + rest, start) == [Segment(one, start)] + Split(rest, start + ByteLen(one + ";"))
  {
    var tail := ";" + rest;
    var all := one + ";" + rest;
    assert all == one + tail && tail[0] == ';';
    FindTopConcat(INIT, one, tail, ';');
    assert all[..|one|] == one && all[..|one| + 1] == one + ";" && all[|one| + 1..] == rest;
  }

  lemma SplitLast(one: string, start: nat)
    requires FindTop(INIT, one, ';').None?
    ensures Split(one, start) == [Segment(one, start)]
  {
  }

  lemma PrintUnfolds(pieces: seq<Piece>, terminated: bool, start: nat)
    requires |pieces| > 1 || (terminated && |pieces| == 1)
    ensures Print(pieces, terminated) == PrintOne(pieces[0]) + ";" + Print(pieces[1..], terminated)
    ensures Segments(pieces, terminated, start) == [Segment(PrintOne(pieces[0]), start)]
              + Segments(pieces[1..], terminated, start + ByteLen(PrintOne(pieces[0]) + ";"))
  {
  }

  lemma RestPrintable(pieces: seq<Piece>, terminated: bool)
    requires Printable(pieces, terminated) && pieces != []
    ensures PieceOk(pieces[0]) && Printable(pieces[1..], terminated)
    ensures |pieces| > 1 || terminated ==> Closed(pieces[0].pair.value)
  {
  }

  /** Nothing left, or one piece without a semicolon behind it. */
  lemma SplitPrintedLast(pieces: seq<Piece>, terminated: bool, start: nat)
    requires Printable(pieces, terminated)
    requires pieces == [] || (|pieces| == 1 && !terminated)
    ensures Split(Print(pieces, terminated), start) == Segments(pieces, terminated, start)
  {
    hide Split, Run, ByteLen, PrintOne, PieceOk;
    if pieces == [] {
      SplitLast("", start);
    } else {
      RestPrintable(pieces, terminated);
      PrintedScans(pieces[0]);
      SplitLast(PrintOne(pieces[0]), start);
    }
  }

  lemma {:induction false} SplitPrinted(pieces: seq<Piece>, terminated: bool, start: nat)
    requires Printable(pieces, terminated)
    ensures Split(Print(pieces, terminated), start) == Segments(pieces, terminated, start)
    decreases |pieces|
  {
    hide Split, FindTop, Run, ByteLen, PrintOne, Printable, PieceOk, Print, Segments;
    if pieces == [] || (|pieces| == 1 && !terminated) {
      SplitPrintedLast(pieces, terminated, start);
    } else {
      var one, rest := PrintOne(pieces[0]), Print(pieces[1..], terminated);
      RestPrintable(pieces, terminated);
      PrintedScans(pieces[0]);
      PrintUnfolds(pieces, terminated, start);
      SplitFirst(one, rest, start);
      SplitPrinted(pieces[1..], terminated, start + ByteLen(one + ";"));
    }
  }

  lemma {:induction false} DeclareSegments(pieces: seq<Piece>, terminated: bool, start: nat)
    requires Printable(pieces, terminated)
    ensures DeclareAll(Segments(pieces, terminated, start)) == Located(pieces, start)
    decreases |pieces|
  {
    if pieces == [] {
      assert Trim("") == "";
    } else {
      PrintedDeclares(pieces[0], start);
      if |pieces| > 1 || terminated {
        assert Printable(pieces[1..], terminated);
        DeclareSegments(pieces[1..], terminated, start + ByteLen(PrintOne(pieces[0]) + ";"));
      }
    }
  }

  /**
   Parsing undoes printing: whatever blanks surround the parts, the parser returns the printed
   pairs in order, each offset pointing at its name.
   */
  lemma ParsePrinted(pieces: seq<Piece>, terminated: bool)
    requires Printable(pieces, terminated)
    ensures Parse(Print(pieces, terminated)) == Located(pieces, 0)
  {
    SplitPrinted(pieces, terminated, 0);
    DeclareSegments(pieces, terminated, 0);
  }

  // ---------------------------------------------------------------------------------------------
  // What the parser can return
  // ---------------------------------------------------------------------------------------------

  function PairsOf(decls: seq<CssDeclaration>): seq<Pair> {
    Map((d: CssDeclaration) => Pair(d.name, d.value), decls)
  }

  /** `name: value` with no other blanks. */
  function Plain(p: Pair): Piece {
    Piece(p, "", "", " ", "")
  }

  /** Trimming keeps a scan free of a mark, and keeps a closed scan closed. */
  lemma TrimScans(s: string, mark: char)
    ensures FindTop(INIT, s, mark).None? ==> FindTop(INIT, Trim(s), mark).None?
    ensures Run(INIT, s) == INIT ==> Run(INIT, Trim(s)) == INIT
  {
    var lead, tail := TrimSplits(s);
    var t := Trim(s);
    assert s == lead + (t + tail);
    RunBlank(INIT, lead);
    RunConcat(INIT, lead, t + tail);
    RunConcat(INIT, t, tail);
    RunSane(INIT, t);
    RunBlank(Run(INIT, t), tail);
    if FindTop(INIT, s, mark).None? {
      FindTopPrefix(INIT, lead, t + tail, mark);
      FindTopPrefix(INIT, t, tail, mark);
    }
  }

  /** The two sides of the first top-level colon. */
  lemma ColonSides(t: string, colon: nat)
    requires FindTop(INIT, t, ':') == Some(colon) && FindTop(INIT, t, ';').None?
    ensures colon < |t|
    ensures Run(INIT, t[..colon]) == INIT
    ensures FindTop(INIT, t[..colon], ':').None? && FindTop(INIT, t[..colon], ';').None?
    ensures FindTop(INIT, t[colon + 1..], ';').None?
    ensures Run(INIT, t) == Run(INIT, t[colon + 1..])
  {
    hide FindTop, Run;
    FindTopInRange(INIT, t, ':');
    var a, b := t[..colon], t[colon + 1..];
    RunSane(INIT, a);
    var tail := ":" + b;
    assert t == a + tail && tail[0] == ':' && tail[1..] == b;
    FindTopPrefix(INIT, a, tail, ';');
    RunConcat(INIT, a, tail);
    ColonIsPassed(b);
  }

  lemma ColonIsPassed(b: string)
    ensures Run(INIT, ":" + b) == Run(INIT, b)
    ensures FindTop(INIT, ":" + b, ';').None? ==> FindTop(INIT, b, ';').None?
  {
    assert (":" + b)[1..] == b;
  }

  /** The trimmed sides are a well-formed name and value, and the value is closed if the text is. */
  lemma ColonParts(t: string, colon: nat)
    requires FindTop(INIT, t, ':') == Some(colon) && FindTop(INIT, t, ';').None?
    ensures colon < |t|
    ensures Trim(t[..colon]) != [] ==> NameOk(Trim(t[..colon]))
    ensures Trim(t[colon + 1..]) != [] ==> ValueOk(Trim(t[colon + 1..]))
    ensures Run(INIT, t) == INIT ==> Closed(Trim(t[colon + 1..]))
  {
    ColonSides(t, colon);
    TrimScans(t[..colon], ':');
    TrimScans(t[..colon], ';');
    TrimScans(t[colon + 1..], ';');
    var _, _ := TrimSplits(t[..colon]);
    var _, _ := TrimSplits(t[colon + 1..]);
  }

  /** A segment without top-level semicolons declares a well-formed pair, closed if it is closed. */
  lemma DeclaredPair(raw: string, start: nat)
    requires FindTop(INIT, raw, ';').None?
    ensures |Declare(raw, start)| <= 1
    ensures forall d :: d in Declare(raw, start) ==>
              && PairOk(Pair(d.name, d.value))
              && (Run(INIT, raw) == INIT ==> Closed(d.value))
  {
    TrimScans(raw, ';');
    var t := Trim(raw);
    if t != [] && FindTop(INIT, t, ':').Some? {
      ColonParts(t, FindTop(INIT, t, ':').value);
    }
  }

  ghost predicate SegmentsOk(segments: seq<Segment>) {
    && (forall i :: 0 <= i < |segments| ==> FindTop(INIT, segments[i].raw, ';').None?)
    && (forall i :: 0 <= i < |segments| - 1 ==> Run(INIT, segments[i].raw) == INIT)
  }

  lemma SegmentsOkCons(first: Segment, rest: seq<Segment>)
    requires FindTop(INIT, first.raw, ';').None? && Run(INIT, first.raw) == INIT && SegmentsOk(rest)
    ensures SegmentsOk([first] + rest)
  {
  }

  lemma {:induction false} SplitSegmentsOk(block: string, start: nat)
    ensures SegmentsOk(Split(block, start))
    decreases |block|
  {
    if FindTop(INIT, block, ';').None? {
      SplitLast(block, start);
    } else {
      var k := FindTop(INIT, block, ';').value;
      FindTopInRange(INIT, block, ';');
      RunSane(INIT, block[..k]);
      SplitUnfolds(block, start, k);
      SplitSegmentsOk(block[k + 1..], start + ByteLen(block[..k + 1]));
      SegmentsOkCons(Segment(block[..k], start), Split(block[k + 1..], start + ByteLen(block[..k + 1])));
    }
  }

  lemma {:induction false} DeclaredWellFormed(segments: seq<Segment>)
    requires SegmentsOk(segments)
    ensures WellFormed(PairsOf(DeclareAll(segments)), false)
  {
    if segments != [] {
      var first, rest := Declare(segments[0].raw, segments[0].start), DeclareAll(segments[1..]);
      DeclaredPair(segments[0].raw, segments[0].start);
      DeclaredWellFormed(segments[1..]);
      FirstPairs(first, segments);
      WellFormedJoin(PairsOf(first), PairsOf(rest), |segments| == 1);
      PairsConcat(first, rest);
    }
  }

  lemma FirstPairs(first: seq<CssDeclaration>, segments: seq<Segment>)
    requires SegmentsOk(segments) && segments != []
    requires forall d :: d in first ==>
               && PairOk(Pair(d.name, d.value))
               && (Run(INIT, segments[0].raw) == INIT ==> Closed(d.value))
    ensures forall p :: p in PairsOf(first) ==> PairOk(p) && (|segments| > 1 ==> Closed(p.value))
  {
  }

  lemma PairsConcat(a: seq<CssDeclaration>, b: seq<CssDeclaration>)
    ensures PairsOf(a + b) == PairsOf(a) + PairsOf(b)
  {
  }

  lemma WellFormedJoin(first: seq<Pair>, rest: seq<Pair>, last: bool)
    requires |first| <= 1 && (forall p :: p in first ==> PairOk(p) && (!last ==> Closed(p.value)))
    requires WellFormed(rest, false) && (last ==> rest == [])
    ensures WellFormed(first + rest, false)
  {
  }

  /** Whatever the block, the parser returns a well-formed list. */
  lemma ParsedIsWellFormed(block: string)
    ensures WellFormed(PairsOf(Parse(block)), false)
  {
    SplitSegmentsOk(block, 0);
    DeclaredWellFormed(Split(block, 0));
  }

  lemma {:induction false} LocatedPairs(pieces: seq<Piece>, start: nat)
    ensures PairsOf(Located(pieces, start)) == Map((p: Piece) => p.pair, pieces)
    decreases |pieces|
  {
    if pieces != [] {
      var rest := Located(pieces[1..], start + ByteLen(PrintOne(pieces[0]) + ";"));
      LocatedPairs(pieces[1..], start + ByteLen(PrintOne(pieces[0]) + ";"));
      PairsConcat([Locate(pieces[0], start)], rest);
      assert PairsOf([Locate(pieces[0], start)]) == [pieces[0].pair];
    }
  }

  lemma PlainPrintable(pairs: seq<Pair>)
    requires WellFormed(pairs, false)
    ensures Printable(Map(Plain, pairs), false)
  {
    var pieces := Map(Plain, pairs);
    forall i | 0 <= i < |pieces|
      ensures PieceOk(pieces[i])
    {
      assert pieces[i] == Plain(pairs[i]);
      assert PairOk(pairs[i]);
    }
    forall i | 0 <= i < |pieces| - 1
      ensures Closed(pieces[i].pair.value)
    {
      assert pieces[i] == Plain(pairs[i]);
    }
  }

  /** A well-formed list is a parse result: of its own plain print. */
  lemma WellFormedIsParsed(pairs: seq<Pair>)
    requires WellFormed(pairs, false)
    ensures PairsOf(Parse(Print(Map(Plain, pairs), false))) == pairs
  {
    var pieces := Map(Plain, pairs);
    PlainPrintable(pairs);
    ParsePrinted(pieces, false);
    LocatedPairs(pieces, 0);
    PlainHasPairs(pairs);
  }

  lemma PlainHasPairs(pairs: seq<Pair>)
    ensures Map((p: Piece) => p.pair, Map(Plain, pairs)) == pairs
  {
    var pieces := Map(Plain, pairs);
    var back := Map((p: Piece) => p.pair, pieces);
    forall i | 0 <= i < |pairs|
      ensures back[i] == pairs[i]
    {
      assert pieces[i] == Plain(pairs[i]);
      assert back[i] == pieces[i].pair;
    }
  }

  /** The parse results are exactly the well-formed lists. */
  lemma ParserImage(pairs: seq<Pair>)
    ensures WellFormed(pairs, false) <==> exists block :: PairsOf(Parse(block)) == pairs
  {
    if WellFormed(pairs, false) {
      WellFormedIsParsed(pairs);
    }
    forall block | PairsOf(Parse(block)) == pairs
      ensures WellFormed(pairs, false)
    {
      ParsedIsWellFormed(block);
    }
  }

  /** Printing a parse result and parsing again changes nothing, for every block. */
  lemma ReparseIsStable(block: string)
    ensures PairsOf(Parse(Print(Map(Plain, PairsOf(Parse(block))), false))) == PairsOf(Parse(block))
  {
    ParsedIsWellFormed(block);
    WellFormedIsParsed(PairsOf(Parse(block)));
  }

  // ---------------------------------------------------------------------------------------------
  // Offsets in arbitrary blocks
  // ---------------------------------------------------------------------------------------------

  ghost predicate StandsAt(full: string, i: int, start: nat, text: string) {
    0 <= i <= |full| && ByteLen(full[..i]) == start && text <= full[i..]
  }

  /** `text` starts at byte offset `start` of `full`. */
  ghost predicate LiesAt(full: string, start: nat, text: string) {
    exists i :: StandsAt(full, i, start, text)
  }

  lemma LiesDeeper(full: string, start: nat, text: string, k: nat, part: string)
    requires LiesAt(full, start, text) && k <= |text| && part <= text[k..]
    ensures LiesAt(full, start + ByteLen(text[..k]), part)
  {
    var i :| StandsAt(full, i, start, text);
    assert text == full[i..i + |text|];
    ByteLenConcat(full[..i], text[..k]);
    assert full[..i + k] == full[..i] + text[..k];
    assert text[k..] <= full[i + k..];
    PrefixTrans(part, text[k..], full[i + k..]);
    assert StandsAt(full, i + k, start + ByteLen(text[..k]), part);
  }

  lemma PrefixTrans(a: string, b: string, c: string)
    requires a <= b && b <= c
    ensures a <= c
  {
  }

  lemma LeftSideLies(full: string, block: string, start: nat, k: nat)
    requires LiesAt(full, start, block) && k <= |block|
    ensures LiesAt(full, start, block[..k])
  {
    assert block[0..] == block && block[..0] == "";
    LiesDeeper(full, start, block, 0, block[..k]);
  }

  lemma RightSideLies(full: string, block: string, start: nat, k: nat)
    requires LiesAt(full, start, block) && k <= |block|
    ensures LiesAt(full, start + ByteLen(block[..k]), block[k..])
  {
    LiesDeeper(full, start, block, k, block[k..]);
  }

  ghost predicate AllLie(full: string, segments: seq<Segment>) {
    forall i :: 0 <= i < |segments| ==> LiesAt(full, segments[i].start, segments[i].raw)
  }

  lemma AllLieCons(full: string, first: Segment, rest: seq<Segment>)
    requires LiesAt(full, first.start, first.raw) && AllLie(full, rest)
    ensures AllLie(full, [first] + rest)
  {
  }

  lemma SplitUnfolds(block: string, start: nat, k: nat)
    requires FindTop(INIT, block, ';') == Some(k)
    ensures k < |block|
    ensures Split(block, start)
            == [Segment(block[..k], start)] + Split(block[k + 1..], start + ByteLen(block[..k + 1]))
  {
  }

  lemma {:induction false} SegmentsLie(full: string, block: string, start: nat)
    requires LiesAt(full, start, block)
    ensures AllLie(full, Split(block, start))
    decreases |block|
  {
    if FindTop(INIT, block, ';').None? {
      SplitLast(block, start);
      AllLieCons(full, Segment(block, start), []);
    } else {
      var k := FindTop(INIT, block, ';').value;
      SplitUnfolds(block, start, k);
      LeftSideLies(full, block, start, k);
      RightSideLies(full, block, start, k + 1);
      SegmentsLie(full, block[k + 1..], start + ByteLen(block[..k + 1]));
      AllLieCons(full, Segment(block[..k], start), Split(block[k + 1..], start + ByteLen(block[..k + 1])));
    }
  }

  /** What the trimmed text starts with stands where the trimmed text was found. */
  lemma TrimmedLies(full: string, raw: string, start: nat, lead: string, t: string, tail: string, name: string)
    requires LiesAt(full, start, raw) && raw == lead + t + tail && Blank(lead) && Trimmed(t) && name <= t
    ensures FindText(raw, t) == Some(|lead|)
    ensures LiesAt(full, start + ByteLen(raw[..|lead|]), name)
  {
    hide FindText, ByteLen, LiesAt;
    FindTextSkipsBlanks(lead, t, tail);
    assert raw[|lead|..] == t + tail;
    PrefixTrans(name, t, raw[|lead|..]);
    LiesDeeper(full, start, raw, |lead|, name);
  }

  /** The name starts the trimmed text. */
  lemma NameStarts(t: string, colon: nat)
    requires Trimmed(t) && colon <= |t| && Trim(t[..colon]) != []
    ensures Trim(t[..colon]) <= t
  {
    TrimIsPrefix(t[..colon]);
    PrefixTrans(Trim(t[..colon]), t[..colon], t);
  }

  lemma DeclaredLies(full: string, raw: string, start: nat)
    requires LiesAt(full, start, raw)
    ensures Declare(raw, start) == []
      || exists d :: Declare(raw, start) == [d] && LiesAt(full, d.start, d.name)
  {
    hide FindText, FindTop, ByteLen, LiesAt, TrimStart, TrimEnd;
    if Declare(raw, start) != [] {
      var d := Declare(raw, start)[0];
      var t := Trim(raw);
      var lead, tail := TrimSplits(raw);
      NameStarts(t, FindTop(INIT, t, ':').value);
      TrimmedLies(full, raw, start, lead, t, tail, d.name);
      assert Declare(raw, start) == [d];
    }
  }

  lemma TrimIsPrefix(a: string)
    requires a != [] && !IsWhitespace(a[0])
    ensures Trim(a) <= a
  {
    var tail := TrimEndSplits(a);
    assert TrimStart(a) == a;
  }

  lemma {:induction false} AllDeclaredLie(full: string, segments: seq<Segment>)
    requires AllLie(full, segments)
    ensures forall d :: d in DeclareAll(segments) ==> LiesAt(full, d.start, d.name)
  {
    if segments != [] {
      DeclaredLies(full, segments[0].raw, segments[0].start);
      AllDeclaredLie(full, segments[1..]);
    }
  }

  /** In every block, each reported byte offset is where the declaration's name stands. */
  lemma OffsetsPointAtNames(block: string)
    ensures forall d :: d in Parse(block) ==> LiesAt(block, d.start, d.name)
  {
    assert block[..0] == "" && block <= block[0..];
    assert StandsAt(block, 0, 0, block);
    SegmentsLie(block, block, 0);
    AllDeclaredLie(block, Split(block, 0));
  }

  // ---------------------------------------------------------------------------------------------
  // The loops
  // ---------------------------------------------------------------------------------------------

  lemma ScanStep(m: Mode, a: string, c: char, mark: char)
    requires FindTop(INIT, a, mark).None? && m == Run(INIT, a)
    ensures Run(INIT, a + [c]) == Advance(m, c)
    ensures FindTop(INIT, a + [c], mark).Some? <==> c == mark && TopLevel(m)
  {
    RunConcat(INIT, a, [c]);
    FindTopConcat(INIT, a, [c], mark);
    assert Run(m, [c]) == Run(Advance(m, c), [c][1..]);
  }

  /** Reads one character the way both loops do. */
  method Step(quote: Option<char>, escaped: bool, paren: nat, bracket: nat, ch: char)
    returns (quote': Option<char>, escaped': bool, paren': nat, bracket': nat)
    ensures Mode(quote', escaped', paren', bracket') == Advance(Mode(quote, escaped, paren, bracket), ch)
  {
    quote', escaped', paren', bracket' := quote, escaped, paren, bracket;
    if quote.Some? {
      if escaped {
        escaped' := false;
      } else if ch == '\\' {
        escaped' := true;
      } else if ch == quote.value {
        quote' := None;
      }
      return;
    }
    match ch {
      case '"' => quote' := Some(ch);
      case '\'' => quote' := Some(ch);
      case '(' => paren' := paren + 1;
      case ')' => paren' := if paren == 0 then 0 else paren - 1;
      case '[' => bracket' := bracket + 1;
      case ']' => bracket' := if bracket == 0 then 0 else bracket - 1;
      case _ =>
    }
  }

  method FindTopLevelColon(input: string) returns (index: Option<nat>)
    ensures index == FindTop(INIT, input, ':')
  {
    var paren, bracket := 0, 0;
    var quote, escaped := None, false;
    var i := 0;
    while i < |input|
      invariant i <= |input|
      invariant Mode(quote, escaped, paren, bracket) == Run(INIT, input[..i])
      invariant FindTop(INIT, input[..i], ':').None?
    {
      ghost var m := Mode(quote, escaped, paren, bracket);
      ScanStep(m, input[..i], input[i], ':');
      assert input[..i] + [input[i]] == input[..i + 1];
      if quote.None? && input[i] == ':' && paren == 0 && bracket == 0 {
        assert input == input[..i] + input[i..];
        FindTopConcat(INIT, input[..i], input[i..], ':');
        return Some(i);
      }
      quote, escaped, paren, bracket := Step(quote, escaped, paren, bracket, input[i]);
      i := i + 1;
    }
    assert input[..i] == input;
    return None;
  }

  method PushDeclaration(declarations: seq<CssDeclaration>, raw: string, rawStart: nat)
    returns (pushed: seq<CssDeclaration>)
    ensures pushed == declarations + Declare(raw, rawStart)
  {
    var trimmed := Trim(raw);
    if trimmed == [] {
      return declarations;
    }
    var colon := FindTopLevelColon(trimmed);
    if colon.None? {
      return declarations;
    }
    var name := Trim(trimmed[..colon.value]);
    var value := Trim(trimmed[colon.value + 1..]);
    if name == [] || value == [] {
      return declarations;
    }
    var lead := FindText(raw, trimmed);
    var leadingTrim := if lead.Some? then ByteLen(raw[..lead.value]) else 0;
    pushed := declarations + [CssDeclaration(name, value, rawStart + leadingTrim)];
  }

  /** The loop's view of the text read since the last cut. */
  ghost predicate Scanned(one: string, m: Mode, bytes: nat) {
    m == Run(INIT, one) && FindTop(INIT, one, ';').None? && bytes == ByteLen(one)
  }

  lemma ReadAt(block: string, from: nat, i: nat, m: Mode, bytes: nat)
    requires from <= i < |block| && Scanned(block[from..i], m, bytes) && !(block[i] == ';' && TopLevel(m))
    ensures Scanned(block[from..i + 1], Advance(m, block[i]), bytes + Utf8Len(block[i]))
  {
    ScanStep(m, block[from..i], block[i], ';');
    ByteLenConcat(block[from..i], [block[i]]);
    assert block[from..i + 1] == block[from..i] + [block[i]];
  }

  lemma NothingScanned()
    ensures Scanned("", INIT, 0)
  {
  }

  lemma CutCloses(one: string, m: Mode, bytes: nat)
    requires Scanned(one, m, bytes) && TopLevel(m)
    ensures m == INIT && ByteLen(one + ";") == bytes + Utf8Len(';')
  {
    RunSane(INIT, one);
    ByteLenConcat(one, ";");
  }

  lemma CutAt(block: string, from: nat, i: nat, start: nat, m: Mode, bytes: nat,
              cut: seq<Segment>, all: seq<Segment>)
    requires from <= i < |block| && block[i] == ';' && TopLevel(m) && Scanned(block[from..i], m, bytes)
    requires cut + Split(block[from..], start) == all
    ensures Scanned(block[i + 1..i + 1], m, 0)
    ensures cut + [Segment(block[from..i], start)] + Split(block[i + 1..], start + bytes + 1) == all
  {
    hide Split;
    var one, after := block[from..i], block[i + 1..];
    CutCloses(one, m, bytes);
    assert block[from..] == one + ";" + after;
    SplitFirst(one, after, start);
    assert block[i + 1..i + 1] == "";
  }

  lemma {:induction false} DeclareAllSnoc(cut: seq<Segment>, last: Segment)
    ensures DeclareAll(cut + [last]) == DeclareAll(cut) + Declare(last.raw, last.start)
  {
    if cut == [] {
      assert cut + [last] == [last];
      assert DeclareAll([last]) == Declare(last.raw, last.start) + DeclareAll([last][1..]);
    } else {
      assert (cut + [last])[1..] == cut[1..] + [last];
      DeclareAllSnoc(cut[1..], last);
    }
  }

  /** The parser: one pass over the characters, cutting at top-level semicolons. */
  method ParseCssDeclarationsWithOffsets(block: string) returns (declarations: seq<CssDeclaration>)
    ensures declarations == Parse(block)
  {
    hide Split, Declare, Run, FindTop, ByteLen;
    NothingScanned();
    declarations := [];
    var from: nat, start: nat := 0, 0;  // the same place, in characters and in bytes
    var paren, bracket := 0, 0;
    var quote, escaped := None, false;
    var i: nat, index: nat := 0, 0;     // likewise
    ghost var cut: seq<Segment> := [];
    assert block[0..] == block && block[0..0] == "";
    while i < |block|
      invariant from <= i <= |block| && start <= index
      invariant Scanned(block[from..i], Mode(quote, escaped, paren, bracket), index - start)
      invariant cut + Split(block[from..], start) == Split(block, 0)
      invariant declarations == DeclareAll(cut)
    {
      var ch := block[i];
      ghost var m := Mode(quote, escaped, paren, bracket);
      if quote.None? && ch == ';' && paren == 0 && bracket == 0 {
        CutAt(block, from, i, start, m, index - start, cut, Split(block, 0));
        DeclareAllSnoc(cut, Segment(block[from..i], start));
        cut := cut + [Segment(block[from..i], start)];
        declarations := PushDeclaration(declarations, block[from..i], start);
        from, start := i + 1, index + Utf8Len(ch);
      } else {
        ReadAt(block, from, i, m, index - start);
        quote, escaped, paren, bracket := Step(quote, escaped, paren, bracket, ch);
      }
      index := index + Utf8Len(ch);
      i := i + 1;
    }
    assert block[from..i] == block[from..];
    SplitLast(block[from..], start);
    DeclareAllSnoc(cut, Segment(block[from..], start));
    declarations := PushDeclaration(declarations, block[from..], start);
  }
}
