/**
 Declaration text as its author writes it: plain characters, quoted strings with escapes, and nested
 groups. The scanner's top level is exactly the top level of this grammar, and declarations written
 in it parse to themselves. The grammar does not mention the scanner's states.
 */
module CssUnits {
  import opened Support
  import opened CssText
  import opened CssDeclarations

  datatype QuotedChar = Raw(c: char) | Escaped(c: char)

  datatype Unit =
    | Letter(c: char)
    | Quoted(mark: char, inside: seq<QuotedChar>)
    | Group(square: bool, members: seq<Unit>)

  predicate IsQuoteMark(c: char) {
    c == '"' || c == '\''
  }

  predicate IsGroupMark(c: char) {
    c == '(' || c == ')' || c == '[' || c == ']'
  }

  /** An escaped character may be anything; the others are neither the mark nor a backslash. */
  ghost predicate QuotedOk(mark: char, inside: seq<QuotedChar>) {
    forall i :: 0 <= i < |inside| && inside[i].Raw? ==> inside[i].c != mark && inside[i].c != '\\'
  }

  ghost predicate UnitsOk(units: seq<Unit>)
    decreases units
  {
    forall i :: 0 <= i < |units| ==>
      match units[i]
      case Letter(c) => !IsQuoteMark(c) && !IsGroupMark(c)
      case Quoted(mark, inside) => IsQuoteMark(mark) && QuotedOk(mark, inside)
      case Group(_, inside) => UnitsOk(inside)
  }

  function QuotedText(inside: seq<QuotedChar>): string {
    if inside == [] then ""
    else (if inside[0].Raw? then [inside[0].c] else ['\\', inside[0].c]) + QuotedText(inside[1..])
  }

  function Text(units: seq<Unit>): string
    decreases units
  {
    if units == [] then ""
    else
      (match units[0]
       case Letter(c) => [c]
       case Quoted(mark, inside) => [mark] + QuotedText(inside) + [mark]
       case Group(square, inside) => (if square then "[" else "(") + Text(inside) + if square then "]" else ")")
      + Text(units[1..])
  }

  /** Where a letter first stands outside all quotes and groups. */
  function FirstLetter(units: seq<Unit>, c: char): Option<nat> {
    if units == [] then None
    else if units[0] == Letter(c) then Some(0)
    else
      match FirstLetter(units[1..], c)
      case None => None
      case Some(i) => Some(|Text(units[..1])| + i)
  }

  // ---------------------------------------------------------------------------------------------
  // The scanner on such text
  // ---------------------------------------------------------------------------------------------

  /** Not inside a quote. */
  predicate Unquoted(m: Mode) {
    m.quote.None? && !m.escaped
  }

  predicate IsMark(c: char) {
    c == ';' || c == ':'
  }

  lemma ReadOne(m: Mode, c: char, mark: char)
    ensures Run(m, [c]) == Advance(m, c)
    ensures FindTop(m, [c], mark) == if c == mark && TopLevel(m) then Some(0) else None
  {
    assert [c][1..] == [];
  }

  lemma {:induction false} QuotedRuns(m: Mode, inside: seq<QuotedChar>, mark: char)
    requires m.quote.Some? && !m.escaped && IsQuoteMark(m.quote.value) && QuotedOk(m.quote.value, inside)
    ensures Run(m, QuotedText(inside)) == m && FindTop(m, QuotedText(inside), mark).None?
  {
    if inside != [] {
      var c, rest := inside[0].c, QuotedText(inside[1..]);
      QuotedRuns(m, inside[1..], mark);
      if inside[0].Raw? {
        ReadOne(m, c, mark);
        RunConcat(m, [c], rest);
        FindTopConcat(m, [c], rest, mark);
      } else {
        var escaping := m.(escaped := true);
        ReadOne(m, '\\', mark);
        ReadOne(escaping, c, mark);
        assert ['\\', c] == ['\\'] + [c];
        RunConcat(m, ['\\'], [c]);
        FindTopConcat(m, ['\\'], [c], mark);
        RunConcat(m, ['\\', c], rest);
        FindTopConcat(m, ['\\', c], rest, mark);
      }
    }
  }

  /** A quoted string ends where it began, and hides every mark in it, escaped quotes included. */
  lemma QuoteHides(m: Mode, quote: char, inside: seq<QuotedChar>, mark: char)
    requires Unquoted(m) && IsQuoteMark(quote) && QuotedOk(quote, inside) && IsMark(mark)
    ensures var s := [quote] + QuotedText(inside) + [quote];
            Run(m, s) == m && FindTop(m, s, mark).None?
  {
    var open, t := m.(quote := Some(quote)), QuotedText(inside);
    ReadOne(m, quote, mark);
    ReadOne(open, quote, mark);
    QuotedRuns(open, inside, mark);
    RunConcat(m, [quote], t);
    FindTopConcat(m, [quote], t, mark);
    RunConcat(m, [quote] + t, [quote]);
    FindTopConcat(m, [quote] + t, [quote], mark);
  }

  /** An unfinished string hides everything up to the end. */
  lemma OpenQuoteHides(m: Mode, quote: char, inside: seq<QuotedChar>, mark: char)
    requires Unquoted(m) && IsQuoteMark(quote) && QuotedOk(quote, inside) && IsMark(mark)
    ensures FindTop(m, [quote] + QuotedText(inside), mark).None?
  {
    ReadOne(m, quote, mark);
    QuotedRuns(m.(quote := Some(quote)), inside, mark);
    FindTopConcat(m, [quote], QuotedText(inside), mark);
  }

  /** A closing mark without its opening mark changes nothing. */
  lemma StrayCloserIsInert(m: Mode, mark: char)
    requires Unquoted(m) && IsMark(mark)
    ensures m.paren == 0 ==> Run(m, ")") == m && FindTop(m, ")", mark).None?
    ensures m.bracket == 0 ==> Run(m, "]") == m && FindTop(m, "]", mark).None?
  {
    ReadOne(m, ')', mark);
    ReadOne(m, ']', mark);
  }

  /**
   Text in the grammar ends in the state it began in. What the scanner finds in it is the first
   mark outside all quotes and groups, and nothing inside a group.
   */
  lemma {:induction false} UnitsScan(m: Mode, units: seq<Unit>, mark: char)
    requires Unquoted(m) && UnitsOk(units) && IsMark(mark)
    ensures Run(m, Text(units)) == m
    ensures FindTop(m, Text(units), mark) == if TopLevel(m) then FirstLetter(units, mark) else None
    decreases units, 1
  {
    hide Run, FindTop, Text, UnitsOk;
    if units == [] {
      NothingScans(m, mark);
    } else {
      var rest := Text(units[1..]);
      RestOk(units);
      UnitsScan(m, units[1..], mark);
      FirstUnit(m, units, mark);
      var first := Text(units[..1]);
      RunConcat(m, first, rest);
      if FindTop(m, first, mark).None? {
        FindTopConcat(m, first, rest, mark);
      } else {
        assert first == [mark];
        MarkIsFound(m, mark, rest);
      }
    }
  }

  lemma NothingScans(m: Mode, mark: char)
    ensures Run(m, Text([])) == m && FindTop(m, Text([]), mark).None?
  {
  }

  lemma MarkIsFound(m: Mode, mark: char, rest: string)
    requires TopLevel(m)
    ensures FindTop(m, [mark] + rest, mark) == Some(0)
  {
  }

  lemma RestOk(units: seq<Unit>)
    requires UnitsOk(units) && units != []
    ensures UnitsOk(units[1..])
  {
    assert forall i :: 0 <= i < |units[1..]| ==> units[1..][i] == units[i + 1];
  }

  lemma FirstUnit(m: Mode, units: seq<Unit>, mark: char)
    requires Unquoted(m) && UnitsOk(units) && units != [] && IsMark(mark)
    ensures Run(m, Text(units[..1])) == m
    ensures FindTop(m, Text(units[..1]), mark) == if units[0] == Letter(mark) && TopLevel(m) then Some(0) else None
    ensures Text(units) == Text(units[..1]) + Text(units[1..])
    ensures units[0].Letter? ==> Text(units[..1]) == [units[0].c]
    decreases units, 0
  {
    assert units[..1][1..] == [];
    match units[0]
    case Letter(c) =>
      ReadOne(m, c, mark);
      assert Text(units[..1]) == [c];
    case Quoted(quote, inside) =>
      QuoteHides(m, quote, inside, mark);
      assert Text(units[..1]) == [quote] + QuotedText(inside) + [quote];
    case Group(square, members) =>
      GroupHides(m, square, members, mark);
      assert Text(units[..1])
          == (if square then "[" else "(") + Text(members) + if square then "]" else ")";
  }

  /** A group ends where it began, and hides every mark in it. */
  lemma GroupHides(m: Mode, square: bool, inside: seq<Unit>, mark: char)
    requires Unquoted(m) && UnitsOk(inside) && IsMark(mark)
    ensures var s := (if square then "[" else "(") + Text(inside) + if square then "]" else ")";
            Run(m, s) == m && FindTop(m, s, mark).None?
    decreases inside, 2
  {
    hide Run, FindTop, Text, UnitsOk;
    var open, close := if square then '[' else '(', if square then ']' else ')';
    var within := if square then m.(bracket := m.bracket + 1) else m.(paren := m.paren + 1);
    ReadOne(m, open, mark);
    ReadOne(within, close, mark);
    UnitsScan(within, inside, mark);
    RunConcat(m, [open], Text(inside));
    FindTopConcat(m, [open], Text(inside), mark);
    RunConcat(m, [open] + Text(inside), [close]);
    FindTopConcat(m, [open] + Text(inside), [close], mark);
  }

  // ---------------------------------------------------------------------------------------------
  // Declarations
  // ---------------------------------------------------------------------------------------------

  datatype Written = Written(name: seq<Unit>, value: seq<Unit>)

  /** No blanks at the ends; no colon or semicolon in the name and no semicolon in the value, outside groups. */
  ghost predicate WrittenOk(d: Written) {
    && UnitsOk(d.name) && UnitsOk(d.value) && Trimmed(Text(d.name)) && Trimmed(Text(d.value))
    && Letter(':') !in d.name && Letter(';') !in d.name && Letter(';') !in d.value
  }

  function Source(decls: seq<Written>): string {
    if decls == [] then ""
    else Text(decls[0].name) + ": " + Text(decls[0].value) + ";" + Source(decls[1..])
  }

  function Read(decls: seq<Written>, start: nat): seq<CssDeclaration> {
    if decls == [] then []
    else
      var name, value := Text(decls[0].name), Text(decls[0].value);
      [CssDeclaration(name, value, start)] + Read(decls[1..], start + ByteLen(name) + ByteLen(value) + 3)
  }

  lemma {:induction false} NoSuchLetter(units: seq<Unit>, c: char)
    requires Letter(c) !in units
    ensures FirstLetter(units, c).None?
  {
    if units != [] {
      assert units[0] in units;
      NoSuchLetter(units[1..], c);
    }
  }

  lemma WrittenIsPair(d: Written)
    requires WrittenOk(d)
    ensures PairOk(Pair(Text(d.name), Text(d.value))) && Closed(Text(d.value))
  {
    UnitsScan(INIT, d.name, ':');
    UnitsScan(INIT, d.name, ';');
    UnitsScan(INIT, d.value, ';');
    NoSuchLetter(d.name, ':');
    NoSuchLetter(d.name, ';');
    NoSuchLetter(d.value, ';');
  }

  function AsPiece(d: Written): Piece {
    Piece(Pair(Text(d.name), Text(d.value)), "", "", " ", "")
  }

  lemma PieceText(d: Written)
    ensures PrintOne(AsPiece(d)) == Text(d.name) + ": " + Text(d.value)
    ensures ByteLen(PrintOne(AsPiece(d)) + ";") == ByteLen(Text(d.name)) + ByteLen(Text(d.value)) + 3
  {
    hide Text;
    var name, value := Text(d.name), Text(d.value);
    var one := PrintOne(AsPiece(d));
    PlainPrint(name, value);
    assert one == name + ": " + value;
    MarksAreNarrow();
    hide ByteLen, PrintOne, AsPiece;
    ByteLenConcat(one, ";");
    ByteLenConcat(name + ": ", value);
    ByteLenConcat(name, ": ");
  }

  lemma NoSource(start: nat)
    ensures Map(AsPiece, []) == [] && Source([]) == Print([], true) && Read([], start) == Located([], start)
  {
  }

  lemma FirstPiece(decls: seq<Written>)
    requires decls != []
    ensures Map(AsPiece, decls) != [] && Map(AsPiece, decls)[0] == AsPiece(decls[0])
    ensures Map(AsPiece, decls)[1..] == Map(AsPiece, decls[1..])
  {
  }

  lemma FirstSource(decls: seq<Written>, start: nat)
    requires decls != []
    ensures Source(decls) == Text(decls[0].name) + ": " + Text(decls[0].value) + ";" + Source(decls[1..])
    ensures var name, value := Text(decls[0].name), Text(decls[0].value);
            Read(decls, start)
            == [CssDeclaration(name, value, start)] + Read(decls[1..], start + ByteLen(name) + ByteLen(value) + 3)
  {
  }

  lemma FirstPrint(pieces: seq<Piece>, start: nat)
    requires pieces != []
    ensures Print(pieces, true) == PrintOne(pieces[0]) + ";" + Print(pieces[1..], true)
    ensures Located(pieces, start)
         == [Locate(pieces[0], start)] + Located(pieces[1..], start + ByteLen(PrintOne(pieces[0]) + ";"))
  {
  }

  lemma PieceLocated(d: Written, start: nat)
    ensures Locate(AsPiece(d), start) == CssDeclaration(Text(d.name), Text(d.value), start)
  {
  }

  lemma PlainPrint(name: string, value: string)
    ensures PrintOne(Piece(Pair(name, value), "", "", " ", "")) == name + ": " + value
  {
    assert name + "" + ":" == name + ":";
    assert ":" + " " == ": ";
    ConcatAssociates(name, ":", " ");
    ConcatAssociates(name + ":", " ", value);
    var core := Core(Piece(Pair(name, value), "", "", " ", ""));
    assert "" + core + "" == core;
  }

  lemma MarksAreNarrow()
    ensures ByteLen("") == 0 && ByteLen(";") == 1 && ByteLen(": ") == 2
  {
    assert ": "[1..] == " " && " "[1..] == "" && ";"[1..] == "";
  }

  lemma {:induction false} SourceIsPrint(decls: seq<Written>, start: nat)
    ensures Source(decls) == Print(Map(AsPiece, decls), true)
    ensures Read(decls, start) == Located(Map(AsPiece, decls), start)
  {
    hide Text, PrintOne, ByteLen, AsPiece, Source, Read, Print, Located, Locate, Map;
    if decls == [] {
      NoSource(start);
    } else {
      var pieces := Map(AsPiece, decls);
      FirstPiece(decls);
      PieceText(decls[0]);
      PieceLocated(decls[0], start);
      FirstSource(decls, start);
      FirstPrint(pieces, start);
      SourceIsPrint(decls[1..], start + ByteLen(Text(decls[0].name)) + ByteLen(Text(decls[0].value)) + 3);
    }
  }

  /**
   Declarations written in the grammar parse to themselves, with the byte offset of each name: no
   semicolon or colon inside a string or group ever cuts one.
   */
  lemma WrittenParses(decls: seq<Written>)
    requires forall i :: 0 <= i < |decls| ==> WrittenOk(decls[i])
    ensures Parse(Source(decls)) == Read(decls, 0)
  {
    var pieces := Map(AsPiece, decls);
    forall i | 0 <= i < |pieces|
      ensures PieceOk(pieces[i]) && Closed(pieces[i].pair.value)
    {
      assert pieces[i] == AsPiece(decls[i]);
      WrittenIsPair(decls[i]);
    }
    SourceIsPrint(decls, 0);
    ParsePrinted(pieces, true);
  }

  lemma OneQuoted(quote: char, inside: seq<QuotedChar>)
    requires IsQuoteMark(quote) && QuotedOk(quote, inside)
    ensures var value := [Quoted(quote, inside)];
            Text(value) == [quote] + QuotedText(inside) + [quote] && UnitsOk(value) && Trimmed(Text(value))
  {
    var value := [Quoted(quote, inside)];
    assert value[0] == Quoted(quote, inside) && value[1..] == [];
    assert Text(value) == [quote] + QuotedText(inside) + [quote] + "";
  }

  /** One declaration with a quoted value, whatever the string holds. */
  lemma QuotedValueParses(name: seq<Unit>, quote: char, inside: seq<QuotedChar>)
    requires UnitsOk(name) && Trimmed(Text(name)) && Letter(':') !in name && Letter(';') !in name
    requires IsQuoteMark(quote) && QuotedOk(quote, inside)
    ensures var value := [quote] + QuotedText(inside) + [quote];
            Parse(Text(name) + ": " + value + ";") == [CssDeclaration(Text(name), value, 0)]
  {
    OneQuoted(quote, inside);
    OneParses(Written(name, [Quoted(quote, inside)]));
  }

  lemma OneParses(d: Written)
    requires WrittenOk(d)
    ensures Parse(Text(d.name) + ": " + Text(d.value) + ";") == [CssDeclaration(Text(d.name), Text(d.value), 0)]
  {
    hide Parse, Text, WrittenOk, Source, Read;
    OneSource(d);
    WrittenParses([d]);
  }

  lemma OneSource(d: Written)
    ensures Source([d]) == Text(d.name) + ": " + Text(d.value) + ";"
    ensures Read([d], 0) == [CssDeclaration(Text(d.name), Text(d.value), 0)]
  {
    hide Text;
    var one := Text(d.name) + ": " + Text(d.value) + ";";
    assert [d][1..] == [];
    assert Source([]) == "" && Source([d]) == one + "" == one;
  }
}
