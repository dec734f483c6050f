/**
 CSS rules as their author writes them: a selector, and a body of plain bytes, quoted strings and
 nested blocks. The scanner returns exactly the selector and the body of the first rule, whatever
 the strings hold and however deep the blocks nest.
 */
module CssRules {
  import opened Support
  import opened CssBlocks

  datatype Part =
    | Plain(b: Byte)
    | Quoted(mark: Byte, inside: seq<Byte>)
    | Block(members: seq<Part>)

  const DOUBLE: Byte := 0x22
  const SINGLE: Byte := 0x27
  const OPEN: Byte := 0x7B
  const CLOSE: Byte := 0x7D

  ghost predicate PartsOk(parts: seq<Part>)
    decreases parts
  {
    forall i :: 0 <= i < |parts| ==>
      match parts[i]
      case Plain(b) => b != DOUBLE && b != SINGLE && b != OPEN && b != CLOSE
      case Quoted(mark, inside) => (mark == DOUBLE || mark == SINGLE) && mark !in inside
      case Block(members) => PartsOk(members)
  }

  function Text(parts: seq<Part>): seq<Byte>
    decreases parts
  {
    if parts == [] then []
    else
      (match parts[0]
       case Plain(b) => [b]
       case Quoted(mark, inside) => [mark] + inside + [mark]
       case Block(members) => [OPEN] + Text(members) + [CLOSE])
      + Text(parts[1..])
  }

  ghost predicate LiesAt(bytes: seq<Byte>, p: nat, text: seq<Byte>) {
    p + |text| <= |bytes| && bytes[p..p + |text|] == text
  }

  lemma LiesSplit(bytes: seq<Byte>, p: nat, a: seq<Byte>, b: seq<Byte>)
    requires LiesAt(bytes, p, a + b)
    ensures LiesAt(bytes, p, a) && LiesAt(bytes, p + |a|, b)
  {
    assert bytes[p..p + |a|] == (a + b)[..|a|];
    assert bytes[p + |a|..p + |a| + |b|] == (a + b)[|a|..];
  }

  lemma LiesOne(bytes: seq<Byte>, p: nat, b: Byte)
    requires LiesAt(bytes, p, [b])
    ensures p < |bytes| && bytes[p] == b
  {
    assert bytes[p] == bytes[p..p + 1][0];
  }

  /** Between two positions nesting never falls below where it began, and both are outside quotes. */
  ghost predicate Passes(bytes: seq<Byte>, from: nat, p: nat, q: nat) {
    && from <= p <= q <= |bytes|
    && QuoteAt(bytes, from, p).None? && QuoteAt(bytes, from, q).None?
    && DepthAt(bytes, from, q) == DepthAt(bytes, from, p)
    && forall i :: p <= i <= q ==> DepthAt(bytes, from, i) >= DepthAt(bytes, from, p)
  }

  lemma PassesOn(bytes: seq<Byte>, from: nat, p: nat, q: nat, r: nat)
    requires Passes(bytes, from, p, q) && Passes(bytes, from, q, r)
    ensures Passes(bytes, from, p, r)
  {
  }

  // ---------------------------------------------------------------------------------------------
  // The scanner on such text
  // ---------------------------------------------------------------------------------------------

  lemma {:induction false} InsideQuote(bytes: seq<Byte>, from: nat, p: nat, mark: Byte, n: nat)
    requires from <= p && p + n <= |bytes| && QuoteAt(bytes, from, p) == Some(mark)
    requires forall i :: p <= i < p + n ==> bytes[i] != mark
    ensures QuoteAt(bytes, from, p + n) == Some(mark)
    ensures DepthAt(bytes, from, p + n) == DepthAt(bytes, from, p)
  {
    if n > 0 {
      InsideQuote(bytes, from, p, mark, n - 1);
    }
  }

  lemma StringBytes(bytes: seq<Byte>, p: nat, mark: Byte, inside: seq<Byte>)
    requires LiesAt(bytes, p, [mark] + inside + [mark]) && mark !in inside
    ensures p + |inside| + 2 <= |bytes| && bytes[p] == mark && bytes[p + 1 + |inside|] == mark
    ensures forall i :: p + 1 <= i < p + 1 + |inside| ==> bytes[i] != mark
  {
    LiesSplit(bytes, p, [mark] + inside, [mark]);
    LiesSplit(bytes, p, [mark], inside);
    LiesOne(bytes, p, mark);
    var end := p + 1 + |inside|;
    LiesOne(bytes, end, mark);
    forall i | p + 1 <= i < end
      ensures bytes[i] != mark
    {
      assert bytes[p + 1..end][i - p - 1] == inside[i - p - 1] && inside[i - p - 1] in inside;
    }
  }

  /** A quoted string hides its braces. */
  lemma StringPasses(bytes: seq<Byte>, from: nat, p: nat, mark: Byte, inside: seq<Byte>)
    requires from <= p && LiesAt(bytes, p, [mark] + inside + [mark]) && QuoteAt(bytes, from, p).None?
    requires (mark == DOUBLE || mark == SINGLE) && mark !in inside
    ensures Passes(bytes, from, p, p + |inside| + 2)
    ensures forall i :: p <= i < p + |inside| + 2 ==> !OpensAt(bytes, from, i)
  {
    StringBytes(bytes, p, mark, inside);
    hide LiesAt;
    var end := p + 1 + |inside|;
    assert QuoteAt(bytes, from, p + 1) == Some(mark);
    forall i | p + 1 <= i <= end
      ensures QuoteAt(bytes, from, i) == Some(mark) && DepthAt(bytes, from, i) == DepthAt(bytes, from, p)
    {
      InsideQuote(bytes, from, p + 1, mark, i - p - 1);
    }
    assert QuoteAt(bytes, from, end) == Some(mark) && bytes[end] == mark;
    assert QuoteAt(bytes, from, end + 1).None?;
    assert DepthAt(bytes, from, end + 1) == DepthAt(bytes, from, end) == DepthAt(bytes, from, p);
  }

  lemma BytePasses(bytes: seq<Byte>, from: nat, p: nat, b: Byte)
    requires from <= p && LiesAt(bytes, p, [b]) && QuoteAt(bytes, from, p).None?
    requires b != DOUBLE && b != SINGLE && b != OPEN && b != CLOSE
    ensures Passes(bytes, from, p, p + 1) && !OpensAt(bytes, from, p)
  {
    LiesOne(bytes, p, b);
  }

  lemma FirstText(parts: seq<Part>)
    requires parts != []
    ensures Text(parts) == Text(parts[..1]) + Text(parts[1..])
    ensures Text(parts[..1]) ==
            match parts[0]
            case Plain(b) => [b]
            case Quoted(mark, inside) => [mark] + inside + [mark]
            case Block(members) => [OPEN] + Text(members) + [CLOSE]
  {
    assert parts[..1][1..] == [];
  }

  /** Text in the grammar ends outside quotes, as deep as it began, and never less deep in between. */
  lemma {:induction false} PartsPass(bytes: seq<Byte>, from: nat, p: nat, parts: seq<Part>)
    requires from <= p && LiesAt(bytes, p, Text(parts)) && QuoteAt(bytes, from, p).None? && PartsOk(parts)
    ensures Passes(bytes, from, p, p + |Text(parts)|)
    decreases parts, 1
  {
    hide Text, PartsOk, QuoteAt, DepthAt, LiesAt, Passes;
    if parts == [] {
      NothingPasses(bytes, from, p);
    } else {
      var first, rest := Text(parts[..1]), parts[1..];
      RestOk(parts);
      FirstText(parts);
      LiesSplit(bytes, p, first, Text(rest));
      FirstPasses(bytes, from, p, parts);
      PartsPass(bytes, from, p + |first|, rest);
      PassesOn(bytes, from, p, p + |first|, p + |first| + |Text(rest)|);
    }
  }

  lemma NothingPasses(bytes: seq<Byte>, from: nat, p: nat)
    requires from <= p && LiesAt(bytes, p, Text([])) && QuoteAt(bytes, from, p).None?
    ensures Passes(bytes, from, p, p + |Text([])|)
  {
  }

  lemma RestOk(parts: seq<Part>)
    requires PartsOk(parts) && parts != []
    ensures PartsOk(parts[1..])
  {
    assert forall i :: 0 <= i < |parts[1..]| ==> parts[1..][i] == parts[i + 1];
  }

  lemma FirstPasses(bytes: seq<Byte>, from: nat, p: nat, parts: seq<Part>)
    requires parts != [] && PartsOk(parts)
    requires from <= p && LiesAt(bytes, p, Text(parts[..1])) && QuoteAt(bytes, from, p).None?
    ensures Passes(bytes, from, p, p + |Text(parts[..1])|)
    ensures p + |Text(parts[..1])| <= |bytes| && QuoteAt(bytes, from, p + |Text(parts[..1])|).None?
    decreases parts, 0
  {
    FirstText(parts);
    match parts[0]
    case Plain(b) => BytePasses(bytes, from, p, b);
    case Quoted(mark, inside) => StringPasses(bytes, from, p, mark, inside);
    case Block(members) =>
      hide Text, QuoteAt, DepthAt, Passes, LiesAt;
      var inner := Text(members);
      LiesSplit(bytes, p, [OPEN] + inner, [CLOSE]);
      LiesSplit(bytes, p, [OPEN], inner);
      LiesOne(bytes, p, OPEN);
      LiesOne(bytes, p + 1 + |inner|, CLOSE);
      BraceKeepsQuote(bytes, from, p);
      PartsPass(bytes, from, p + 1, members);
      BlockPasses(bytes, from, p, p + 1 + |inner|);
  }

  lemma BraceKeepsQuote(bytes: seq<Byte>, from: nat, p: nat)
    requires from <= p < |bytes| && bytes[p] == OPEN && QuoteAt(bytes, from, p).None?
    ensures QuoteAt(bytes, from, p + 1).None?
  {
  }

  lemma BlockPasses(bytes: seq<Byte>, from: nat, p: nat, close: nat)
    requires from <= p < close < |bytes| && QuoteAt(bytes, from, p).None?
    requires bytes[p] == OPEN && bytes[close] == CLOSE && Passes(bytes, from, p + 1, close)
    ensures Passes(bytes, from, p, close + 1)
  {
    assert DepthAt(bytes, from, p + 1) == DepthAt(bytes, from, p) + 1;
    assert DepthAt(bytes, from, close + 1) == DepthAt(bytes, from, p);
  }

  /** A selector has no blocks, so no brace of it opens one. */
  ghost predicate SelectorOk(parts: seq<Part>) {
    PartsOk(parts) && forall i :: 0 <= i < |parts| ==> !parts[i].Block?
  }

  lemma {:induction false} SelectorOpensNothing(bytes: seq<Byte>, from: nat, p: nat, parts: seq<Part>)
    requires from <= p && LiesAt(bytes, p, Text(parts)) && QuoteAt(bytes, from, p).None? && SelectorOk(parts)
    ensures QuoteAt(bytes, from, p + |Text(parts)|).None?
    ensures forall i :: p <= i < p + |Text(parts)| ==> !OpensAt(bytes, from, i)
    decreases |parts|
  {
    hide Text, PartsOk, QuoteAt, LiesAt;
    if parts == [] {
      NoText();
    } else {
      var first, rest := Text(parts[..1]), parts[1..];
      RestOk(parts);
      FirstText(parts);
      LiesSplit(bytes, p, first, Text(rest));
      FirstOpensNothing(bytes, from, p, parts);
      assert forall i :: 0 <= i < |rest| ==> rest[i] == parts[i + 1];
      SelectorOpensNothing(bytes, from, p + |first|, rest);
    }
  }

  lemma NoText()
    ensures Text([]) == []
  {
  }

  lemma FirstOpensNothing(bytes: seq<Byte>, from: nat, p: nat, parts: seq<Part>)
    requires parts != [] && PartsOk(parts) && !parts[0].Block?
    requires from <= p && LiesAt(bytes, p, Text(parts[..1])) && QuoteAt(bytes, from, p).None?
    ensures p + |Text(parts[..1])| <= |bytes| && QuoteAt(bytes, from, p + |Text(parts[..1])|).None?
    ensures forall i :: p <= i < p + |Text(parts[..1])| ==> !OpensAt(bytes, from, i)
  {
    FirstText(parts);
    match parts[0]
    case Plain(b) => BytePasses(bytes, from, p, b);
    case Quoted(mark, inside) => StringPasses(bytes, from, p, mark, inside);
  }

  predicate IsBlank(b: Byte) {
    b == 0x09 || b == 0x0A || b == 0x0C || b == 0x0D || b == 0x20
  }

  lemma {:induction false} SkipsBlanks(bytes: seq<Byte>, start: nat, blanks: seq<Byte>)
    requires LiesAt(bytes, start, blanks) && forall i :: 0 <= i < |blanks| ==> IsBlank(blanks[i])
    requires start + |blanks| < |bytes| && !IsBlank(bytes[start + |blanks|])
    ensures SkipWhitespace(bytes, start) == start + |blanks|
    decreases |blanks|
  {
    if blanks != [] {
      assert blanks == [blanks[0]] + blanks[1..];
      LiesSplit(bytes, start, [blanks[0]], blanks[1..]);
      LiesOne(bytes, start, blanks[0]);
      SkipsBlanks(bytes, start + 1, blanks[1..]);
    }
  }

  /** A rule lies at `start`: blanks, a selector that does not begin with one, and a body in braces. */
  ghost predicate RuleAt(bytes: seq<Byte>, start: nat, blanks: seq<Byte>, selector: seq<Part>, body: seq<Part>) {
    && (forall i :: 0 <= i < |blanks| ==> IsBlank(blanks[i]))
    && SelectorOk(selector) && PartsOk(body) && (Text(selector) == [] || !IsBlank(Text(selector)[0]))
    && LiesAt(bytes, start, blanks + (Text(selector) + ([OPEN] + (Text(body) + [CLOSE]))))
  }

  /** The rule's own block. */
  ghost function BlockOf(start: nat, blanks: seq<Byte>, selector: seq<Part>, body: seq<Part>): CssBlock {
    var from := start + |blanks|;
    var blockStart := from + |Text(selector)| + 1;
    CssBlock(Text(selector), Text(body), blockStart + |Text(body)| + 1, from, blockStart)
  }

  lemma RuleParts(bytes: seq<Byte>, start: nat, blanks: seq<Byte>, selector: seq<Part>, body: seq<Part>)
    requires RuleAt(bytes, start, blanks, selector, body)
    ensures var b := BlockOf(start, blanks, selector, body);
            && LiesAt(bytes, start, blanks) && LiesAt(bytes, b.selectorStart, b.selector)
            && LiesAt(bytes, b.blockStart, b.block) && b.blockStart <= b.next - 1 < |bytes|
            && bytes[b.blockStart - 1] == OPEN && bytes[b.next - 1] == CLOSE
            && !IsBlank(bytes[b.selectorStart])
  {
    hide Text, PartsOk, SelectorOk;
    var s, t := Text(selector), Text(body);
    var from := start + |blanks|;
    LiesSplit(bytes, start, blanks, s + ([OPEN] + (t + [CLOSE])));
    LiesSplit(bytes, from, s, [OPEN] + (t + [CLOSE]));
    LiesSplit(bytes, from + |s|, [OPEN], t + [CLOSE]);
    LiesSplit(bytes, from + |s| + 1, t, [CLOSE]);
    LiesOne(bytes, from + |s|, OPEN);
    LiesOne(bytes, from + |s| + 1 + |t|, CLOSE);
    if s != [] {
      assert bytes[from] == bytes[from..from + |s|][0];
    }
  }

  /** The next block after the start of a rule is that rule's. */
  lemma RuleIsNextBlock(bytes: seq<Byte>, start: nat, blanks: seq<Byte>, selector: seq<Part>, body: seq<Part>)
    requires RuleAt(bytes, start, blanks, selector, body)
    ensures IsNextBlock(bytes, start, BlockOf(start, blanks, selector, body))
  {
    hide Text, PartsOk;
    var b := BlockOf(start, blanks, selector, body);
    RuleParts(bytes, start, blanks, selector, body);
    SkipsBlanks(bytes, start, blanks);
    SelectorOpensNothing(bytes, b.selectorStart, b.selectorStart, selector);
    assert FirstOpen(bytes, b.selectorStart, b.blockStart - 1);
    PartsPass(bytes, b.blockStart, b.blockStart, body);
    ClosesFirst(bytes, b.blockStart, b.next - 1);
  }

  lemma ClosesFirst(bytes: seq<Byte>, from: nat, close: nat)
    requires from <= close < |bytes| && bytes[close] == CLOSE && Passes(bytes, from, from, close)
    ensures FirstClose(bytes, from, close)
  {
    assert DepthAt(bytes, from, from) == 1;
    assert DepthAt(bytes, from, close + 1) == 0;
  }

  /** And the scanner can return no other: it reads rules as they are written, one after another. */
  lemma RuleIsRead(bytes: seq<Byte>, start: nat, blanks: seq<Byte>, selector: seq<Part>, body: seq<Part>, b: CssBlock)
    requires RuleAt(bytes, start, blanks, selector, body) && IsNextBlock(bytes, start, b)
    ensures b == BlockOf(start, blanks, selector, body)
  {
    RuleIsNextBlock(bytes, start, blanks, selector, body);
    NextBlockIsUnique(bytes, start, b, BlockOf(start, blanks, selector, body));
  }
}
