/** Finding the next `selector { body }` in a byte slice, aware of quotes and nesting. */
module CssBlocks {
  import opened Support

  type Byte = x: int | 0 <= x < 256

  const DOUBLE_QUOTE: Byte := 34
  const SINGLE_QUOTE: Byte := 39
  const OPEN_BRACE: Byte := 123
  const CLOSE_BRACE: Byte := 125

  /** u8::is_ascii_whitespace */
  predicate IsAsciiWhitespace(b: Byte) {
    b == 32 || b == 9 || b == 10 || b == 12 || b == 13
  }

  predicate IsQuote(b: Byte) {
    b == DOUBLE_QUOTE || b == SINGLE_QUOTE
  }

  /** Slices stay bytes here; CssTextBlocks says what decoding them gives. */
  datatype CssBlock = CssBlock(selector: seq<Byte>, block: seq<Byte>, next: nat, selectorStart: nat, blockStart: nat)

  function SkipWhitespace(bytes: seq<Byte>, start: nat): (i: nat)
    ensures i >= start
    decreases |bytes| - start
  {
    if start < |bytes| && IsAsciiWhitespace(bytes[start]) then SkipWhitespace(bytes, start + 1) else start
  }

  // ---------------------------------------------------------------------------------------------
  // Meaning of a position
  // ---------------------------------------------------------------------------------------------

  /** The quote that is open before position `to`, reading from `from`. */
  function QuoteAt(bytes: seq<Byte>, from: nat, to: nat): Option<Byte>
    requires from <= to <= |bytes|
  {
    if from == to then None
    else
      match QuoteAt(bytes, from, to - 1)
      case Some(quote) => if bytes[to - 1] == quote then None else Some(quote)
      case None => if IsQuote(bytes[to - 1]) then Some(bytes[to - 1]) else None
  }

  /** Braces still open before position `to`, reading from `from` inside one open brace. */
  function DepthAt(bytes: seq<Byte>, from: nat, to: nat): int
    requires from <= to <= |bytes|
  {
    if from == to then 1
    else
      DepthAt(bytes, from, to - 1) +
      (if QuoteAt(bytes, from, to - 1).Some? then 0
       else if bytes[to - 1] == OPEN_BRACE then 1
       else if bytes[to - 1] == CLOSE_BRACE then -1
       else 0)
  }

  /** An opening brace outside quotes. */
  predicate OpensAt(bytes: seq<Byte>, from: nat, i: nat)
    requires from <= i <= |bytes|
  {
    i < |bytes| && bytes[i] == OPEN_BRACE && QuoteAt(bytes, from, i).None?
  }

  /** The closing brace, outside quotes, that balances the block opened before `from`. */
  predicate ClosesAt(bytes: seq<Byte>, from: nat, i: nat)
    requires from <= i <= |bytes|
  {
    i < |bytes| && DepthAt(bytes, from, i + 1) == 0
  }

  /** `open` is the first unquoted opening brace of the selector scan. */
  ghost predicate FirstOpen(bytes: seq<Byte>, from: nat, open: nat) {
    && from <= open < |bytes| && OpensAt(bytes, from, open)
    && forall i :: from <= i < open ==> !OpensAt(bytes, from, i)
  }

  /** `close` is the first position where the nesting returns to zero. */
  ghost predicate FirstClose(bytes: seq<Byte>, from: nat, close: nat) {
    && from <= close < |bytes| && ClosesAt(bytes, from, close)
    && forall i :: from <= i < close ==> !ClosesAt(bytes, from, i)
  }

  /** The block the scanner should find from `start`. */
  ghost predicate IsNextBlock(bytes: seq<Byte>, start: nat, b: CssBlock) {
    && b.selectorStart == SkipWhitespace(bytes, start)
    && b.blockStart >= 1 && FirstOpen(bytes, b.selectorStart, b.blockStart - 1)
    && b.next >= 1 && FirstClose(bytes, b.blockStart, b.next - 1)
    && b.selector == bytes[b.selectorStart..b.blockStart - 1]
    && b.block == bytes[b.blockStart..b.next - 1]
  }

  // ---------------------------------------------------------------------------------------------
  // The scanner
  // ---------------------------------------------------------------------------------------------

  method NextCssBlockWithOffsets(bytes: seq<Byte>, start: nat) returns (r: Option<CssBlock>)
    ensures r.Some? ==> IsNextBlock(bytes, start, r.value)
    ensures r.None? ==> forall b :: !IsNextBlock(bytes, start, b)
  {
    var selectorStart := start;
    while selectorStart < |bytes| && IsAsciiWhitespace(bytes[selectorStart])
      invariant start <= selectorStart
      invariant SkipWhitespace(bytes, start) == SkipWhitespace(bytes, selectorStart)
    {
      selectorStart := selectorStart + 1;
    }
    var index := selectorStart;
    var inString: Option<Byte> := None;
    while index < |bytes|
      invariant selectorStart <= index
      invariant index <= |bytes| ==> inString == QuoteAt(bytes, selectorStart, index)
      invariant forall i :: selectorStart <= i < index && i < |bytes| ==> !OpensAt(bytes, selectorStart, i)
      decreases |bytes| - index
    {
      var byte := bytes[index];
      if inString.Some? {
        if byte == inString.value {
          inString := None;
        }
        index := index + 1;
        continue;
      }
      if IsQuote(byte) {
        inString := Some(byte);
        index := index + 1;
        continue;
      }
      if byte == OPEN_BRACE {
        assert FirstOpen(bytes, selectorStart, index);
        var close := BalancingBrace(bytes, index + 1);
        if close.None? {
          OpenIsUnique(bytes, start, index);
          return None;
        }
        return Some(CssBlock(bytes[selectorStart..index], bytes[index + 1..close.value],
                             close.value + 1, selectorStart, index + 1));
      }
      index := index + 1;
    }
    return None;
  }

  /** The inner loop: from just after an opening brace to the brace that balances it. */
  method BalancingBrace(bytes: seq<Byte>, blockStart: nat) returns (close: Option<nat>)
    requires blockStart <= |bytes|
    ensures close.Some? ==> FirstClose(bytes, blockStart, close.value)
    ensures close.None? ==> forall i :: !FirstClose(bytes, blockStart, i)
  {
    var index := blockStart;
    var inString: Option<Byte> := None;
    var depth: nat := 1;
    while index < |bytes|
      invariant blockStart <= index <= |bytes|
      invariant inString == QuoteAt(bytes, blockStart, index)
      invariant depth == DepthAt(bytes, blockStart, index) && depth >= 1
      invariant forall i :: blockStart <= i < index ==> !ClosesAt(bytes, blockStart, i)
    {
      var byte := bytes[index];
      if inString.Some? {
        if byte == inString.value {
          inString := None;
        }
        index := index + 1;
        continue;
      }
      if IsQuote(byte) {
        inString := Some(byte);
        index := index + 1;
        continue;
      }
      if byte == OPEN_BRACE {
        depth := depth + 1;
      } else if byte == CLOSE_BRACE {
        depth := depth - 1;
        if depth == 0 {
          return Some(index);
        }
      }
      index := index + 1;
    }
    return None;
  }

  lemma OpenIsUnique(bytes: seq<Byte>, start: nat, open: nat)
    requires FirstOpen(bytes, SkipWhitespace(bytes, start), open)
    ensures forall b :: IsNextBlock(bytes, start, b) ==> b.blockStart == open + 1
  {
  }

  /** The description picks out one block, so the scanner has no freedom. */
  lemma NextBlockIsUnique(bytes: seq<Byte>, start: nat, a: CssBlock, b: CssBlock)
    requires IsNextBlock(bytes, start, a) && IsNextBlock(bytes, start, b)
    ensures a == b
  {
  }

  lemma {:induction false} DepthStaysPositive(bytes: seq<Byte>, from: nat, close: nat, i: nat)
    requires FirstClose(bytes, from, close) && from <= i <= close
    ensures DepthAt(bytes, from, i) >= 1
  {
    if i > from {
      DepthStaysPositive(bytes, from, close, i - 1);
      assert !ClosesAt(bytes, from, i - 1);
    }
  }

  /**
   Progress and delimiters: a found block lies inside the input and moves the cursor, its body sits
   between its own braces, both outside quotes, and the nesting never closes early.
   */
  lemma BlockIsDelimited(bytes: seq<Byte>, start: nat, b: CssBlock)
    requires IsNextBlock(bytes, start, b)
    ensures start < b.blockStart < b.next <= |bytes|
    ensures bytes[b.blockStart - 1] == OPEN_BRACE && bytes[b.next - 1] == CLOSE_BRACE
    ensures QuoteAt(bytes, b.selectorStart, b.blockStart - 1).None?
    ensures QuoteAt(bytes, b.blockStart, b.next - 1).None?
    ensures DepthAt(bytes, b.blockStart, b.next - 1) == 1
    ensures forall i :: b.blockStart <= i < b.next ==> DepthAt(bytes, b.blockStart, i) >= 1
  {
    forall i | b.blockStart <= i < b.next
      ensures DepthAt(bytes, b.blockStart, i) >= 1
    {
      DepthStaysPositive(bytes, b.blockStart, b.next - 1, i);
    }
    assert DepthAt(bytes, b.blockStart, b.next - 1) >= 1;
    assert DepthAt(bytes, b.blockStart, b.next - 1 + 1) == 0;
  }
}
