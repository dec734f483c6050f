/**
 The block scanner on text: it is given the UTF-8 bytes of a string, and cuts them only between
 characters, so decoding its slices gives pieces of that string.
 */
module CssTextBlocks {
  import opened Support
  import opened CssText
  import opened CssBlocks

  /** The UTF-8 encoding of one character, RFC 3629, section 3. */
  function EncodeChar(c: char): (bytes: seq<Byte>)
    ensures |bytes| == Utf8Len(c)
    ensures forall i :: 0 <= i < |bytes| ==> (bytes[i] < 128 <==> |bytes| == 1)
  {
    var n := c as int;
    if n < 0x80 then [n]
    else if n < 0x800 then [0xC0 + n / 64, 0x80 + n % 64]
    else if n < 0x10000 then [0xE0 + n / 4096, 0x80 + n / 64 % 64, 0x80 + n % 64]
    else [0xF0 + n / 262144, 0x80 + n / 4096 % 64, 0x80 + n / 64 % 64, 0x80 + n % 64]
  }

  function Encode(s: string): seq<Byte> {
    if s == [] then [] else EncodeChar(s[0]) + Encode(s[1..])
  }

  lemma {:induction false} EncodeSize(s: string)
    ensures |Encode(s)| == ByteLen(s)
  {
    if s != [] {
      EncodeSize(s[1..]);
    }
  }

  lemma {:induction false} EncodeConcat(a: string, b: string)
    ensures Encode(a + b) == Encode(a) + Encode(b)
  {
    if a == [] {
      assert a + b == b;
    } else {
      EncodeConcat(a[1..], b);
      assert (a + b)[1..] == a[1..] + b;
      ConcatAssociates(EncodeChar(a[0]), Encode(a[1..]), Encode(b));
    }
  }

  function LengthFrom(first: Byte): nat {
    if first < 0x80 then 1 else if first < 0xE0 then 2 else if first < 0xF0 then 3 else 4
  }

  function NumberOf(bytes: seq<Byte>): int
    requires 1 <= |bytes| <= 4
  {
    var first: int := bytes[0];
    if |bytes| == 1 then first
    else
      var second: int := bytes[1];
      if |bytes| == 2 then first * 64 + second - 0x3080
      else
        var third: int := bytes[2];
        if |bytes| == 3 then first * 4096 + second * 64 + third - 0xE_2080
        else first * 262144 + second * 4096 + third * 64 + bytes[3] as int - 0x3C8_2080
  }

  /** The first byte tells how long a character is, and all of them give its number. */
  lemma CharReadsBack(c: char)
    ensures |EncodeChar(c)| == LengthFrom(EncodeChar(c)[0])
    ensures NumberOf(EncodeChar(c)) == c as int
  {
    var n := c as int;
    assert n / 4096 == n / 64 / 64 && n / 262144 == n / 64 / 64 / 64;
  }

  lemma CharIsDetermined(c: char, d: char, x: seq<Byte>, y: seq<Byte>)
    requires EncodeChar(c) + x == EncodeChar(d) + y
    ensures c == d && x == y
  {
    CharReadsBack(c);
    CharReadsBack(d);
    hide EncodeChar, NumberOf;
    var a, b := EncodeChar(c), EncodeChar(d);
    assert a[0] == (a + x)[0] == (b + y)[0] == b[0];
    assert a == (a + x)[..|a|] && b == (b + y)[..|b|];
    assert x == (a + x)[|a|..] && y == (b + y)[|b|..];
  }

  /** No two texts have the same bytes. */
  lemma {:induction false} EncodeIsInjective(s: string, t: string)
    requires Encode(s) == Encode(t)
    ensures s == t
  {
    if s != [] && t != [] {
      CharIsDetermined(s[0], t[0], Encode(s[1..]), Encode(t[1..]));
      EncodeIsInjective(s[1..], t[1..]);
    }
  }

  /** Character `k` starts at byte `i`; the end of the text counts as a start. */
  ghost predicate StartsAt(s: string, k: int, i: nat) {
    0 <= k <= |s| && ByteLen(s[..k]) == i
  }

  lemma NextStart(s: string, k: nat)
    requires k < |s|
    ensures ByteLen(s[..k + 1]) == ByteLen(s[..k]) + Utf8Len(s[k])
  {
    assert s[..k + 1] == s[..k] + [s[k]];
    ByteLenConcat(s[..k], [s[k]]);
    assert ByteLen([s[k]]) == Utf8Len(s[k]);
  }

  /** Cutting between characters is cutting the text. */
  lemma SliceIsText(s: string, a: nat, b: nat)
    requires a <= b <= |s|
    ensures ByteLen(s[..a]) <= ByteLen(s[..b]) <= |Encode(s)|
    ensures Encode(s)[ByteLen(s[..a])..ByteLen(s[..b])] == Encode(s[a..b])
  {
    hide Encode, ByteLen;
    var x, y, z := s[..a], s[a..b], s[b..];
    assert s == x + (y + z) && s[..b] == x + y;
    EncodeConcat(x, y + z);
    EncodeConcat(y, z);
    EncodeConcat(x, y);
    EncodeSize(x);
    EncodeSize(s[..b]);
    Middle(Encode(x), Encode(y), Encode(z));
  }

  lemma Middle(x: seq<Byte>, y: seq<Byte>, z: seq<Byte>)
    ensures |x| <= |x + y| <= |x + (y + z)|
    ensures (x + (y + z))[|x|..|x + y|] == y
  {
  }

  /** A byte below 128 is a whole character. */
  lemma {:induction false} AsciiIsWhole(s: string, i: nat) returns (k: nat)
    requires i < |Encode(s)| && Encode(s)[i] < 128
    ensures StartsAt(s, k, i) && k < |s| && s[k] as int == Encode(s)[i]
    ensures StartsAt(s, k + 1, i + 1)
  {
    var head := EncodeChar(s[0]);
    if i < |head| {
      k := 0;
      assert s[..1] == [s[0]];
      assert head == [s[0] as int];
      assert ByteLen([s[0]]) == 1;
    } else {
      var j := AsciiIsWhole(s[1..], i - |head|);
      k := j + 1;
      assert s[..k] == [s[0]] + s[1..][..j] && s[..k + 1] == [s[0]] + s[1..][..j + 1];
    }
  }

  /** Skipping blanks moves from the start of one character to the start of another. */
  lemma {:induction false} SkipKeepsStarts(s: string, start: nat, k: nat) returns (a: nat)
    requires StartsAt(s, k, start)
    ensures StartsAt(s, a, SkipWhitespace(Encode(s), start)) && k <= a
    decreases |s| - k
  {
    a := k;
    if start < |Encode(s)| && IsAsciiWhitespace(Encode(s)[start]) {
      var j := AsciiIsWhole(s, start);
      StartIsUnique(s, j, k);
      a := SkipKeepsStarts(s, start + 1, k + 1);
    }
  }

  lemma StartIsUnique(s: string, j: nat, k: nat)
    requires j <= |s| && k <= |s| && ByteLen(s[..j]) == ByteLen(s[..k])
    ensures j == k
  {
    if j < k {
      StartsGrow(s, j, k);
    } else if k < j {
      StartsGrow(s, k, j);
    }
  }

  lemma {:induction false} StartsGrow(s: string, j: nat, k: nat)
    requires j < k <= |s|
    ensures ByteLen(s[..j]) < ByteLen(s[..k])
    decreases k - j
  {
    NextStart(s, k - 1);
    if j < k - 1 {
      StartsGrow(s, j, k - 1);
    }
  }

  lemma StartOrder(s: string, j: nat, k: nat)
    requires j <= |s| && k <= |s| && ByteLen(s[..j]) <= ByteLen(s[..k])
    ensures j <= k
  {
    if k < j {
      StartsGrow(s, k, j);
    }
  }

  /** The block `b` is `selector { block }` in the text, with the braces at `open` and `close`. */
  ghost predicate TextBlock(s: string, b: CssBlock, from: nat, open: nat, close: nat) {
    && from <= open < close < |s| && s[open] == '{' && s[close] == '}'
    && StartsAt(s, from, b.selectorStart) && StartsAt(s, open + 1, b.blockStart) && StartsAt(s, close + 1, b.next)
    && b.selector == Encode(s[from..open]) && b.block == Encode(s[open + 1..close])
  }

  /**
   Scanning from the start of a character, a found block is a piece of the text between braces, and
   the cursor is again at the start of a character: decoding its slices loses nothing.
   */
  lemma BlocksAreText(s: string, start: nat, k: nat, b: CssBlock) returns (from: nat, open: nat, close: nat)
    requires StartsAt(s, k, start) && IsNextBlock(Encode(s), start, b)
    ensures k <= from && TextBlock(s, b, from, open, close)
  {
    BlockIsDelimited(Encode(s), start, b);
    from := SkipKeepsStarts(s, start, k);
    open := AsciiIsWhole(s, b.blockStart - 1);
    close := AsciiIsWhole(s, b.next - 1);
    StartOrder(s, from, open);
    StartOrder(s, open + 1, close);
    SliceIsText(s, from, open);
    SliceIsText(s, open + 1, close);
  }

  /** What decoding promises: bytes that encode a text decode to a text they encode. */
  ghost predicate Decodes(bytes: seq<Byte>, text: string) {
    (exists t :: Encode(t) == bytes) ==> Encode(text) == bytes
  }

  /** So the decoded selector and body are the pieces of the text, whatever the decoder. */
  lemma DecodedBlockIsText(s: string, start: nat, k: nat, b: CssBlock, selector: string, block: string)
    returns (from: nat, open: nat, close: nat)
    requires StartsAt(s, k, start) && IsNextBlock(Encode(s), start, b)
    requires Decodes(b.selector, selector) && Decodes(b.block, block)
    ensures k <= from && TextBlock(s, b, from, open, close)
    ensures selector == s[from..open] && block == s[open + 1..close]
  {
    from, open, close := BlocksAreText(s, start, k, b);
    EncodeIsInjective(selector, s[from..open]);
    EncodeIsInjective(block, s[open + 1..close]);
  }
}
