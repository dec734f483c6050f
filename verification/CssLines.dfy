/** The lines and columns that lint findings report, computed on the stripped text. */
module CssLines {
  import opened Support
  import opened CssText

  datatype Position = Position(line: nat, column: nat)

  function Pass(p: Position, c: char): Position {
    if c == '\n' then Position(p.line + 1, 1) else Position(p.line, p.column + 1)
  }

  /** Where character `k` of a text stands, counting lines and columns from one. */
  function PositionOf(s: string, k: nat): Position
    requires k <= |s|
  {
    if k == 0 then Position(1, 1) else Pass(PositionOf(s, k - 1), s[k - 1])
  }

  predicate IsLineFeed(c: char) {
    c == '\n'
  }

  /** The line counts the line feeds before a character, the column the characters since the last one. */
  lemma {:induction false} PositionMeans(s: string, k: nat)
    requires k <= |s|
    ensures var p := PositionOf(s, k);
            && p.line == 1 + |Filter(IsLineFeed, s[..k])|
            && 1 <= p.column <= k + 1
            && (p.column <= k ==> s[k - p.column] == '\n')
            && (forall i :: k - p.column < i < k ==> s[i] != '\n')
  {
    if k == 0 {
      assert s[..0] == [];
    } else {
      PositionMeans(s, k - 1);
      assert s[..k] == s[..k - 1] + [s[k - 1]];
      FilterConcat(IsLineFeed, s[..k - 1], [s[k - 1]]);
      assert Filter(IsLineFeed, [s[k - 1]]) == if s[k - 1] == '\n' then ['\n'] else [];
    }
  }

  /** How many characters from the `i`-th on start before a byte offset; `index` is where the `i`-th starts. */
  function Reach(s: string, offset: nat, i: nat, index: nat): (k: nat)
    requires i <= |s|
    ensures i <= k <= |s|
    decreases |s| - i
  {
    if i == |s| || index >= offset then i else Reach(s, offset, i + 1, index + Utf8Len(s[i]))
  }

  /** The position reported for a byte offset. */
  function PositionAt(contents: string, offset: nat): Position {
    PositionOf(contents, Reach(contents, offset, 0, 0))
  }

  method LineColumnForOffset(contents: string, offset: nat) returns (line: nat, column: nat)
    ensures Position(line, column) == PositionAt(contents, offset)
  {
    line, column := 1, 1;
    var index: nat := 0;
    for i := 0 to |contents|
      invariant Position(line, column) == PositionOf(contents, i)
      invariant Reach(contents, offset, i, index) == Reach(contents, offset, 0, 0)
    {
      if index >= offset {
        return;
      }
      var ch := contents[i];
      if ch == '\n' {
        line := line + 1;
        column := 1;
      } else {
        column := column + 1;
      }
      index := index + Utf8Len(ch);
    }
  }

  /** The byte offset of a character reaches exactly that character. */
  lemma {:induction false} ReachFinds(s: string, i: nat, k: nat)
    requires i <= k <= |s|
    ensures Reach(s, ByteLen(s[..k]), i, ByteLen(s[..i])) == k
    ensures ByteLen(s[..i]) <= ByteLen(s[..k])
    decreases k - i
  {
    if i < k {
      assert s[..i + 1] == s[..i] + [s[i]];
      ByteLenConcat(s[..i], [s[i]]);
      assert ByteLen([s[i]]) == Utf8Len(s[i]);
      ReachFinds(s, i + 1, k);
    }
  }

  lemma {:induction false} SameLineFeedsSamePosition(s: string, t: string, k: nat)
    requires k <= |s| == |t| && forall i :: 0 <= i < k ==> (s[i] == '\n' <==> t[i] == '\n')
    ensures PositionOf(s, k) == PositionOf(t, k)
  {
    if k > 0 {
      SameLineFeedsSamePosition(s, t, k - 1);
    }
  }

  /**
   Findings point into the author's file: the line and column reported for a character of the
   stripped text, at its byte offset there, are the line and column of the same character in the
   source, even where the byte offsets of the two texts differ.
   */
  lemma StrippedPositionsAreAuthors(s: string, k: nat)
    requires k <= |s|
    ensures |Strip(s, false)| == |s|
    ensures PositionAt(Strip(s, false), ByteLen(Strip(s, false)[..k])) == PositionOf(s, k)
    ensures PositionAt(s, ByteLen(s[..k])) == PositionOf(s, k)
  {
    var t := Strip(s, false);
    StripKeepsLayout(s, false);
    hide Strip;
    ReachFinds(t, 0, k);
    ReachFinds(s, 0, k);
    assert s[..0] == [] && t[..0] == [];
    SameLineFeedsSamePosition(t, s, k);
  }
}
