/** Text primitives of the CSS checker: Unicode trimming, UTF-8 widths and comment stripping. */
module CssText {
  import opened Support

  /** char::is_whitespace */
  predicate IsWhitespace(c: char) {
    || '\t' <= c <= '\r' || c == ' ' || c == '\U{0085}' || c == '\U{00A0}' || c == '\U{1680}'
    || '\U{2000}' <= c <= '\U{200A}' || c == '\U{2028}' || c == '\U{2029}' || c == '\U{202F}'
    || c == '\U{205F}' || c == '\U{3000}'
  }

  /** The code points with the Unicode property White_Space. */
  const WHITE_SPACE: set<int> := {
    0x9, 0xA, 0xB, 0xC, 0xD, 0x20, 0x85, 0xA0, 0x1680,
    0x2000, 0x2001, 0x2002, 0x2003, 0x2004, 0x2005, 0x2006, 0x2007, 0x2008, 0x2009, 0x200A,
    0x2028, 0x2029, 0x202F, 0x205F, 0x3000}

  lemma WhitespaceIsUnicode(c: char)
    ensures IsWhitespace(c) <==> c as int in WHITE_SPACE
  {
  }

  /** char::len_utf8 */
  function Utf8Len(c: char): nat {
    if c < '\U{0080}' then 1 else if c < '\U{0800}' then 2 else if c < '\U{10000}' then 3 else 4
  }

  /** str::len: Rust string indices are byte offsets. */
  function ByteLen(s: string): nat {
    if s == [] then 0 else Utf8Len(s[0]) + ByteLen(s[1..])
  }

  function TrimStart(s: string): string {
    if s != [] && IsWhitespace(s[0]) then TrimStart(s[1..]) else s
  }

  function TrimEnd(s: string): string {
    if s != [] && IsWhitespace(s[|s| - 1]) then TrimEnd(s[..|s| - 1]) else s
  }

  /** str::trim */
  function Trim(s: string): string {
    TrimEnd(TrimStart(s))
  }

  ghost predicate Blank(s: string) {
    forall i :: 0 <= i < |s| ==> IsWhitespace(s[i])
  }

  /** Nonempty with no whitespace at either end. */
  ghost predicate Trimmed(s: string) {
    s != [] && !IsWhitespace(s[0]) && !IsWhitespace(s[|s| - 1])
  }

  lemma {:induction false} ByteLenConcat(a: string, b: string)
    ensures ByteLen(a + b) == ByteLen(a) + ByteLen(b)
  {
    if a == [] {
      assert a + b == b;
    } else {
      ByteLenConcat(a[1..], b);
      assert (a + b)[1..] == a[1..] + b;
    }
  }

  lemma {:induction false} TrimStartSplits(s: string) returns (lead: string)
    ensures s == lead + TrimStart(s) && Blank(lead)
    ensures TrimStart(s) != [] ==> !IsWhitespace(TrimStart(s)[0])
  {
    if s != [] && IsWhitespace(s[0]) {
      var rest := TrimStartSplits(s[1..]);
      lead := [s[0]] + rest;
    } else {
      lead := [];
    }
  }

  lemma {:induction false} TrimEndSplits(s: string) returns (tail: string)
    ensures s == TrimEnd(s) + tail && Blank(tail)
    ensures TrimEnd(s) != [] ==> !IsWhitespace(TrimEnd(s)[|TrimEnd(s)| - 1])
  {
    if s != [] && IsWhitespace(s[|s| - 1]) {
      var rest := TrimEndSplits(s[..|s| - 1]);
      tail := rest + [s[|s| - 1]];
    } else {
      tail := [];
    }
  }

  /** Trimming removes blanks from both ends and nothing else. */
  lemma TrimSplits(s: string) returns (lead: string, tail: string)
    ensures s == lead + Trim(s) + tail && Blank(lead) && Blank(tail)
    ensures Trim(s) == [] || Trimmed(Trim(s))
  {
    lead := TrimStartSplits(s);
    tail := TrimEndSplits(TrimStart(s));
    assert TrimStart(s) == Trim(s) + tail;
    if Trim(s) != [] {
      assert TrimStart(s)[0] == Trim(s)[0];
    }
  }

  /** A trimmed text inside blanks is what trimming finds. */
  lemma TrimFinds(lead: string, t: string, tail: string)
    requires Blank(lead) && Blank(tail) && (t == [] || Trimmed(t))
    ensures Trim(lead + t + tail) == t
  {
    var s := lead + t + tail;
    assert s == lead + (t + tail);
    TrimStartDrops(lead, t + tail);
    if t == [] {
      assert t + tail == tail + [];
      TrimStartDrops(tail, []);
    } else {
      assert TrimStart(s) == t + tail;
      TrimEndDrops(t, tail);
    }
  }

  lemma {:induction false} TrimStartDrops(lead: string, rest: string)
    requires Blank(lead)
    ensures TrimStart(lead + rest) == TrimStart(rest)
  {
    if lead == [] {
      assert lead + rest == rest;
    } else {
      assert (lead + rest)[1..] == lead[1..] + rest;
      TrimStartDrops(lead[1..], rest);
    }
  }

  lemma {:induction false} TrimEndDrops(t: string, tail: string)
    requires Blank(tail) && Trimmed(t)
    ensures TrimEnd(t + tail) == t
  {
    if tail == [] {
      assert t + tail == t;
    } else {
      assert (t + tail)[..|t + tail| - 1] == t + tail[..|tail| - 1];
      TrimEndDrops(t, tail[..|tail| - 1]);
    }
  }

  // ---------------------------------------------------------------------------------------------
  // Comments
  // ---------------------------------------------------------------------------------------------

  predicate Opens(s: string, i: nat) {
    i + 1 < |s| && s[i] == '/' && s[i + 1] == '*'
  }

  predicate Closes(s: string, i: nat) {
    i + 1 < |s| && s[i] == '*' && s[i + 1] == '/'
  }

  predicate IsNewline(c: char) {
    c == '\n' || c == '\r'
  }

  /** Comments become blanks, newlines stay. */
  function Strip(s: string, inComment: bool): string {
    if s == [] then []
    else if inComment then
      if Closes(s, 0) then "  " + Strip(s[2..], false)
      else [if IsNewline(s[0]) then s[0] else ' '] + Strip(s[1..], true)
    else if Opens(s, 0) then "  " + Strip(s[2..], true)
    else [s[0]] + Strip(s[1..], false)
  }

  /** Stripping from a position of a text. */
  lemma StripAt(s: string, i: nat, inComment: bool)
    requires i <= |s|
    ensures Strip(s[i..], inComment) ==
            if i == |s| then ""
            else if inComment then
              if Closes(s, i) then "  " + Strip(s[i + 2..], false)
              else [if IsNewline(s[i]) then s[i] else ' '] + Strip(s[i + 1..], true)
            else if Opens(s, i) then "  " + Strip(s[i + 2..], true)
            else [s[i]] + Strip(s[i + 1..], false)
  {
    if i < |s| {
      assert s[i..][1..] == s[i + 1..];
      assert i + 1 < |s| ==> s[i..][2..] == s[i + 2..] && s[i..][1] == s[i + 1];
    }
  }

  /** `output` is what stripping makes of the first `i` characters, given the state behind them. */
  ghost predicate Stripped(s: string, i: nat, inComment: bool, output: string) {
    i <= |s| && output + Strip(s[i..], inComment) == Strip(s, false)
  }

  /** One character, or the two of a comment mark, is stripped. */
  lemma StripStep(s: string, i: nat, inComment: bool, output: string)
    requires i < |s| && Stripped(s, i, inComment, output)
    ensures inComment && Closes(s, i) ==> Stripped(s, i + 2, false, output + "  ")
    ensures inComment && !Closes(s, i) ==>
              Stripped(s, i + 1, true, output + [if IsNewline(s[i]) then s[i] else ' '])
    ensures !inComment && Opens(s, i) ==> Stripped(s, i + 2, true, output + "  ")
    ensures !inComment && !Opens(s, i) ==> Stripped(s, i + 1, false, output + [s[i]])
  {
    StripAt(s, i, inComment);
    hide Strip;
    if (inComment && Closes(s, i)) || (!inComment && Opens(s, i)) {
      ConcatAssociates(output, "  ", Strip(s[i + 2..], !inComment));
    } else {
      var c := if inComment && !IsNewline(s[i]) then ' ' else s[i];
      ConcatAssociates(output, [c], Strip(s[i + 1..], inComment));
    }
  }

  lemma StripBegins(s: string)
    ensures Stripped(s, 0, false, "")
    ensures forall inComment, output: string :: Stripped(s, |s|, inComment, output) ==> output == Strip(s, false)
  {
    assert s[0..] == s && s[|s|..] == [];
  }

  method StripCssComments(input: string) returns (output: string)
    ensures output == Strip(input, false)
  {
    hide Stripped;
    output := "";
    var i := 0;
    var inComment := false;
    StripBegins(input);
    while i < |input|
      invariant i <= |input|
      invariant Stripped(input, i, inComment, output)
    {
      StripStep(input, i, inComment, output);
      var ch := input[i];
      var next := i + 1;
      if inComment {
        if ch == '*' && next < |input| && input[next] == '/' {
          output := output + "  ";
          i := i + 2;
          inComment := false;
          continue;
        }
        output := output + [if ch == '\n' || ch == '\r' then ch else ' '];
        i := i + 1;
        continue;
      }
      if ch == '/' && next < |input| && input[next] == '*' {
        output := output + "  ";
        i := i + 2;
        inComment := true;
        continue;
      }
      output := output + [ch];
      i := i + 1;
    }
  }

  /**
   Same length, and each character is kept or replaced by a blank; newlines are never replaced, so
   they sit where they were.
   */
  lemma {:induction false} StripKeepsLayout(s: string, inComment: bool)
    ensures |Strip(s, inComment)| == |s|
    ensures forall i :: 0 <= i < |s| ==> Strip(s, inComment)[i] == s[i] || Strip(s, inComment)[i] == ' '
    ensures forall i :: 0 <= i < |s| ==> (IsNewline(Strip(s, inComment)[i]) <==> IsNewline(s[i]))
    ensures forall i :: 0 <= i < |s| && IsNewline(s[i]) ==> Strip(s, inComment)[i] == s[i]
  {
    if s != [] {
      if (inComment && Closes(s, 0)) || (!inComment && Opens(s, 0)) {
        StripKeepsLayout(s[2..], !inComment);
      } else {
        StripKeepsLayout(s[1..], inComment);
      }
    }
  }

  /** No comment opener survives, even when removing a comment brings two characters together. */
  lemma {:induction false} StripLeavesNoOpener(s: string, inComment: bool)
    ensures forall i :: !Opens(Strip(s, inComment), i)
    ensures inComment && s != [] ==> Strip(s, inComment)[0] != '*'
    ensures !inComment && s != [] && s[0] != '*' ==> Strip(s, inComment) != [] && Strip(s, inComment)[0] != '*'
  {
    if s != [] {
      var out := Strip(s, inComment);
      if (inComment && Closes(s, 0)) || (!inComment && Opens(s, 0)) {
        StripLeavesNoOpener(s[2..], !inComment);
        forall i: nat
          ensures !Opens(out, i)
        {
          assert i >= 2 ==> (Opens(out, i) <==> Opens(Strip(s[2..], !inComment), i - 2));
        }
      } else {
        StripLeavesNoOpener(s[1..], inComment);
        StripKeepsLayout(s[1..], inComment);
        forall i: nat
          ensures !Opens(out, i)
        {
          assert i >= 1 ==> (Opens(out, i) <==> Opens(Strip(s[1..], inComment), i - 1));
        }
      }
    }
  }

  lemma {:induction false} StripFixesCleanText(s: string)
    requires forall i :: !Opens(s, i)
    ensures Strip(s, false) == s
  {
    if s != [] {
      forall i: nat
        ensures !Opens(s[1..], i)
      {
        assert Opens(s[1..], i) <==> Opens(s, i + 1);
      }
      StripFixesCleanText(s[1..]);
    }
  }

  /** Stripping twice is stripping once. */
  lemma StripIsIdempotent(s: string)
    ensures Strip(Strip(s, false), false) == Strip(s, false)
  {
    StripLeavesNoOpener(s, false);
    StripFixesCleanText(Strip(s, false));
  }

  // ---------------------------------------------------------------------------------------------
  // Which characters are replaced
  // ---------------------------------------------------------------------------------------------

  /** Where a position of the input stands; comment marks are two characters long. */
  datatype Place = Outside | OpenerTail | Inside | CloserTail

  function PlaceAt(s: string, i: nat): Place
    requires i <= |s|
  {
    if i == 0 then Outside
    else
      match PlaceAt(s, i - 1)
      case Outside => if Opens(s, i - 1) then OpenerTail else Outside
      case OpenerTail => Inside
      case Inside => if Closes(s, i - 1) then CloserTail else Inside
      case CloserTail => Outside
  }

  /** The character belongs to a comment, its marks included. */
  predicate InComment(s: string, i: nat)
    requires i < |s|
  {
    PlaceAt(s, i) != Outside || Opens(s, i)
  }

  /** What stripping makes of the character at a position of the input. */
  function Replaced(s: string, i: nat): char
    requires i < |s|
  {
    if InComment(s, i) && !IsNewline(s[i]) then ' ' else s[i]
  }

  ghost predicate ReplacedFrom(s: string, j: nat, out: string)
    requires j <= |s|
  {
    |out| == |s| - j && forall i :: 0 <= i < |out| ==> out[i] == Replaced(s, j + i)
  }

  lemma ReplacedOne(s: string, j: nat, c: char, rest: string)
    requires j < |s| && c == Replaced(s, j) && ReplacedFrom(s, j + 1, rest)
    ensures ReplacedFrom(s, j, [c] + rest)
  {
  }

  lemma ReplacedTwo(s: string, j: nat, rest: string)
    requires j + 2 <= |s| && Replaced(s, j) == ' ' == Replaced(s, j + 1) && ReplacedFrom(s, j + 2, rest)
    ensures ReplacedFrom(s, j, "  " + rest)
  {
  }

  /** Stripping from a position on agrees with the places of the whole input. */
  lemma {:induction false} SuffixReplaces(s: string, j: nat, inComment: bool)
    requires j <= |s| && PlaceAt(s, j) == if inComment then Inside else Outside
    ensures ReplacedFrom(s, j, Strip(s[j..], inComment))
    decreases |s| - j
  {
    StripAt(s, j, inComment);
    hide Strip, ReplacedFrom;
    if j == |s| {
      NothingReplaced(s);
    } else if (inComment && Closes(s, j)) || (!inComment && Opens(s, j)) {
      assert PlaceAt(s, j + 1) == if inComment then CloserTail else OpenerTail;
      SuffixReplaces(s, j + 2, !inComment);
      ReplacedTwo(s, j, Strip(s[j + 2..], !inComment));
    } else {
      SuffixReplaces(s, j + 1, inComment);
      ReplacedOne(s, j, Replaced(s, j), Strip(s[j + 1..], inComment));
    }
  }

  lemma NothingReplaced(s: string)
    ensures ReplacedFrom(s, |s|, "")
  {
  }

  /** Stripping blanks exactly the characters of comments, newlines excepted. */
  lemma StripReplacesComments(s: string)
    ensures |Strip(s, false)| == |s|
    ensures forall i :: 0 <= i < |s| ==>
              Strip(s, false)[i] == if InComment(s, i) && !IsNewline(s[i]) then ' ' else s[i]
  {
    SuffixReplaces(s, 0, false);
    assert s[0..] == s;
    hide Strip, PlaceAt;
    forall i | 0 <= i < |s|
      ensures Strip(s, false)[i] == Replaced(s, i)
    {
      assert i - 0 == i;
    }
  }

  // ---------------------------------------------------------------------------------------------
  // Byte offsets
  // ---------------------------------------------------------------------------------------------

  /** Replacing characters by blanks keeps the byte length exactly when they were one byte wide. */
  lemma {:induction false} BlanksKeepBytesIff(a: string, b: string)
    requires |a| == |b|
    requires forall i :: 0 <= i < |a| ==> b[i] == a[i] || b[i] == ' '
    ensures ByteLen(b) <= ByteLen(a)
    ensures ByteLen(b) == ByteLen(a) <==> forall i :: 0 <= i < |a| && b[i] != a[i] ==> Utf8Len(a[i]) == 1
  {
    if a != [] {
      BlanksKeepBytesIff(a[1..], b[1..]);
      if forall i :: 0 <= i < |a| && b[i] != a[i] ==> Utf8Len(a[i]) == 1 {
        assert forall i :: 0 <= i < |a[1..]| ==> a[1..][i] == a[i + 1] && b[1..][i] == b[i + 1];
      } else {
        var i :| 0 <= i < |a| && b[i] != a[i] && Utf8Len(a[i]) != 1;
        if i > 0 {
          assert a[1..][i - 1] == a[i] && b[1..][i - 1] == b[i];
        }
      }
    }
  }

  /** Every comment character before position `k` is one byte wide. */
  ghost predicate NarrowBefore(s: string, k: nat)
    requires k <= |s|
  {
    forall i :: 0 <= i < k && InComment(s, i) ==> Utf8Len(s[i]) == 1
  }

  /** The byte offset of character `k` is the same before and after stripping. */
  ghost predicate Aligned(s: string, k: nat) {
    k <= |s| == |Strip(s, false)| && ByteLen(Strip(s, false)[..k]) == ByteLen(s[..k])
  }

  /**
   A byte offset of the stripped text is the byte offset of the same character in the input exactly
   when every comment character before it is one byte wide; otherwise it is smaller.
   */
  lemma StripKeepsByteOffsetsIff(s: string, k: nat)
    requires k <= |s|
    ensures Aligned(s, k) <==> NarrowBefore(s, k)
    ensures |Strip(s, false)| == |s| && ByteLen(Strip(s, false)[..k]) <= ByteLen(s[..k])
  {
    StripReplacesComments(s);
    hide Strip, PlaceAt;
    var a, b := s[..k], Strip(s, false)[..k];
    BlanksKeepBytesIff(a, b);
    assert forall i :: 0 <= i < k ==> a[i] == s[i] && (b[i] != a[i] ==> InComment(s, i));
    assert forall i :: 0 <= i < k && InComment(s, i) && b[i] == a[i] ==> Utf8Len(s[i]) == 1;
  }

  /** All offsets stay aligned with the input exactly when no comment has a wide character. */
  lemma AllOffsetsAlignedIff(s: string)
    ensures (forall k: nat :: k <= |s| ==> Aligned(s, k)) <==> NarrowBefore(s, |s|)
  {
    hide Aligned, InComment;
    forall k: nat | k <= |s|
      ensures Aligned(s, k) <==> NarrowBefore(s, k)
    {
      StripKeepsByteOffsetsIff(s, k);
    }
  }

  /** A two-byte letter in a comment moves every offset behind it to the front. */
  lemma WideCommentShiftsOffsets(rest: string, k: nat)
    requires 3 <= k <= 5 + |rest|
    ensures var s := "/*\U{00E9}*/" + rest;
            |Strip(s, false)| == |s| && ByteLen(Strip(s, false)[..k]) < ByteLen(s[..k])
  {
    var s := "/*\U{00E9}*/" + rest;
    StripKeepsByteOffsetsIff(s, k);
    assert PlaceAt(s, 1) == OpenerTail && PlaceAt(s, 2) == Inside;
    assert InComment(s, 2) && Utf8Len(s[2]) == 2;
  }
}
