/** What stripping does to a text written as plain text, comment, and the rest. */
module CssComments {
  import opened Support
  import opened CssText

  /** The two characters stand next to each other somewhere. */
  ghost predicate HasPair(s: string, a: char, b: char) {
    exists i :: 0 <= i < |s| - 1 && PairAt(s, i, a, b)
  }

  predicate PairAt(s: string, i: int, a: char, b: char) {
    0 <= i < |s| - 1 && s[i] == a && s[i + 1] == b
  }

  function Blanked(s: string): string {
    if s == [] then []
    else [if s[0] == '\n' || s[0] == '\r' then s[0] else ' '] + Blanked(s[1..])
  }

  lemma HasPairTail(s: string, a: char, b: char)
    requires s != [] && !HasPair(s, a, b)
    ensures !HasPair(s[1..], a, b)
    ensures |s| > 1 ==> !(s[0] == a && s[1] == b)
  {
    if i :| 0 <= i < |s[1..]| - 1 && PairAt(s[1..], i, a, b) {
      assert PairAt(s, i + 1, a, b);
    }
    assert PairAt(s, 0, a, b) <==> |s| > 1 && s[0] == a && s[1] == b;
  }

  /** Text before the first comment opener stays; the opener becomes two blanks. */
  lemma {:induction false} OpenerOpens(before: string, rest: string)
    requires !HasPair(before, '/', '*')
    ensures Strip(before + "/*" + rest, false) == before + "  " + Strip(rest, true)
  {
    var s := before + "/*" + rest;
    if before == [] {
      assert s == "/*" + rest && s[2..] == rest;
      assert s[0] == '/' && s[1] == '*';
    } else {
      HasPairTail(before, '/', '*');
      OpenerOpens(before[1..], rest);
      assert s[0] == before[0] && s[1..] == before[1..] + "/*" + rest;
      assert s[1] == if |before| > 1 then before[1] else '/';
      assert !Opens(s, 0);
      assert [before[0]] + (before[1..] + "  " + Strip(rest, true)) == before + "  " + Strip(rest, true);
    }
  }

  /** Text of a comment becomes blanks with its line ends; the first closer ends it. */
  lemma {:induction false} CloserCloses(inside: string, rest: string)
    requires !HasPair(inside, '*', '/')
    ensures Strip(inside + "*/" + rest, true) == Blanked(inside) + "  " + Strip(rest, false)
  {
    var s := inside + "*/" + rest;
    if inside == [] {
      assert s == "*/" + rest && s[2..] == rest;
      assert s[0] == '*' && s[1] == '/';
    } else {
      HasPairTail(inside, '*', '/');
      CloserCloses(inside[1..], rest);
      assert s[0] == inside[0] && s[1..] == inside[1..] + "*/" + rest;
      assert s[1] == if |inside| > 1 then inside[1] else '*';
      assert !Closes(s, 0);
      var c := [if inside[0] == '\n' || inside[0] == '\r' then inside[0] else ' '];
      assert c + (Blanked(inside[1..]) + "  " + Strip(rest, false)) == Blanked(inside) + "  " + Strip(rest, false);
    }
  }

  lemma {:induction false} OpenCommentBlanks(inside: string)
    requires !HasPair(inside, '*', '/')
    ensures Strip(inside, true) == Blanked(inside)
  {
    if inside != [] {
      HasPairTail(inside, '*', '/');
      OpenCommentBlanks(inside[1..]);
    }
  }

  lemma {:induction false} NoOpenerStays(s: string)
    requires !HasPair(s, '/', '*')
    ensures Strip(s, false) == s
  {
    if s != [] {
      HasPairTail(s, '/', '*');
      NoOpenerStays(s[1..]);
    }
  }

  /**
   A comment and its marks become blanks, line ends excepted; the text before it stays, and the text
   behind it is stripped on its own. An unfinished comment reaches to the end.
   */
  lemma CommentIsBlanked(before: string, inside: string, rest: string)
    requires !HasPair(before, '/', '*') && !HasPair(inside, '*', '/')
    ensures Strip(before + "/*" + inside + "*/" + rest, false)
         == before + "  " + Blanked(inside) + "  " + Strip(rest, false)
    ensures Strip(before + "/*" + inside, false) == before + "  " + Blanked(inside)
    ensures Strip(before, false) == before
  {
    hide Strip, Blanked;
    OpenerOpens(before, inside + "*/" + rest);
    CloserCloses(inside, rest);
    OpenerOpens(before, inside);
    OpenCommentBlanks(inside);
    NoOpenerStays(before);
    FourParts(before + "/*", inside, "*/", rest);
    FourParts(before + "  ", Blanked(inside), "  ", Strip(rest, false));
  }

  lemma FourParts(a: string, b: string, c: string, d: string)
    ensures a + b + c + d == a + (b + c + d)
  {
  }
}
