/** Identity of media players: normalised tokens and the keys that group duplicates. */
module MediaKeys {
  import opened Support
  import opened CssText

  /** The art source is kept as a flag; the transport capabilities play no part here. */
  datatype MediaInfo = MediaInfo(
    busName: string, identity: string, browserFamily: Option<string>, ownerPid: Option<nat>,
    title: string, artist: string, playbackStatus: string, hasArt: bool)

  // ---------------------------------------------------------------------------------------------
  // Tokens
  // ---------------------------------------------------------------------------------------------

  function ToAsciiLower(c: char): char {
    if 'A' <= c <= 'Z' then c - 'A' + 'a' else c
  }

  predicate IsLowerAlphanumeric(c: char) {
    'a' <= c <= 'z' || '0' <= c <= '9'
  }

  /** Letters and digits in lower case, runs of blanks as one blank, everything else dropped. */
  function Collapse(s: string, lastSpace: bool): string {
    if s == [] then []
    else
      var lower := ToAsciiLower(s[0]);
      if IsLowerAlphanumeric(lower) then [lower] + Collapse(s[1..], false)
      else if IsWhitespace(lower) && !lastSpace then [' '] + Collapse(s[1..], true)
      else Collapse(s[1..], lastSpace)
  }

  function Token(s: string): string {
    Trim(Collapse(s, false))
  }

  method NormalizeToken(value: string) returns (token: string)
    ensures token == Token(value)
  {
    var out := "";
    var lastSpace := false;
    for i := 0 to |value|
      invariant out + Collapse(value[i..], lastSpace) == Collapse(value, false)
    {
      assert value[i..][1..] == value[i + 1..];
      var lower := ToAsciiLower(value[i]);
      if IsLowerAlphanumeric(lower) {
        out := out + [lower];
        lastSpace := false;
        continue;
      }
      if IsWhitespace(lower) && !lastSpace {
        out := out + [' '];
        lastSpace := true;
      }
    }
    assert value[|value|..] == [] && out + [] == out;
    token := Trim(out);
  }

  /** Lower-case words separated by single blanks; `lastSpace` forbids a leading blank. */
  ghost predicate Spaced(t: string, lastSpace: bool) {
    && (forall i :: 0 <= i < |t| ==> IsLowerAlphanumeric(t[i]) || t[i] == ' ')
    && (forall i :: 0 <= i < |t| - 1 ==> !(t[i] == ' ' && t[i + 1] == ' '))
    && (lastSpace && t != [] ==> t[0] != ' ')
  }

  /** What normalising gives: words separated by single blanks, none at the ends. */
  ghost predicate IsToken(t: string) {
    Spaced(t, true) && (t != [] ==> t[|t| - 1] != ' ')
  }

  lemma {:induction false} CollapseSpaces(s: string, lastSpace: bool)
    ensures Spaced(Collapse(s, lastSpace), lastSpace)
  {
    if s != [] {
      var lower := ToAsciiLower(s[0]);
      if IsLowerAlphanumeric(lower) {
        CollapseSpaces(s[1..], false);
      } else if IsWhitespace(lower) && !lastSpace {
        CollapseSpaces(s[1..], true);
      } else {
        CollapseSpaces(s[1..], lastSpace);
      }
    }
  }

  lemma TokenIsToken(s: string)
    ensures IsToken(Token(s))
  {
    var c := Collapse(s, false);
    CollapseSpaces(s, false);
    var lead, tail := TrimSplits(c);
    var t := Token(s);
    assert c == lead + t + tail;
    assert forall i :: 0 <= i < |t| ==> t[i] == c[|lead| + i];
  }

  /** The letters and digits of a text, in lower case. */
  function Letters(s: string): string {
    if s == [] then []
    else
      var lower := ToAsciiLower(s[0]);
      (if IsLowerAlphanumeric(lower) then [lower] else []) + Letters(s[1..])
  }

  lemma {:induction false} LettersConcat(a: string, b: string)
    ensures Letters(a + b) == Letters(a) + Letters(b)
  {
    if a == [] {
      assert a + b == b;
    } else {
      hide Letters;
      var c, t := a[0], a[1..];
      LettersConcat(t, b);
      LettersUnfold(c, t);
      LettersUnfold(c, t + b);
      assert [c] + t == a;
      ConcatAssociates([c], t, b);
      ConcatAssociates(Letters([c]), Letters(t), Letters(b));
    }
  }

  lemma LettersUnfold(c: char, s: string)
    ensures Letters([c] + s) == Letters([c]) + Letters(s)
  {
    assert ([c] + s)[1..] == s;
  }

  lemma {:induction false} BlanksHaveNoLetters(s: string)
    requires Blank(s)
    ensures Letters(s) == []
  {
    if s != [] {
      assert IsWhitespace(s[0]);
      BlanksHaveNoLetters(s[1..]);
    }
  }

  lemma {:induction false} CollapseKeepsLetters(s: string, lastSpace: bool)
    ensures Letters(Collapse(s, lastSpace)) == Letters(s)
  {
    if s != [] {
      var lower := ToAsciiLower(s[0]);
      if IsLowerAlphanumeric(lower) {
        CollapseKeepsLetters(s[1..], false);
        LettersConcat([lower], Collapse(s[1..], false));
      } else if IsWhitespace(lower) && !lastSpace {
        CollapseKeepsLetters(s[1..], true);
        LettersConcat([' '], Collapse(s[1..], true));
      } else {
        CollapseKeepsLetters(s[1..], lastSpace);
      }
    }
  }

  /** Normalising keeps every letter and digit, in order and in lower case. */
  lemma TokenKeepsLetters(s: string)
    ensures Letters(Token(s)) == Letters(s)
  {
    var c := Collapse(s, false);
    CollapseKeepsLetters(s, false);
    var lead, tail := TrimSplits(c);
    LettersConcat(lead + Token(s), tail);
    LettersConcat(lead, Token(s));
    BlanksHaveNoLetters(lead);
    BlanksHaveNoLetters(tail);
  }

  lemma {:induction false} CollapseFixes(t: string, lastSpace: bool)
    requires Spaced(t, lastSpace)
    ensures Collapse(t, lastSpace) == t
  {
    if t != [] {
      assert forall i :: 0 <= i < |t[1..]| ==> t[1..][i] == t[i + 1];
      CollapseFixes(t[1..], t[0] == ' ');
    }
  }

  /** Tokens are their own tokens: normalising twice is normalising once. */
  lemma TokenIsFixed(t: string)
    requires IsToken(t)
    ensures Token(t) == t
  {
    hide Collapse, TrimStart, TrimEnd;
    CollapseFixes(t, false);
    assert "" + t + "" == t;
    TrimFinds("", t, "");
  }

  lemma NormalizeTokenIsIdempotent(s: string)
    ensures Token(Token(s)) == Token(s)
  {
    TokenIsToken(s);
    TokenIsFixed(Token(s));
  }

  // ---------------------------------------------------------------------------------------------
  // Tokens in terms of ASCII
  // ---------------------------------------------------------------------------------------------

  predicate LetterOrDigit(c: char) {
    'a' <= c <= 'z' || 'A' <= c <= 'Z' || '0' <= c <= '9'
  }

  function Lower(c: char): char {
    if c as int >= 0x41 && c as int <= 0x5A then (c as int + 0x20) as char else c
  }

  /** The letters and digits a token keeps are the ASCII ones, and only capitals change. */
  lemma {:induction false} LettersAreAscii(s: string)
    ensures Letters(s) == Map(Lower, Filter(LetterOrDigit, s))
  {
    if s != [] {
      LettersAreAscii(s[1..]);
      var rest := Filter(LetterOrDigit, s[1..]);
      if LetterOrDigit(s[0]) {
        assert ToAsciiLower(s[0]) == Lower(s[0]) && IsLowerAlphanumeric(ToAsciiLower(s[0]));
        assert Filter(LetterOrDigit, s) == [s[0]] + rest;
        assert Map(Lower, [s[0]] + rest) == [Lower(s[0])] + Map(Lower, rest);
      } else {
        assert !IsLowerAlphanumeric(ToAsciiLower(s[0]));
        assert Filter(LetterOrDigit, s) == [] + rest == rest;
      }
    }
  }

  /** Whether the last thing collapsed was a blank. */
  predicate AfterBlank(s: string, lastSpace: bool) {
    if s == [] then lastSpace
    else if LetterOrDigit(s[0]) then AfterBlank(s[1..], false)
    else AfterBlank(s[1..], lastSpace || s[0] as int in WHITE_SPACE)
  }

  lemma {:induction false} CollapseConcat(a: string, b: string, lastSpace: bool)
    ensures Collapse(a + b, lastSpace) == Collapse(a, lastSpace) + Collapse(b, AfterBlank(a, lastSpace))
  {
    if a == [] {
      assert a + b == b;
    } else {
      var c, t := a[0], a[1..];
      assert (a + b)[1..] == t + b;
      WhitespaceIsUnicode(c);
      assert LetterOrDigit(c) <==> IsLowerAlphanumeric(ToAsciiLower(c));
      assert !LetterOrDigit(c) ==> ToAsciiLower(c) == c;
      if LetterOrDigit(c) {
        CollapseConcat(t, b, false);
      } else {
        CollapseConcat(t, b, lastSpace || IsWhitespace(c));
      }
    }
  }

  /** What separates two words: no letter or digit. */
  ghost predicate IsGap(w: string) {
    forall i :: 0 <= i < |w| ==> !LetterOrDigit(w[i])
  }

  ghost predicate HasBlank(w: string) {
    exists i :: 0 <= i < |w| && w[i] as int in WHITE_SPACE
  }

  lemma {:induction false} GapCollapses(w: string, lastSpace: bool)
    requires IsGap(w)
    ensures Collapse(w, lastSpace) == if HasBlank(w) && !lastSpace then " " else ""
    ensures AfterBlank(w, lastSpace) == (lastSpace || HasBlank(w))
  {
    if w != [] {
      var c := w[0];
      WhitespaceIsUnicode(c);
      assert !LetterOrDigit(c);
      assert !IsLowerAlphanumeric(ToAsciiLower(c)) && ToAsciiLower(c) == c;
      assert forall i :: 0 <= i < |w[1..]| ==> w[1..][i] == w[i + 1];
      assert HasBlank(w) <==> c as int in WHITE_SPACE || HasBlank(w[1..]) by {
        if i :| 0 <= i < |w| && w[i] as int in WHITE_SPACE && i > 0 {
          assert w[1..][i - 1] as int in WHITE_SPACE;
        }
      }
      GapCollapses(w[1..], lastSpace || IsWhitespace(c));
    }
  }

  lemma LastLetter(a: string)
    requires a != [] && LetterOrDigit(a[|a| - 1])
    ensures !AfterBlank(a, false)
    ensures Collapse(a, false) != [] && !IsWhitespace(Collapse(a, false)[|Collapse(a, false)| - 1])
  {
    var init, last := a[..|a| - 1], a[|a| - 1];
    assert a == init + [last] && [last][1..] == [];
    CollapseConcat(init, [last], false);
    assert Collapse([last], AfterBlank(init, false)) == [ToAsciiLower(last)];
    AfterBlankSnoc(init, last, false);
  }

  lemma {:induction false} AfterBlankSnoc(a: string, c: char, lastSpace: bool)
    requires LetterOrDigit(c)
    ensures !AfterBlank(a + [c], lastSpace)
  {
    if a == [] {
      assert a + [c] == [c] && [c][1..] == [];
    } else {
      assert (a + [c])[1..] == a[1..] + [c];
      AfterBlankSnoc(a[1..], c, if LetterOrDigit(a[0]) then false else lastSpace || a[0] as int in WHITE_SPACE);
    }
  }

  lemma {:induction false} TrimStartConcat(a: string, b: string)
    requires a != [] && !IsWhitespace(a[|a| - 1])
    ensures TrimStart(a + b) == TrimStart(a) + b
  {
    if IsWhitespace(a[0]) {
      assert (a + b)[1..] == a[1..] + b;
      TrimStartConcat(a[1..], b);
    }
  }

  lemma {:induction false} TrimEndConcat(a: string, b: string)
    requires b != [] && !IsWhitespace(b[0])
    ensures TrimEnd(a + b) == a + TrimEnd(b)
  {
    if IsWhitespace(b[|b| - 1]) {
      assert (a + b)[..|a + b| - 1] == a + b[..|b| - 1];
      TrimEndConcat(a, b[..|b| - 1]);
    }
  }

  lemma {:induction false} TrimStartKeepsEnd(a: string)
    requires a != [] && !IsWhitespace(a[|a| - 1])
    ensures TrimStart(a) != [] && TrimStart(a)[|TrimStart(a)| - 1] == a[|a| - 1]
  {
    if IsWhitespace(a[0]) {
      TrimStartKeepsEnd(a[1..]);
    }
  }

  lemma {:induction false} TrimEndKeepsStart(b: string)
    requires b != [] && !IsWhitespace(b[0])
    ensures TrimEnd(b) != [] && TrimEnd(b)[0] == b[0]
  {
    if IsWhitespace(b[|b| - 1]) {
      TrimEndKeepsStart(b[..|b| - 1]);
    }
  }

  /** Trimming two texts around a gap trims their outer ends only. */
  lemma TrimAround(a: string, gap: string, b: string)
    requires a != [] && !IsWhitespace(a[|a| - 1]) && b != [] && !IsWhitespace(b[0])
    ensures Trim(a + gap + b) == Trim(a) + gap + Trim(b)
  {
    hide TrimStart, TrimEnd, IsWhitespace;
    ConcatAssociates(a, gap, b);
    TrimStartConcat(a, gap + b);
    TrimStartKeepsEnd(a);
    TrimEndKeepsStart(b);
    var start := TrimStart(a);
    ConcatAssociates(start, gap, b);
    TrimEndConcat(start + gap, b);
    NothingToTrim(start, b);
  }

  lemma NothingToTrim(a: string, b: string)
    ensures a != [] && !IsWhitespace(a[|a| - 1]) ==> TrimEnd(a) == a
    ensures b != [] && !IsWhitespace(b[0]) ==> TrimStart(b) == b
  {
  }

  /** Two words stay apart when a blank was between them, and grow together when only marks were. */
  lemma WordsStayApart(a: string, gap: string, b: string)
    requires a != [] && LetterOrDigit(a[|a| - 1]) && b != [] && LetterOrDigit(b[0]) && IsGap(gap)
    ensures Token(a + gap + b) == Token(a) + (if HasBlank(gap) then " " else "") + Token(b)
  {
    LastLetter(a);
    GapCollapses(gap, false);
    CollapseConcat(a + gap, b, false);
    CollapseConcat(a, gap, false);
    AfterGap(a, gap, false);
    FirstLetter(b, HasBlank(gap));
    var between := if HasBlank(gap) then " " else "";
    TrimAround(Collapse(a, false), between, Collapse(b, false));
  }

  lemma {:induction false} AfterGap(a: string, gap: string, lastSpace: bool)
    ensures AfterBlank(a + gap, lastSpace) == AfterBlank(gap, AfterBlank(a, lastSpace))
  {
    if a == [] {
      assert a + gap == gap;
    } else {
      assert (a + gap)[1..] == a[1..] + gap;
      AfterGap(a[1..], gap, if LetterOrDigit(a[0]) then false else lastSpace || a[0] as int in WHITE_SPACE);
    }
  }

  lemma FirstLetter(b: string, lastSpace: bool)
    requires b != [] && LetterOrDigit(b[0])
    ensures Collapse(b, lastSpace) == Collapse(b, false) != []
    ensures !IsWhitespace(Collapse(b, false)[0])
  {
    assert IsLowerAlphanumeric(ToAsciiLower(b[0]));
  }

  // ---------------------------------------------------------------------------------------------
  // Keys
  // ---------------------------------------------------------------------------------------------

  function Digit(d: nat): char
    requires d < 10
  {
    '0' + d as char
  }

  /** Display of an unsigned number. */
  function Decimal(n: nat): string {
    if n < 10 then [Digit(n)] else Decimal(n / 10) + [Digit(n % 10)]
  }

  function DedupeKey(info: MediaInfo): Option<string> {
    var title := Trim(info.title);
    if info.browserFamily.Some? then
      if info.ownerPid.Some? then Some("browser-pid:" + Decimal(info.ownerPid.value))
      else if title != "" then Some("browser-track\n" + Token(title) + "\n" + Token(Trim(info.artist)))
      else Some("browser:" + info.browserFamily.value)
    else if title == "" then None
    else Some(Token(Trim(info.identity)) + "\n" + Token(title) + "\n" + Token(Trim(info.artist)))
  }

  /** What two duplicates have in common. */
  datatype Source =
    | Unknown
    | Process(pid: nat)
    | Track(title: string, artist: string)
    | Family(family: string)
    | Player(identity: string, title: string, artist: string)

  function SourceOf(info: MediaInfo): Source {
    if info.browserFamily.Some? then
      if info.ownerPid.Some? then Process(info.ownerPid.value)
      else if Trim(info.title) != "" then Track(Token(Trim(info.title)), Token(Trim(info.artist)))
      else Family(info.browserFamily.value)
    else if Trim(info.title) == "" then Unknown
    else Player(Token(Trim(info.identity)), Token(Trim(info.title)), Token(Trim(info.artist)))
  }

  lemma {:induction false} DecimalInjective(m: nat, n: nat)
    requires Decimal(m) == Decimal(n)
    ensures m == n
  {
    var a, b := Decimal(m), Decimal(n);
    assert a[|a| - 1] == Digit(m % 10) && b[|b| - 1] == Digit(n % 10);
    assert m % 10 == n % 10;
    DecimalNonempty(m / 10);
    DecimalNonempty(n / 10);
    if m >= 10 && n >= 10 {
      assert a[..|a| - 1] == Decimal(m / 10) && b[..|b| - 1] == Decimal(n / 10);
      DecimalInjective(m / 10, n / 10);
    }
  }

  lemma DecimalNonempty(n: nat)
    ensures |Decimal(n)| >= 1
  {
  }

  /** A separator that is in neither head splits a text in one way only. */
  lemma SplitAtLine(a: string, b: string, x: string, y: string)
    requires '\n' !in a && '\n' !in b && a + "\n" + x == b + "\n" + y
    ensures a == b && x == y
  {
    var s, t := a + "\n" + x, b + "\n" + y;
    assert forall i :: 0 <= i < |a| ==> s[i] == a[i] && a[i] != '\n';
    assert forall i :: 0 <= i < |b| ==> t[i] == b[i] && b[i] != '\n';
    assert s[|a|] == '\n' && t[|b|] == '\n';
    assert |a| == |b|;
    assert a == s[..|a|] && b == t[..|b|];
    assert x == s[|a| + 1..] && y == t[|b| + 1..];
  }

  /** The text of the key of a source. */
  function Render(source: Source): string
    requires !source.Unknown?
  {
    match source
    case Process(pid) => "browser-pid:" + Decimal(pid)
    case Track(title, artist) => "browser-track\n" + title + "\n" + artist
    case Family(family) => "browser:" + family
    case Player(identity, title, artist) => identity + "\n" + title + "\n" + artist
  }

  ghost predicate IsSource(source: Source) {
    match source
    case Track(title, artist) => IsToken(title) && IsToken(artist)
    case Player(identity, title, artist) => IsToken(identity) && IsToken(title) && IsToken(artist)
    case _ => true
  }

  lemma SourceIsSource(info: MediaInfo)
    ensures IsSource(SourceOf(info))
    ensures DedupeKey(info) == if SourceOf(info).Unknown? then None else Some(Render(SourceOf(info)))
  {
    TokenIsToken(Trim(info.title));
    TokenIsToken(Trim(info.artist));
    TokenIsToken(Trim(info.identity));
  }

  /** Characters 7 and 8 tell the three browser forms apart. */
  lemma BrowserForms(source: Source)
    requires source.Process? || source.Track? || source.Family?
    ensures |Render(source)| >= 8 && Render(source)[7] == if source.Family? then ':' else '-'
    ensures source.Process? ==> |Render(source)| > 8 && Render(source)[8] == 'p'
    ensures source.Track? ==> |Render(source)| > 8 && Render(source)[8] == 't'
  {
  }

  /** No token has the mark the browser forms have at character 7. */
  lemma PlayerForm(source: Source)
    requires source.Player? && IsSource(source)
    ensures |Render(source)| >= 8 ==> Render(source)[7] != '-' && Render(source)[7] != ':'
  {
  }

  lemma FormsDiffer(a: Source, b: Source)
    requires IsSource(a) && IsSource(b) && !a.Unknown? && !b.Unknown? && Render(a) == Render(b)
    ensures a.Process? == b.Process? && a.Track? == b.Track? && a.Family? == b.Family?
  {
    if a.Player? {
      PlayerForm(a);
      if !b.Player? {
        BrowserForms(b);
      }
    } else {
      BrowserForms(a);
      if b.Player? {
        PlayerForm(b);
      } else {
        BrowserForms(b);
      }
    }
  }

  /** The parts of a key text are single lines. */
  lemma SourceLines(source: Source)
    requires IsSource(source)
    ensures source.Track? ==> '\n' !in source.title
    ensures source.Player? ==> '\n' !in source.identity && '\n' !in source.title
  {
  }

  lemma DropHead(head: string, x: string, y: string)
    requires head + x == head + y
    ensures x == y
  {
    assert (head + x)[|head|..] == x && (head + y)[|head|..] == y;
  }

  lemma TrackInjective(a: Source, b: Source)
    requires a.Track? && b.Track? && '\n' !in a.title && '\n' !in b.title && Render(a) == Render(b)
    ensures a == b
  {
    var x, y := a.title + "\n" + a.artist, b.title + "\n" + b.artist;
    assert Render(a) == "browser-track\n" + x && Render(b) == "browser-track\n" + y;
    DropHead("browser-track\n", x, y);
    SplitAtLine(a.title, b.title, a.artist, b.artist);
  }

  lemma PlayerInjective(a: Source, b: Source)
    requires a.Player? && b.Player? && '\n' !in a.title && '\n' !in b.title
    requires '\n' !in a.identity && '\n' !in b.identity && Render(a) == Render(b)
    ensures a == b
  {
    var x, y := a.title + "\n" + a.artist, b.title + "\n" + b.artist;
    assert Render(a) == a.identity + "\n" + x && Render(b) == b.identity + "\n" + y;
    SplitAtLine(a.identity, b.identity, x, y);
    SplitAtLine(a.title, b.title, a.artist, b.artist);
  }

  lemma RenderInjective(a: Source, b: Source)
    requires IsSource(a) && IsSource(b) && !a.Unknown? && !b.Unknown? && Render(a) == Render(b)
    ensures a == b
  {
    FormsDiffer(a, b);
    SourceLines(a);
    SourceLines(b);
    hide Decimal, IsToken, IsSource;
    match a
    case Process(pid) =>
      DropHead("browser-pid:", Decimal(pid), Decimal(b.pid));
      DecimalInjective(pid, b.pid);
    case Family(family) =>
      DropHead("browser:", family, b.family);
    case Track(_, _) => TrackInjective(a, b);
    case Player(_, _, _) => PlayerInjective(a, b);
  }

  /** The same in terms of the players' fields. */
  lemma KeysMeanFields(a: MediaInfo, b: MediaInfo)
    ensures DedupeKey(a).None? <==> a.browserFamily.None? && Trim(a.title) == ""
    ensures DedupeKey(a).Some? && DedupeKey(b).Some? ==>
              (DedupeKey(a) == DedupeKey(b) <==>
                && a.browserFamily.Some? == b.browserFamily.Some?
                && (if a.browserFamily.Some? && (a.ownerPid.Some? || b.ownerPid.Some?) then a.ownerPid == b.ownerPid
                    else
                      && (Trim(a.title) == "" <==> Trim(b.title) == "")
                      && (if Trim(a.title) == "" then a.browserFamily == b.browserFamily
                          else
                            && Token(Trim(a.title)) == Token(Trim(b.title))
                            && Token(Trim(a.artist)) == Token(Trim(b.artist))
                            && (a.browserFamily.None? ==> Token(Trim(a.identity)) == Token(Trim(b.identity))))))
  {
    KeysMeanSources(a, b);
  }

  /**
   Two players share a key exactly when they have the same source: the key text cannot confuse
   kinds of keys, fields or process numbers.
   */
  lemma KeysMeanSources(a: MediaInfo, b: MediaInfo)
    ensures DedupeKey(a) == DedupeKey(b) <==> SourceOf(a) == SourceOf(b)
    ensures DedupeKey(a).None? <==> SourceOf(a).Unknown?
  {
    SourceIsSource(a);
    SourceIsSource(b);
    if DedupeKey(a).Some? && DedupeKey(a) == DedupeKey(b) {
      RenderInjective(SourceOf(a), SourceOf(b));
    }
  }
}
