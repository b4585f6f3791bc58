/**
 * The roadmap's milestone table: the renderer and the shape check that reads it back
 * (tools/ci/roadmap_render.py).
 *
 * The renderer escapes characters going forwards; the check counts backslashes going backwards.
 */
module Roadmap {
  import opened Prelude

  // ----- characters and text -----

  predicate IsLineBreak(c: char) {
    || '\n' <= c <= '\r'
    || 0x1C as char <= c <= 0x1E as char
    || c == 0x85 as char
    || c == 0x2028 as char
    || c == 0x2029 as char
  }

  predicate IsSpace(c: char) {
    IsLineBreak(c) || c == ' ' || c == '\t' || c == 0x1F as char || c == 0xA0 as char || c == 0x1680 as char
    || 0x2000 as char <= c <= 0x200A as char || c == 0x202F as char || c == 0x205F as char || c == 0x3000 as char
  }

  predicate IsDigit(c: char) {
    '0' <= c <= '9'
  }

  predicate AllDigits(s: string) {
    s != "" && forall i :: 0 <= i < |s| ==> IsDigit(s[i])
  }

  predicate NoLineBreak(s: string) {
    forall i :: 0 <= i < |s| ==> !IsLineBreak(s[i])
  }

  /** No blank at either end. */
  predicate IsTrim(s: string) {
    s == "" || (!IsSpace(s[0]) && !IsSpace(s[|s| - 1]))
  }

  function StripLeft(s: string): string {
    if s != "" && IsSpace(s[0]) then StripLeft(s[1..]) else s
  }

  function StripRight(s: string): string {
    if s != "" && IsSpace(s[|s| - 1]) then StripRight(s[..|s| - 1]) else s
  }

  function Strip(s: string): string {
    StripRight(StripLeft(s))
  }

  lemma {:induction false} StripLeftTrims(s: string)
    ensures StripLeft(s) != "" ==> !IsSpace(StripLeft(s)[0])
  {
    if s != "" && IsSpace(s[0]) {
      StripLeftTrims(s[1..]);
    }
  }

  lemma {:induction false} StripRightTrims(s: string)
    ensures StripRight(s) != "" ==> !IsSpace(StripRight(s)[|StripRight(s)| - 1])
    ensures StripRight(s) != "" ==> s != "" && StripRight(s)[0] == s[0]
  {
    if s != "" && IsSpace(s[|s| - 1]) {
      StripRightTrims(s[..|s| - 1]);
    }
  }

  lemma StripTrims(s: string)
    ensures IsTrim(Strip(s))
    ensures IsTrim(s) ==> Strip(s) == s
  {
    StripLeftTrims(s);
    StripRightTrims(StripLeft(s));
  }

  predicate IsBlank(s: string) {
    forall i :: 0 <= i < |s| ==> IsSpace(s[i])
  }

  lemma {:induction false} StripLeftDrops(s: string) returns (before: string)
    ensures IsBlank(before) && s == before + StripLeft(s)
  {
    before := "";
    if s != "" && IsSpace(s[0]) {
      var rest := StripLeftDrops(s[1..]);
      before := [s[0]] + rest;
      assert s == [s[0]] + s[1..];
    }
  }

  lemma {:induction false} StripRightDrops(s: string) returns (after: string)
    ensures IsBlank(after) && s == StripRight(s) + after
  {
    after := "";
    if s != "" && IsSpace(s[|s| - 1]) {
      var rest := StripRightDrops(s[..|s| - 1]);
      after := rest + [s[|s| - 1]];
      assert s == s[..|s| - 1] + [s[|s| - 1]];
    }
  }

  /** Stripping drops blanks at both ends, and nothing else. */
  lemma StripDrops(s: string) returns (before: string, after: string)
    ensures IsBlank(before) && IsBlank(after) && s == before + (Strip(s) + after) && IsTrim(Strip(s))
  {
    before := StripLeftDrops(s);
    after := StripRightDrops(StripLeft(s));
    StripTrims(s);
  }

  function Decimal(n: nat): string {
    if n < 10 then [('0' as int + n) as char] else Decimal(n / 10) + [('0' as int + n % 10) as char]
  }

  /** The number a run of digits stands for. */
  function Value(s: string): int {
    if s == "" then 0 else 10 * Value(s[..|s| - 1]) + (s[|s| - 1] as int - '0' as int)
  }

  lemma {:induction false} DecimalReadsBack(n: nat)
    ensures AllDigits(Decimal(n)) && Value(Decimal(n)) == n
  {
    if n >= 10 {
      DecimalReadsBack(n / 10);
      var d := ('0' as int + n % 10) as char;
      assert Decimal(n)[..|Decimal(n)| - 1] == Decimal(n / 10);
    } else {
      assert Decimal(n)[..0] == "";
    }
  }

  function IntText(i: int): string {
    if i < 0 then "-" + Decimal(-i) else Decimal(i)
  }

  // ----- escaping -----

  /** The length of the run of backslashes that ends just before position i. */
  function Run(s: string, i: nat): nat
    requires i <= |s|
  {
    if i > 0 && s[i - 1] == '\\' then Run(s, i - 1) + 1 else 0
  }

  predicate IsEscaped(s: string, i: nat)
    requires i < |s|
  {
    Run(s, i) % 2 == 1
  }

  predicate AllEscaped(s: string, chars: set<char>) {
    forall i :: 0 <= i < |s| && s[i] in chars ==> IsEscaped(s, i)
  }

  /** Every listed character that is not escaped yet gets a backslash. */
  function Escape(s: string, chars: set<char>): string {
    if s == "" then "" else
    var init, c := s[..|s| - 1], s[|s| - 1];
    Escape(init, chars) + (if c in chars && Run(s, |s| - 1) % 2 == 0 then ['\\', c] else [c])
  }

  method EscapeCell(text: string, chars: set<char>) returns (escaped: string)
    ensures escaped == Escape(text, chars)
  {
    escaped := "";
    var run := 0;
    for i := 0 to |text|
      invariant escaped == Escape(text[..i], chars)
      invariant run == Run(text, i)
    {
      var c := text[i];
      RunOfPrefix(text, text[..i + 1], i);
      assert text[..i + 1][..i] == text[..i];
      if c in chars && run % 2 == 0 {
        escaped := escaped + "\\";
      }
      escaped := escaped + [c];
      run := if c == '\\' then run + 1 else 0;
    }
    assert text[..|text|] == text;
  }

  /** A run depends on the text before it only. */
  lemma {:induction false} RunOfPrefix(s: string, t: string, i: nat)
    requires i <= |s| && i <= |t| && forall k :: 0 <= k < i ==> s[k] == t[k]
    ensures Run(s, i) == Run(t, i)
  {
    if i > 0 {
      RunOfPrefix(s, t, i - 1);
    }
  }

  lemma RunAppend(s: string, t: string)
    ensures Run(s + t, |s|) == Run(s, |s|)
  {
    RunOfPrefix(s + t, s, |s|);
  }

  /** Escaping keeps the run of backslashes the text ends with. */
  lemma {:induction false} EscapeKeepsEndRun(s: string, chars: set<char>)
    requires '\\' !in chars
    ensures Run(Escape(s, chars), |Escape(s, chars)|) == Run(s, |s|)
  {
    if s != "" {
      var init, c := s[..|s| - 1], s[|s| - 1];
      EscapeKeepsEndRun(init, chars);
      RunOfPrefix(s, init, |init|);
      if c == '\\' {
        RunAppend(Escape(init, chars), [c]);
      }
    }
  }

  /** After escaping, every listed character is escaped as a backward count of backslashes judges it. */
  lemma {:induction false} EscapeEscapesAll(s: string, chars: set<char>)
    requires '\\' !in chars
    ensures AllEscaped(Escape(s, chars), chars)
  {
    if s != "" {
      var init, c := s[..|s| - 1], s[|s| - 1];
      var e, t := Escape(init, chars), Escape(s, chars);
      EscapeEscapesAll(init, chars);
      EscapeKeepsEndRun(init, chars);
      RunOfPrefix(s, init, |init|);
      forall i | 0 <= i < |t| && t[i] in chars ensures IsEscaped(t, i) {
        if i < |e| {
          RunOfPrefix(t, e, i);
          assert IsEscaped(e, i);
        } else {
          RunOfPrefix(t, e, |e|);
        }
      }
    }
  }

  lemma AllEscapedSplits(init: string, c: char, chars: set<char>)
    ensures AllEscaped(init + [c], chars) <==> AllEscaped(init, chars) && (c in chars ==> Run(init, |init|) % 2 == 1)
  {
    var s := init + [c];
    forall i | 0 <= i < |init| ensures s[i] == init[i] && (IsEscaped(s, i) <==> IsEscaped(init, i)) {
      RunOfPrefix(s, init, i);
    }
    RunOfPrefix(s, init, |init|);
    assert s[|init|] == c && (IsEscaped(s, |init|) <==> Run(init, |init|) % 2 == 1);
    if AllEscaped(s, chars) {
      forall i | 0 <= i < |init| && init[i] in chars ensures IsEscaped(init, i) {
        assert s[i] in chars;
      }
    }
  }

  /** Escaping leaves a text alone exactly when nothing in it is unescaped. */
  lemma {:induction false} EscapeIsIdentityIff(s: string, chars: set<char>)
    ensures Escape(s, chars) == s <==> AllEscaped(s, chars)
    ensures |Escape(s, chars)| >= |s|
  {
    if s != "" {
      var init, c := s[..|s| - 1], s[|s| - 1];
      var e, t := Escape(init, chars), Escape(s, chars);
      assert s == init + [c];
      EscapeIsIdentityIff(init, chars);
      AllEscapedSplits(init, c, chars);
      RunAppend(init, [c]);
      if |t| == |s| {
        assert t == e + [c];
        assert t == s ==> e == init by {
          assert e == t[..|init|];
        }
      }
    }
  }

  lemma EscapeIsIdempotent(s: string, chars: set<char>)
    requires '\\' !in chars
    ensures Escape(Escape(s, chars), chars) == Escape(s, chars)
  {
    EscapeEscapesAll(s, chars);
    EscapeIsIdentityIff(Escape(s, chars), chars);
  }

  /** The second text is the first with backslashes put before some listed characters. */
  ghost predicate OnlyInserts(s: string, t: string, chars: set<char>) {
    if s == "" then t == ""
    else
      var init, c := s[..|s| - 1], s[|s| - 1];
      || (|t| >= 1 && t[|t| - 1] == c && OnlyInserts(init, t[..|t| - 1], chars))
      || (|t| >= 2 && c in chars && t[|t| - 2..] == ['\\', c] && OnlyInserts(init, t[..|t| - 2], chars))
  }

  lemma {:induction false} EscapeOnlyInserts(s: string, chars: set<char>)
    ensures OnlyInserts(s, Escape(s, chars), chars)
  {
    if s != "" {
      var init, c := s[..|s| - 1], s[|s| - 1];
      var e, t := Escape(init, chars), Escape(s, chars);
      EscapeOnlyInserts(init, chars);
      if c in chars && Run(s, |s| - 1) % 2 == 0 {
        assert t == e + ['\\', c];
        assert t[..|t| - 2] == e && t[|t| - 2..] == ['\\', c];
      } else {
        assert t == e + [c];
        assert t[..|t| - 1] == e;
      }
    }
  }

  method HasUnescapedPipe(text: string) returns (found: bool)
    ensures !found <==> AllEscaped(text, {'|'})
  {
    var idx := 0;
    while idx < |text|
      invariant idx <= |text|
      invariant forall i :: 0 <= i < idx && text[i] == '|' ==> IsEscaped(text, i)
    {
      if text[idx] == '|' {
        var count := 0;
        var back := idx - 1;
        while back >= 0 && text[back] == '\\'
          invariant -1 <= back < idx
          invariant count + Run(text, back + 1) == Run(text, idx)
          decreases back
        {
          count := count + 1;
          back := back - 1;
        }
        if count % 2 == 0 {
          assert !IsEscaped(text, idx);
          return true;
        }
      }
      idx := idx + 1;
    }
    return false;
  }

  // ----- sort keys -----

  datatype Key = Key(kind: nat, version: seq<nat>, number: int, title: string)

  /** The pieces between the dots. */
  function SplitDots(s: string): (parts: seq<string>)
    ensures |parts| > 0
  {
    if s == "" then [""]
    else
      var parts, c := SplitDots(s[..|s| - 1]), s[|s| - 1];
      if c == '.' then parts + [""]
      else parts[|parts| - 1 := parts[|parts| - 1] + [c]]
  }

  predicate IsVersion(title: string) {
    forall i :: 0 <= i < |SplitDots(title)| ==> AllDigits(SplitDots(title)[i])
  }

  function Values(parts: seq<string>): seq<nat>
    requires forall i :: 0 <= i < |parts| ==> AllDigits(parts[i])
  {
    seq(|parts|, i requires 0 <= i < |parts| => DigitsValue(parts[i]))
  }

  function DigitsValue(s: string): nat
    requires AllDigits(s)
  {
    ValueOfDigits(s);
    Value(s)
  }

  lemma {:induction false} ValueOfDigits(s: string)
    requires forall i :: 0 <= i < |s| ==> IsDigit(s[i])
    ensures Value(s) >= 0
  {
    if s != "" {
      ValueOfDigits(s[..|s| - 1]);
    }
  }

  function SortKey(title: string, number: int): Key {
    var t := Strip(title);
    if IsVersion(t) then Key(0, Values(SplitDots(t)), 0, t) else Key(1, [], number, t)
  }

  predicate TupleLess(a: seq<nat>, b: seq<nat>) {
    b != [] && (a == [] || a[0] < b[0] || (a[0] == b[0] && TupleLess(a[1..], b[1..])))
  }

  predicate TextLess(a: string, b: string) {
    b != "" && (a == "" || a[0] < b[0] || (a[0] == b[0] && TextLess(a[1..], b[1..])))
  }

  predicate KeyLess(a: Key, b: Key) {
    || a.kind < b.kind
    || (a.kind == b.kind
        && (|| TupleLess(a.version, b.version)
            || (a.version == b.version
                && (a.number < b.number || (a.number == b.number && TextLess(a.title, b.title))))))
  }

  lemma {:induction false} TupleLessIsOneWay(a: seq<nat>, b: seq<nat>)
    requires TupleLess(a, b)
    ensures !TupleLess(b, a) && a != b
  {
    if a != [] && a[0] == b[0] {
      TupleLessIsOneWay(a[1..], b[1..]);
    }
  }

  lemma {:induction false} TextLessIsOneWay(a: string, b: string)
    requires TextLess(a, b)
    ensures !TextLess(b, a)
  {
    if a != "" && a[0] == b[0] {
      TextLessIsOneWay(a[1..], b[1..]);
    }
  }

  lemma KeyLessIsOneWay(a: Key, b: Key)
    requires KeyLess(a, b)
    ensures !KeyLess(b, a)
  {
    if TupleLess(a.version, b.version) {
      TupleLessIsOneWay(a.version, b.version);
    }
    if TupleLess(b.version, a.version) {
      TupleLessIsOneWay(b.version, a.version);
    }
    if TextLess(a.title, b.title) {
      TextLessIsOneWay(a.title, b.title);
    }
  }

  /** Lexicographic order: the first difference decides, and a proper prefix comes first. */
  ghost predicate FirstDiffers(a: seq<nat>, b: seq<nat>, i: nat) {
    && i <= |a| && i < |b| && a[..i] == b[..i]
    && (i == |a| || a[i] < b[i])
  }

  lemma {:induction false} LessDiffers(a: seq<nat>, b: seq<nat>) returns (i: nat)
    requires TupleLess(a, b)
    ensures FirstDiffers(a, b, i)
    decreases |a|
  {
    i := 0;
    if a != [] && a[0] == b[0] {
      var k := LessDiffers(a[1..], b[1..]);
      i := k + 1;
      assert a[..i] == [a[0]] + a[1..][..k] && b[..i] == [b[0]] + b[1..][..k];
    }
  }

  lemma {:induction false} DiffersIsLess(a: seq<nat>, b: seq<nat>, i: nat)
    requires FirstDiffers(a, b, i)
    ensures TupleLess(a, b)
  {
    if i > 0 {
      assert a[0] == a[..i][0] && b[0] == b[..i][0];
      assert a[1..][..i - 1] == a[..i][1..] && b[1..][..i - 1] == b[..i][1..];
      DiffersIsLess(a[1..], b[1..], i - 1);
    }
  }

  lemma TupleLessIff(a: seq<nat>, b: seq<nat>)
    ensures TupleLess(a, b) <==> exists i :: FirstDiffers(a, b, i)
  {
    if TupleLess(a, b) {
      var i := LessDiffers(a, b);
    }
    if i: nat :| FirstDiffers(a, b, i) {
      DiffersIsLess(a, b, i);
    }
  }

  /** Texts compare as the code points of their characters do. */
  function Codes(s: string): seq<nat> {
    seq(|s|, i requires 0 <= i < |s| => s[i] as nat)
  }

  lemma {:induction false} TextLessIsTupleLess(a: string, b: string)
    ensures TextLess(a, b) <==> TupleLess(Codes(a), Codes(b))
  {
    if a != "" && b != "" && a[0] == b[0] {
      TextLessIsTupleLess(a[1..], b[1..]);
      assert Codes(a[1..]) == Codes(a)[1..] && Codes(b[1..]) == Codes(b)[1..];
    }
  }

  /** Versions come first, by their numbers; other titles come by milestone number; ties go by title. */
  lemma KeysCompare(s: string, m: int, t: string, n: int)
    ensures var a, b, less := Strip(s), Strip(t), KeyLess(SortKey(s, m), SortKey(t, n));
      && (IsVersion(a) && !IsVersion(b) ==> less)
      && (!IsVersion(a) && IsVersion(b) ==> !less)
      && (IsVersion(a) && IsVersion(b) ==>
            (less <==> TupleLess(Values(SplitDots(a)), Values(SplitDots(b)))
                       || (Values(SplitDots(a)) == Values(SplitDots(b)) && TextLess(a, b))))
      && (!IsVersion(a) && !IsVersion(b) ==> (less <==> m < n || (m == n && TextLess(a, b))))
  {
  }

  function Dotted(parts: seq<string>): string
    requires parts != []
  {
    if |parts| == 1 then parts[0] else Dotted(parts[..|parts| - 1]) + ("." + parts[|parts| - 1])
  }

  /** The pieces joined by dots are the text, and hold no dot themselves. */
  lemma {:induction false} SplitDotsJoins(s: string)
    ensures Dotted(SplitDots(s)) == s
    ensures forall k :: 0 <= k < |SplitDots(s)| ==> '.' !in SplitDots(s)[k]
  {
    if s != "" {
      var init, c := s[..|s| - 1], s[|s| - 1];
      SplitDotsJoins(init);
      var before, parts := SplitDots(init), SplitDots(s);
      assert s == init + [c];
      if c == '.' {
        assert parts[..|before|] == before;
        assert Dotted(parts) == Dotted(before) + ("." + "");
      } else {
        var last := before[|before| - 1];
        assert parts[..|before| - 1] == before[..|before| - 1];
        assert "." + (last + [c]) == ("." + last) + [c];
      }
    }
  }

  /** The pieces of a text hold every character of it but the dots. */
  lemma {:induction false} PiecesHoldAll(s: string, i: nat)
    requires i < |s| && s[i] != '.'
    ensures exists k, j :: 0 <= k < |SplitDots(s)| && 0 <= j < |SplitDots(s)[k]| && SplitDots(s)[k][j] == s[i]
  {
    var init, c := s[..|s| - 1], s[|s| - 1];
    var before, parts := SplitDots(init), SplitDots(s);
    if i < |init| {
      PiecesHoldAll(init, i);
      var k, j :| 0 <= k < |before| && 0 <= j < |before[k]| && before[k][j] == init[i];
      assert parts[k][j] == s[i];
    } else {
      var k := |before| - 1;
      assert parts[k][|before[k]|] == c;
    }
  }

  lemma VersionIsDigitsAndDots(s: string, i: nat)
    requires IsVersion(s) && i < |s|
    ensures s[i] == '.' || IsDigit(s[i])
  {
    if s[i] != '.' {
      PiecesHoldAll(s, i);
    }
  }

  const TITLE_CHARS: set<char> := {'|', '[', ']'}

  /** Every character of the text survives escaping. */
  lemma {:induction false} EscapeKeepsCharacter(s: string, chars: set<char>, i: nat)
    requires i < |s|
    ensures exists j :: 0 <= j < |Escape(s, chars)| && Escape(s, chars)[j] == s[i]
  {
    var init, c := s[..|s| - 1], s[|s| - 1];
    var t := Escape(s, chars);
    if i < |init| {
      EscapeKeepsCharacter(init, chars, i);
      var j :| 0 <= j < |Escape(init, chars)| && Escape(init, chars)[j] == init[i];
      assert t[j] == s[i];
    } else {
      assert t[|t| - 1] == c;
    }
  }

  lemma NoListedNoEscape(s: string, chars: set<char>)
    requires forall i :: 0 <= i < |s| ==> s[i] !in chars
    ensures Escape(s, chars) == s
  {
    EscapeIsIdentityIff(s, chars);
  }

  /** Escaping never turns a version into something else, nor something else into a version. */
  lemma EscapeKeepsVersions(t: string)
    ensures IsVersion(Escape(t, TITLE_CHARS)) <==> IsVersion(t)
    ensures IsVersion(t) ==> Escape(t, TITLE_CHARS) == t
  {
    if i :| 0 <= i < |t| && t[i] in TITLE_CHARS {
      EscapeKeepsCharacter(t, TITLE_CHARS, i);
      var j :| 0 <= j < |Escape(t, TITLE_CHARS)| && Escape(t, TITLE_CHARS)[j] == t[i];
      if IsVersion(t) {
        VersionIsDigitsAndDots(t, i);
      }
      if IsVersion(Escape(t, TITLE_CHARS)) {
        VersionIsDigitsAndDots(Escape(t, TITLE_CHARS), j);
      }
    } else {
      NoListedNoEscape(t, TITLE_CHARS);
    }
  }

  lemma {:induction false} EscapeEnds(s: string, chars: set<char>)
    requires s != ""
    ensures var t := Escape(s, chars);
            t != "" && t[|t| - 1] == s[|s| - 1] && (t[0] == s[0] || t[0] == '\\')
  {
    var init := s[..|s| - 1];
    if init != "" {
      EscapeEnds(init, chars);
    } else {
      assert Escape(init, chars) == "";
    }
  }

  lemma EscapeStaysTrim(s: string, chars: set<char>)
    requires IsTrim(s)
    ensures IsTrim(Escape(s, chars))
  {
    if s != "" {
      EscapeEnds(s, chars);
    }
  }

  // ----- rendering -----

  datatype Milestone = Milestone(title: string, url: string, description: Option<string>, number: Option<int>,
                                 openIssues: int)

  /** The text with every run of blanks made one space, and none at the ends. */
  function Collapse(s: string): string {
    if s == "" then "" else
    var init, c := s[..|s| - 1], s[|s| - 1];
    if IsSpace(c) then Collapse(init)
    else if Collapse(init) != "" && IsSpace(init[|init| - 1]) then Collapse(init) + " " + [c]
    else Collapse(init) + [c]
  }

  lemma {:induction false} CollapseIsOneLine(s: string)
    ensures IsTrim(Collapse(s)) && NoLineBreak(Collapse(s))
    ensures s == "" ==> Collapse(s) == ""
  {
    if s != "" {
      CollapseIsOneLine(s[..|s| - 1]);
    }
  }

  /** The runs without blanks, from left to right. */
  function Words(s: string): seq<string> {
    if s == "" then [] else
    var init, c := s[..|s| - 1], s[|s| - 1];
    var words := Words(init);
    if IsSpace(c) then words
    else if words != [] && !IsSpace(init[|init| - 1]) then words[..|words| - 1] + [words[|words| - 1] + [c]]
    else words + [[c]]
  }

  function Spaced(words: seq<string>): string {
    if words == [] then ""
    else if |words| == 1 then words[0]
    else Spaced(words[..|words| - 1]) + " " + words[|words| - 1]
  }

  ghost predicate IsWord(w: string) {
    w != "" && forall i :: 0 <= i < |w| ==> !IsSpace(w[i])
  }

  /** Words have no blanks, and one that ends with the text has its last character. */
  lemma {:induction false} WordsAreWords(s: string)
    ensures forall k :: 0 <= k < |Words(s)| ==> IsWord(Words(s)[k])
    ensures s != "" && !IsSpace(s[|s| - 1]) ==> Words(s) != []
  {
    if s != "" {
      WordsAreWords(s[..|s| - 1]);
    }
  }

  /** Collapsing joins the words of a text by single spaces. */
  lemma {:induction false} CollapseIsSpaced(s: string)
    ensures Collapse(s) == Spaced(Words(s)) && (Collapse(s) == "" <==> Words(s) == [])
  {
    if s != "" {
      var init, c := s[..|s| - 1], s[|s| - 1];
      CollapseIsSpaced(init);
      WordsAreWords(init);
      OneMoreCharacter(Words(init), Collapse(init), init != "" && !IsSpace(init[|init| - 1]), c, Words(s), Collapse(s));
    }
  }

  lemma OneMoreCharacter(words: seq<string>, text: string, joins: bool, c: char, words': seq<string>, text': string)
    requires text == Spaced(words) && (text == "" <==> words == []) && (joins ==> words != [])
    requires words' == if IsSpace(c) then words
                       else if joins then words[..|words| - 1] + [words[|words| - 1] + [c]] else words + [[c]]
    requires text' == if IsSpace(c) then text else if words == [] || joins then text + [c] else text + " " + [c]
    ensures text' == Spaced(words') && (text' == "" <==> words' == [])
  {
    if !IsSpace(c) && words != [] {
      SpacedNew(words, [c]);
      SpacedLonger(words[..|words| - 1], words[|words| - 1], c);
      assert words == words[..|words| - 1] + [words[|words| - 1]];
    }
  }

  lemma SpacedNew(words: seq<string>, w: string)
    requires words != []
    ensures Spaced(words + [w]) == Spaced(words) + " " + w
  {
    var all := words + [w];
    assert all[..|all| - 1] == words && all[|all| - 1] == w;
  }

  lemma SpacedLonger(init: seq<string>, last: string, c: char)
    ensures Spaced(init + [last + [c]]) == Spaced(init + [last]) + [c]
  {
    if init != [] {
      SpacedNew(init, last);
      SpacedNew(init, last + [c]);
      PlusAssociates(Spaced(init) + " ", last, [c]);
    }
  }

  lemma PlusAssociates(a: string, b: string, c: string)
    ensures a + (b + c) == (a + b) + c
  {
  }

  const NO_DESCRIPTION := "No description."

  function FormatDescription(description: Option<string>): string {
    if description.None? then NO_DESCRIPTION else
    var escaped := Escape(Collapse(description.value), {'|'});
    if escaped == "" then NO_DESCRIPTION else escaped
  }

  /** A description without any word is replaced; another one is its words with the bars escaped. */
  lemma DescriptionIs(description: Option<string>)
    ensures description.None? ==> FormatDescription(description) == "No description."
    ensures description.Some? && Words(description.value) == [] ==> FormatDescription(description) == "No description."
    ensures description.Some? && Words(description.value) != [] ==>
        FormatDescription(description) == Escape(Spaced(Words(description.value)), {'|'})
  {
    if description.Some? {
      CollapseIsSpaced(description.value);
      EscapeIsIdentityIff(Collapse(description.value), {'|'});
    }
  }

  function TitleCell(m: Milestone): string {
    Escape(Strip(m.title), TITLE_CHARS)
  }

  function KeyOf(m: Milestone): Key {
    SortKey(m.title, if m.number.Some? then m.number.value else 0)
  }

  /** A milestone without a number is ordered as number zero. */
  lemma MilestoneKeyIs(m: Milestone)
    ensures m.number.None? ==> KeyOf(m) == SortKey(m.title, 0)
    ensures m.number.Some? ==> KeyOf(m) == SortKey(m.title, m.number.value)
  {
  }

  const HEADER_LINE := "| Milestone | Scope | Open issues |"
  const SEPARATOR_LINE := "| :--- | :--- | ---: |"

  const HEAD: seq<string> := [HEADER_LINE, SEPARATOR_LINE]

  const OPENING := "| ["
  const AFTER_TITLE := "]("
  const AFTER_URL := ") | "
  const BAR := " | "
  const CLOSING := " |"

  function Line(title: string, url: string, scope: string, count: string): string {
    OPENING + (title + (AFTER_TITLE + (url + (AFTER_URL + (scope + (BAR + (count + CLOSING)))))))
  }

  function RenderRow(m: Milestone): string {
    Line(TitleCell(m), Strip(m.url), FormatDescription(m.description), IntText(m.openIssues))
  }

  /** The texts around the cells. */
  lemma RowText(m: Milestone)
    ensures HEAD == ["| Milestone | Scope | Open issues |", "| :--- | :--- | ---: |"]
    ensures TitleCell(m) == Escape(Strip(m.title), {'|', '[', ']'})
    ensures RenderRow(m) == "| [" + (TitleCell(m) + ("](" + (Strip(m.url) + (") | " +
              (FormatDescription(m.description) + (" | " + (IntText(m.openIssues) + " |")))))))
  {
  }

  /** A stable sort by key. */
  function Sorted(ms: seq<Milestone>): seq<Milestone> {
    if ms == [] then [] else Insert(ms[0], Sorted(ms[1..]))
  }

  function Insert(m: Milestone, ms: seq<Milestone>): seq<Milestone> {
    if ms != [] && KeyLess(KeyOf(ms[0]), KeyOf(m)) then [ms[0]] + Insert(m, ms[1..]) else [m] + ms
  }

  function Rows(ms: seq<Milestone>): (rows: seq<string>)
    ensures |rows| == |ms| && forall i :: 0 <= i < |ms| ==> rows[i] == RenderRow(ms[i])
  {
    seq(|ms|, i requires 0 <= i < |ms| => RenderRow(ms[i]))
  }

  lemma RowsUpTo(ms: seq<Milestone>, i: nat)
    requires i < |ms|
    ensures HEAD + Rows(ms[..i + 1]) == HEAD + Rows(ms[..i]) + [RenderRow(ms[i])]
  {
    assert Rows(ms[..i + 1]) == Rows(ms[..i]) + [RenderRow(ms[i])];
  }

  function TableLines(ms: seq<Milestone>): seq<string> {
    HEAD + Rows(Sorted(ms))
  }

  function Joined(lines: seq<string>): string {
    if lines == [] then "" else if |lines| == 1 then lines[0] else lines[0] + "\n" + Joined(lines[1..])
  }

  method RenderTable(milestones: seq<Milestone>) returns (table: string)
    ensures table == Joined(TableLines(milestones))
  {
    var sorted := Sorted(milestones);
    var lines := HEAD;
    for i := 0 to |sorted|
      invariant lines == HEAD + Rows(sorted[..i])
    {
      var item := sorted[i];
      var title := EscapeCell(Strip(item.title), TITLE_CHARS);
      var url := Strip(item.url);
      var desc := FormatDescription(item.description);
      var row := Line(title, url, desc, IntText(item.openIssues));
      assert row == RenderRow(item);
      RowsUpTo(sorted, i);
      lines := lines + [row];
    }
    assert sorted[..|sorted|] == sorted;
    table := Joined(lines);
  }

  // ----- the row grammar -----

  /** What the row pattern captures. The URL is given by its parts. */
  datatype Groups = Groups(title: string, owner: string, name: string, digits: string, scope: string, count: string)

  const HOST := "https://github.com/"
  const SLASH := "/"
  const MILESTONE_PATH := "/milestone/"

  function Url(owner: string, name: string, digits: string): string {
    HOST + (owner + (SLASH + (name + (MILESTONE_PATH + digits))))
  }

  predicate IsPathPart(s: string) {
    s != "" && forall i :: 0 <= i < |s| ==> s[i] != '/' && !IsSpace(s[i])
  }

  /** From position i on, the title falls into escape pairs and characters other than brackets and backslashes. */
  predicate Tokens(t: string, i: nat)
    requires i <= |t|
    decreases |t| - i
  {
    if i == |t| then true
    else if t[i] == '\\' then i + 1 < |t| && t[i + 1] != '\n' && Tokens(t, i + 2)
    else t[i] != ']' && Tokens(t, i + 1)
  }

  predicate RowMatches(line: string, g: Groups) {
    && g.title != "" && Tokens(g.title, 0)
    && IsPathPart(g.owner) && IsPathPart(g.name) && AllDigits(g.digits)
    && g.scope != "" && '\n' !in g.scope
    && AllDigits(g.count)
    && line == Line(g.title, Url(g.owner, g.name, g.digits), g.scope, g.count)
  }

  /** The pairs read forwards fit the counts taken backwards. */
  lemma {:induction false} TokensIff(t: string, i: nat)
    requires i <= |t| && Run(t, i) % 2 == 0
    ensures Tokens(t, i) <==>
            && (forall k :: i <= k < |t| && t[k] == ']' ==> IsEscaped(t, k))
            && (forall k :: i <= k < |t| && t[k] == '\n' ==> !IsEscaped(t, k))
            && Run(t, |t|) % 2 == 0
    decreases |t| - i
  {
    if i < |t| {
      if t[i] == '\\' {
        if i + 1 < |t| {
          assert Run(t, i + 1) == Run(t, i) + 1;
          assert IsEscaped(t, i + 1);
          TokensIff(t, i + 2);
        }
      } else {
        TokensIff(t, i + 1);
        assert !IsEscaped(t, i);
      }
    }
  }

  lemma CancelLeft(a: string, x: string, b: string, y: string)
    requires a + x == b + y && |a| == |b|
    ensures a == b && x == y
  {
    assert a == (a + x)[..|a|] && b == (b + y)[..|b|];
    assert x == (a + x)[|a|..] && y == (b + y)[|b|..];
  }

  /** A text that avoids a character ends where that character first stands. */
  lemma EndsBefore(a: string, x: string, b: string, y: string, c: char)
    requires a + x == b + y
    requires x != "" && x[0] == c && y != "" && y[0] == c
    requires c !in a && c !in b
    ensures a == b && x == y
  {
    assert (a + x)[|a|] == c && (b + y)[|b|] == c;
    CancelLeft(a, x, b, y);
  }

  /** A title ends at the first bracket that is not escaped. */
  lemma TitleEndsHere(a: string, x: string, b: string, y: string)
    requires a + x == b + y
    requires x != "" && x[0] == ']' && y != "" && y[0] == ']'
    requires Tokens(a, 0) && Tokens(b, 0)
    ensures a == b && x == y
  {
    TokensIff(a, 0);
    TokensIff(b, 0);
    assert (a + x)[|a|] == ']' && (b + y)[|b|] == ']';
    var n := Min(|a|, |b|);
    assert forall k :: 0 <= k < n ==> a[k] == (a + x)[k] && b[k] == (b + y)[k];
    RunOfPrefix(a, b, n);
    CancelLeft(a, x, b, y);
  }

  /** The last cell is the run of digits before the closing bar. */
  lemma CountIsLast(s: string, c: string, t: string, d: string)
    requires s + (BAR + (c + CLOSING)) == t + (BAR + (d + CLOSING))
    requires AllDigits(c) && AllDigits(d)
    ensures s == t && c == d
  {
    var l := s + (BAR + (c + CLOSING));
    assert l[|s| + 2] == ' ' && l[|t| + 2] == ' ';
    assert |l| == |s| + |c| + 5 && |l| == |t| + |d| + 5;
    assert forall k :: 0 <= k < |c| ==> l[|s| + 3 + k] == c[k];
    assert forall k :: 0 <= k < |d| ==> l[|t| + 3 + k] == d[k];
    CancelLeft(s, BAR + (c + CLOSING), t, BAR + (d + CLOSING));
    CancelLeft(BAR, c + CLOSING, BAR, d + CLOSING);
    CancelLeft(c, CLOSING, d, CLOSING);
  }

  /** A row can be read in one way only, so whatever matches the pattern captures the same groups. */
  lemma RowIsReadOneWay(line: string, g: Groups, h: Groups)
    requires RowMatches(line, g) && RowMatches(line, h)
    ensures g == h
  {
    var gc := AFTER_URL + (g.scope + (BAR + (g.count + CLOSING)));
    var hc := AFTER_URL + (h.scope + (BAR + (h.count + CLOSING)));
    var gu, hu := Url(g.owner, g.name, g.digits) + gc, Url(h.owner, h.name, h.digits) + hc;
    CancelLeft(OPENING, g.title + (AFTER_TITLE + gu), OPENING, h.title + (AFTER_TITLE + hu));
    TitleEndsHere(g.title, AFTER_TITLE + gu, h.title, AFTER_TITLE + hu);
    CancelLeft(AFTER_TITLE, gu, AFTER_TITLE, hu);
    UrlIsReadOneWay(g, gc, h, hc);
    CancelLeft(AFTER_URL, g.scope + (BAR + (g.count + CLOSING)), AFTER_URL, h.scope + (BAR + (h.count + CLOSING)));
    CountIsLast(g.scope, g.count, h.scope, h.count);
  }

  lemma UrlIsReadOneWay(g: Groups, x: string, h: Groups, y: string)
    requires Url(g.owner, g.name, g.digits) + x == Url(h.owner, h.name, h.digits) + y
    requires IsPathPart(g.owner) && IsPathPart(g.name) && AllDigits(g.digits)
    requires IsPathPart(h.owner) && IsPathPart(h.name) && AllDigits(h.digits)
    requires x != "" && x[0] == ')' && y != "" && y[0] == ')'
    ensures g.owner == h.owner && g.name == h.name && g.digits == h.digits && x == y
  {
    var gm, hm := MILESTONE_PATH + (g.digits + x), MILESTONE_PATH + (h.digits + y);
    UrlThen(g.owner, g.name, g.digits, x);
    UrlThen(h.owner, h.name, h.digits, y);
    CancelLeft(HOST, g.owner + (SLASH + (g.name + gm)), HOST, h.owner + (SLASH + (h.name + hm)));
    EndsBefore(g.owner, SLASH + (g.name + gm), h.owner, SLASH + (h.name + hm), '/');
    CancelLeft(SLASH, g.name + gm, SLASH, h.name + hm);
    EndsBefore(g.name, gm, h.name, hm, '/');
    CancelLeft(MILESTONE_PATH, g.digits + x, MILESTONE_PATH, h.digits + y);
    EndsBefore(g.digits, x, h.digits, y, ')');
  }

  lemma UrlThen(owner: string, name: string, digits: string, x: string)
    ensures Url(owner, name, digits) + x == HOST + (owner + (SLASH + (name + (MILESTONE_PATH + (digits + x)))))
  {
    var a := MILESTONE_PATH + digits;
    assert a + x == MILESTONE_PATH + (digits + x);
    assert (name + a) + x == name + (a + x);
    assert (SLASH + (name + a)) + x == SLASH + ((name + a) + x);
    assert (owner + (SLASH + (name + a))) + x == owner + ((SLASH + (name + a)) + x);
  }

  // ----- the shape check -----

  datatype Reason =
    | BadHeader | BadSeparator | NoRows | BadFormat | TitlePipe | EmptyScope | ScopePipe
    | DuplicateTitle | DuplicateUrl | OutOfOrder | NoNewline | ManyNewlines

  datatype Finding = Finding(line: int, reason: Reason)

  type Matcher = string -> Option<Groups>

  /** The regular-expression engine captures groups exactly when the row can be read. */
  ghost predicate IsMatcher(matcher: Matcher) {
    forall line: string :: '\n' !in line ==>
      match matcher(line)
      case Some(g) => RowMatches(line, g)
      case None => forall g :: !RowMatches(line, g)
  }

  function UrlOf(g: Groups): string {
    Url(g.owner, g.name, g.digits)
  }

  /** The text after the last slash. */
  function LastSegment(s: string): string {
    if s == "" || s[|s| - 1] == '/' then "" else LastSegment(s[..|s| - 1]) + [s[|s| - 1]]
  }

  lemma {:induction false} LastSegmentIs(p: string, d: string)
    requires p != "" && p[|p| - 1] == '/' && '/' !in d
    ensures LastSegment(p + d) == d
  {
    if d == "" {
      assert p + d == p;
    } else {
      var init := d[..|d| - 1];
      assert (p + d)[..|p + d| - 1] == p + init;
      LastSegmentIs(p, init);
    }
  }

  /** The text of a milestone's URL, and the number a row is ordered by. */
  lemma UrlText(g: Groups)
    ensures UrlOf(g) == "https://github.com/" + (g.owner + ("/" + (g.name + ("/milestone/" + g.digits))))
    ensures AllDigits(g.digits) ==> RowKey(g) == SortKey(g.title, Value(g.digits))
  {
    if AllDigits(g.digits) {
      UrlEndsInNumber(g.owner, g.name, g.digits);
    }
  }

  lemma UrlEndsInNumber(owner: string, name: string, digits: string)
    requires AllDigits(digits)
    ensures LastSegment(Url(owner, name, digits)) == digits
  {
    var p := Url(owner, name, "");
    UrlThen(owner, name, "", digits);
    assert MILESTONE_PATH + ("" + digits) == MILESTONE_PATH + digits;
    assert p + digits == Url(owner, name, digits);
    assert name + (MILESTONE_PATH + "") == name + MILESTONE_PATH;
    assert p[|p| - 1] == '/';
    LastSegmentIs(p, digits);
  }

  /** What the check remembers between rows. */
  datatype Check = Check(findings: seq<Finding>, titles: set<string>, urls: set<string>, maxKey: Option<Key>)

  function RowKey(g: Groups): Key {
    SortKey(g.title, Value(LastSegment(UrlOf(g))))
  }

  function Fault(g: Option<Groups>, titles: set<string>, urls: set<string>): Option<Reason> {
    if g.None? then Some(BadFormat)
    else if !AllEscaped(g.value.title, {'|'}) then Some(TitlePipe)
    else if Strip(g.value.scope) == "" then Some(EmptyScope)
    else if !AllEscaped(g.value.scope, {'|'}) then Some(ScopePipe)
    else if g.value.title in titles then Some(DuplicateTitle)
    else if UrlOf(g.value) in urls then Some(DuplicateUrl)
    else None
  }

  function CheckRow(c: Check, g: Option<Groups>, number: int): Check {
    var fault := Fault(g, c.titles, c.urls);
    if fault.Some? then c.(findings := c.findings + [Finding(number, fault.value)])
    else
      var seen := c.(titles := c.titles + {g.value.title}, urls := c.urls + {UrlOf(g.value)});
      var key := RowKey(g.value);
      if c.maxKey.Some? && KeyLess(key, c.maxKey.value)
      then seen.(findings := c.findings + [Finding(number, OutOfOrder)])
      else seen.(maxKey := Some(key))
  }

  function CheckRows(matcher: Matcher, rows: seq<string>): Check {
    if rows == [] then Check([], {}, {}, None)
    else CheckRow(CheckRows(matcher, rows[..|rows| - 1]), matcher(rows[|rows| - 1]), |rows| + 2)
  }

  function DataFindings(matcher: Matcher, lines: seq<string>): seq<Finding> {
    if |lines| < 3 then [Finding(|lines| + 1, NoRows)] else CheckRows(matcher, lines[2..]).findings
  }

  method ValidateRowContent(match_: Option<Groups>, lineNum: nat, titles: set<string>, urls: set<string>)
    returns (finding: Option<Finding>, titles': set<string>, urls': set<string>)
    ensures var fault := Fault(match_, titles, urls);
            finding == if fault.Some? then Some(Finding(lineNum, fault.value)) else None
    ensures finding.Some? ==> titles' == titles && urls' == urls
    ensures finding.None? ==> titles' == titles + {match_.value.title} && urls' == urls + {UrlOf(match_.value)}
  {
    titles', urls' := titles, urls;
    if match_.None? {
      return Some(Finding(lineNum, BadFormat)), titles', urls';
    }
    var g := match_.value;
    var pipe := HasUnescapedPipe(g.title);
    if pipe {
      return Some(Finding(lineNum, TitlePipe)), titles', urls';
    }
    if Strip(g.scope) == "" {
      return Some(Finding(lineNum, EmptyScope)), titles', urls';
    }
    pipe := HasUnescapedPipe(g.scope);
    if pipe {
      return Some(Finding(lineNum, ScopePipe)), titles', urls';
    }
    if g.title in titles {
      return Some(Finding(lineNum, DuplicateTitle)), titles', urls';
    }
    if UrlOf(g) in urls {
      return Some(Finding(lineNum, DuplicateUrl)), titles', urls';
    }
    return None, titles + {g.title}, urls + {UrlOf(g)};
  }

  method ValidateDataRows(matcher: Matcher, lines: seq<string>) returns (findings: seq<Finding>)
    ensures findings == DataFindings(matcher, lines)
  {
    if |lines| < 3 {
      return [Finding(Max(1, |lines| + 1), NoRows)];
    }
    findings := [];
    var titles, urls, maxKey := {}, {}, None;
    var rows := lines[2..];
    for i := 0 to |rows|
      invariant Check(findings, titles, urls, maxKey) == CheckRows(matcher, rows[..i])
    {
      assert rows[..i + 1][..i] == rows[..i];
      var g := matcher(rows[i]);
      var finding;
      finding, titles, urls := ValidateRowContent(g, i + 3, titles, urls);
      if finding.Some? {
        findings := findings + [finding.value];
        continue;
      }
      var key := SortKey(g.value.title, Value(LastSegment(UrlOf(g.value))));
      if maxKey.Some? && KeyLess(key, maxKey.value) {
        findings := findings + [Finding(i + 3, OutOfOrder)];
        continue;
      }
      maxKey := Some(key);
    }
    assert rows[..|rows|] == rows;
  }

  // ----- what an accepted table is -----

  const NO_GROUPS := Groups("", "", "", "", "", "")

  function GroupsOf(matcher: Matcher, line: string): Groups {
    if matcher(line).Some? then matcher(line).value else NO_GROUPS
  }

  predicate IsSoundRow(matcher: Matcher, line: string) {
    && matcher(line).Some?
    && AllEscaped(matcher(line).value.title, {'|'})
    && Strip(matcher(line).value.scope) != ""
    && AllEscaped(matcher(line).value.scope, {'|'})
  }

  predicate Differ(g: Groups, h: Groups) {
    g.title != h.title && UrlOf(g) != UrlOf(h)
  }

  predicate MayFollow(g: Groups, h: Groups) {
    !KeyLess(RowKey(h), RowKey(g))
  }

  /** The row is sound, its title and URL are new, and its key is not below that of the row before it. */
  ghost predicate Joins(matcher: Matcher, before: seq<string>, row: string) {
    && IsSoundRow(matcher, row)
    && (forall i :: 0 <= i < |before| ==> Differ(GroupsOf(matcher, before[i]), GroupsOf(matcher, row)))
    && (before != [] ==> MayFollow(GroupsOf(matcher, before[|before| - 1]), GroupsOf(matcher, row)))
  }

  ghost predicate IsSoundTable(matcher: Matcher, rows: seq<string>) {
    forall k :: 0 <= k < |rows| ==> Joins(matcher, rows[..k], rows[k])
  }

  /** What the check remembers of rows it found nothing in. */
  ghost predicate Remembers(matcher: Matcher, rows: seq<string>, c: Check) {
    && (forall t :: t in c.titles <==> exists i :: 0 <= i < |rows| && GroupsOf(matcher, rows[i]).title == t)
    && (forall u :: u in c.urls <==> exists i :: 0 <= i < |rows| && UrlOf(GroupsOf(matcher, rows[i])) == u)
    && c.maxKey == if rows == [] then None else Some(RowKey(GroupsOf(matcher, rows[|rows| - 1])))
  }

  lemma {:induction false} NoFindingsIff(matcher: Matcher, rows: seq<string>)
    ensures CheckRows(matcher, rows).findings == [] <==> IsSoundTable(matcher, rows)
    ensures CheckRows(matcher, rows).findings == [] ==> Remembers(matcher, rows, CheckRows(matcher, rows))
  {
    if rows != [] {
      var init, row := rows[..|rows| - 1], rows[|rows| - 1];
      assert rows == init + [row];
      NoFindingsIff(matcher, init);
      OneMoreRow(matcher, init, row, CheckRows(matcher, init));
    }
  }

  lemma OneMoreRow(matcher: Matcher, init: seq<string>, row: string, c: Check)
    requires c.findings == [] <==> IsSoundTable(matcher, init)
    requires c.findings == [] ==> Remembers(matcher, init, c)
    ensures var c' := CheckRow(c, matcher(row), |init| + 3);
            && (c'.findings == [] <==> IsSoundTable(matcher, init + [row]))
            && (c'.findings == [] ==> Remembers(matcher, init + [row], c'))
  {
    var c' := CheckRow(c, matcher(row), |init| + 3);
    SoundOneMore(matcher, init, row);
    if c.findings == [] {
      FindingIff(matcher, init, row, c);
      if c'.findings == [] {
        RemembersOneMore(matcher, init, row, c, c');
      }
    }
  }

  lemma SoundOneMore(matcher: Matcher, init: seq<string>, row: string)
    ensures IsSoundTable(matcher, init + [row]) <==> IsSoundTable(matcher, init) && Joins(matcher, init, row)
  {
    var rows := init + [row];
    assert rows[..|init|] == init && rows[|init|] == row;
    assert forall k :: 0 <= k < |init| ==> rows[..k] == init[..k] && rows[k] == init[k];
    if IsSoundTable(matcher, rows) {
      assert Joins(matcher, rows[..|init|], rows[|init|]);
      assert forall k :: 0 <= k < |init| ==> Joins(matcher, rows[..k], rows[k]);
    }
  }

  lemma FindingIff(matcher: Matcher, init: seq<string>, row: string, c: Check)
    requires c.findings == [] && Remembers(matcher, init, c)
    ensures var c' := CheckRow(c, matcher(row), |init| + 3);
            && (c'.findings == [] <==> Joins(matcher, init, row))
            && (c'.findings == [] ==>
                  (&& c'.titles == c.titles + {GroupsOf(matcher, row).title}
                   && c'.urls == c.urls + {UrlOf(GroupsOf(matcher, row))}
                   && c'.maxKey == Some(RowKey(GroupsOf(matcher, row)))))
  {
    var g := GroupsOf(matcher, row);
    assert g.title in c.titles <==> exists i :: 0 <= i < |init| && GroupsOf(matcher, init[i]).title == g.title;
    assert UrlOf(g) in c.urls <==> exists i :: 0 <= i < |init| && UrlOf(GroupsOf(matcher, init[i])) == UrlOf(g);
  }

  lemma RemembersOneMore(matcher: Matcher, init: seq<string>, row: string, c: Check, c': Check)
    requires Remembers(matcher, init, c)
    requires c'.titles == c.titles + {GroupsOf(matcher, row).title}
    requires c'.urls == c.urls + {UrlOf(GroupsOf(matcher, row))}
    requires c'.maxKey == Some(RowKey(GroupsOf(matcher, row)))
    ensures Remembers(matcher, init + [row], c')
  {
    var rows := init + [row];
    assert rows[|init|] == row;
    assert forall i :: 0 <= i < |init| ==> rows[i] == init[i];
  }

  // ----- lines -----

  function FirstBreak(s: string, i: nat): (end: nat)
    requires i <= |s|
    ensures i <= end <= |s|
    decreases |s| - i
  {
    if i == |s| || IsLineBreak(s[i]) then i else FirstBreak(s, i + 1)
  }

  function BreakLength(s: string, i: nat): nat
    requires i < |s|
  {
    if s[i] == '\r' && i + 1 < |s| && s[i + 1] == '\n' then 2 else 1
  }

  function SplitLines(s: string): seq<string>
    decreases |s|
  {
    var end := FirstBreak(s, 0);
    if s == "" then [] else if end == |s| then [s]
    else [s[..end]] + SplitLines(s[end + BreakLength(s, end)..])
  }

  /** A break between lines: one character, or a carriage return with its newline. */
  ghost predicate IsBreak(b: string) {
    b == "\r\n" || (|b| == 1 && IsLineBreak(b[0]))
  }

  /** Lines without breaks that give the text back with their breaks; only the last, if not empty, may go without. */
  ghost predicate IsSplit(s: string, lines: seq<string>)
    decreases |lines|
  {
    if lines == [] then s == ""
    else
      && NoLineBreak(lines[0])
      && ((s == lines[0] != "" && |lines| == 1)
          || exists b, rest :: IsBreak(b) && s == lines[0] + (b + rest)
               && (b == "\r" ==> rest == "" || rest[0] != '\n') && IsSplit(rest, lines[1..]))
  }

  lemma {:induction false} FirstBreakIs(s: string, i: nat)
    requires i <= |s|
    ensures var end := FirstBreak(s, i);
            (forall k :: i <= k < end ==> !IsLineBreak(s[k])) && (end < |s| ==> IsLineBreak(s[end]))
    decreases |s| - i
  {
    if i < |s| && !IsLineBreak(s[i]) {
      FirstBreakIs(s, i + 1);
    }
  }

  lemma {:induction false} SplitLinesSplits(s: string)
    ensures IsSplit(s, SplitLines(s))
    decreases |s|
  {
    if s != "" {
      var end := FirstBreak(s, 0);
      FirstBreakIs(s, 0);
      if end < |s| {
        var b := BreakAt(s, end);
        var rest := s[end + |b|..];
        SplitLinesSplits(rest);
        OneMoreSplit(s, s[..end], b, rest, SplitLines(rest));
      } else {
        assert SplitLines(s) == [s];
      }
    }
  }

  lemma BreakAt(s: string, end: nat) returns (b: string)
    requires end < |s| && IsLineBreak(s[end])
    ensures |b| == BreakLength(s, end) && end + |b| <= |s| && IsBreak(b)
    ensures s == s[..end] + (b + s[end + |b|..])
    ensures b == "\r" && s[end + |b|..] != "" ==> s[end + |b|..][0] != '\n'
  {
    b := s[end..end + BreakLength(s, end)];
  }

  lemma OneMoreSplit(s: string, line: string, b: string, rest: string, lines: seq<string>)
    requires NoLineBreak(line) && IsBreak(b) && s == line + (b + rest) && IsSplit(rest, lines)
    requires b == "\r" && rest != "" ==> rest[0] != '\n'
    ensures IsSplit(s, [line] + lines)
  {
    assert ([line] + lines)[1..] == lines;
  }

  predicate IsNewline(s: string) {
    s == "\n" || s == "\r\n"
  }

  lemma {:induction false} BreakIsAfterLine(line: string, rest: string, i: nat)
    requires NoLineBreak(line) && rest != "" && IsLineBreak(rest[0]) && i <= |line|
    ensures FirstBreak(line + rest, i) == |line|
    decreases |line| - i
  {
    if i < |line| {
      BreakIsAfterLine(line, rest, i + 1);
    }
  }

  lemma SplitOffLine(line: string, newline: string, rest: string)
    requires NoLineBreak(line) && IsNewline(newline)
    ensures SplitLines(line + (newline + rest)) == [line] + SplitLines(rest)
  {
    var after := newline + rest;
    var s := line + after;
    BreakIsAfterLine(line, after, 0);
    assert s[|line|] == after[0];
    assert newline == "\r\n" ==> s[|line| + 1] == after[1];
    assert BreakLength(s, |line|) == |newline|;
    DropBoth(line, newline, rest);
  }

  lemma DropBoth(a: string, b: string, c: string)
    ensures (a + (b + c))[..|a|] == a && (a + (b + c))[|a| + |b|..] == c
  {
  }

  /** Lines joined and closed with a newline split into the same lines. */
  lemma {:induction false} LinesReadBack(lines: seq<string>, newline: string)
    requires lines != [] && IsNewline(newline)
    requires forall i :: 0 <= i < |lines| ==> NoLineBreak(lines[i])
    ensures SplitLines(Joined(lines) + newline) == lines
  {
    if |lines| == 1 {
      SplitOffLine(lines[0], newline, "");
      assert newline + "" == newline;
      assert SplitLines("") == [];
    } else {
      LinesReadBack(lines[1..], newline);
      var rest := Joined(lines[1..]) + newline;
      SplitOffLine(lines[0], "\n", rest);
      JoinedThen(lines, newline);
      assert lines == [lines[0]] + lines[1..];
    }
  }

  lemma JoinedThen(lines: seq<string>, newline: string)
    requires |lines| > 1
    ensures Joined(lines) + newline == lines[0] + ("\n" + (Joined(lines[1..]) + newline))
  {
    Regroup(lines[0], "\n", Joined(lines[1..]), newline);
  }

  lemma Regroup(a: string, b: string, c: string, d: string)
    ensures a + b + c + d == a + (b + (c + d))
  {
  }

  // ----- the whole check -----

  function EndsWith(s: string, end: string): bool {
    |end| <= |s| && s[|s| - |end|..] == end
  }

  function EndingFindings(block: string, lineCount: nat): seq<Finding> {
    if !EndsWith(block, "\n") then [Finding(Max(1, lineCount), NoNewline)]
    else
      var trimmed := if EndsWith(block, "\r\n") then block[..|block| - 2] else block[..|block| - 1];
      if EndsWith(trimmed, "\n") || EndsWith(trimmed, "\r") then [Finding(Max(1, lineCount), ManyNewlines)] else []
  }

  /** The block ends with one newline exactly. */
  ghost predicate EndsOnce(block: string) {
    exists body, newline :: (newline == "\n" || newline == "\r\n") && block == body + newline
      && (body == "" || (body[|body| - 1] != '\n' && body[|body| - 1] != '\r'))
  }

  lemma EndsAre(s: string)
    ensures EndsWith(s, "\n") <==> s != "" && s[|s| - 1] == '\n'
    ensures EndsWith(s, "\r") <==> s != "" && s[|s| - 1] == '\r'
    ensures EndsWith(s, "\r\n") <==> |s| >= 2 && s[|s| - 2] == '\r' && s[|s| - 1] == '\n'
  {
    if |s| >= 1 {
      assert s[|s| - 1..] == [s[|s| - 1]];
    }
    if |s| >= 2 {
      assert s[|s| - 2..] == [s[|s| - 2], s[|s| - 1]];
    }
  }

  /** How many characters stand before the newline at the end. */
  function BodyLength(block: string): nat
    requires block != ""
  {
    if |block| >= 2 && block[|block| - 2] == '\r' then |block| - 2 else |block| - 1
  }

  predicate CleanEnd(block: string) {
    && block != "" && block[|block| - 1] == '\n'
    && (BodyLength(block) == 0
        || (block[BodyLength(block) - 1] != '\n' && block[BodyLength(block) - 1] != '\r'))
  }

  lemma EndingByCharacters(block: string, lineCount: nat)
    ensures EndingFindings(block, lineCount) == [] <==> CleanEnd(block)
  {
    EndsAre(block);
    if block != "" && block[|block| - 1] == '\n' {
      EndsAre(block[..BodyLength(block)]);
    }
  }

  lemma EndsOnceIff(block: string)
    ensures EndsOnce(block) <==> CleanEnd(block)
  {
    if CleanEnd(block) {
      var n := BodyLength(block);
      assert block[n..] == if n == |block| - 2 then [block[n], block[n + 1]] else [block[n]];
      assert block == block[..n] + block[n..];
    }
  }

  /** Nothing is found at the end of a block that ends with one newline; else it has none, or too many. */
  lemma EndingIs(block: string, lineCount: nat)
    ensures EndingFindings(block, lineCount) == [] <==> EndsOnce(block)
    ensures !EndsOnce(block) ==>
        var reason := if block != "" && block[|block| - 1] == '\n' then ManyNewlines else NoNewline;
        EndingFindings(block, lineCount) == [Finding(Max(1, lineCount), reason)]
  {
    EndingByCharacters(block, lineCount);
    EndsOnceIff(block);
    EndsAre(block);
  }

  function HeaderFindings(lines: seq<string>): seq<Finding> {
    (if lines == [] || lines[0] != HEADER_LINE then [Finding(1, BadHeader)] else [])
    + (if |lines| < 2 || lines[1] != SEPARATOR_LINE then [Finding(2, BadSeparator)] else [])
  }

  /** Nothing is found in a header of these two lines, and in no other. */
  lemma HeaderIs(lines: seq<string>)
    ensures HeaderFindings(lines) == [] <==>
      |lines| >= 2 && lines[0] == "| Milestone | Scope | Open issues |" && lines[1] == "| :--- | :--- | ---: |"
  {
  }

  function DropEmptyEnd(lines: seq<string>): seq<string> {
    if lines != [] && lines[|lines| - 1] == "" then DropEmptyEnd(lines[..|lines| - 1]) else lines
  }

  function ShapeFindings(matcher: Matcher, block: string): seq<Finding> {
    var lines := SplitLines(block);
    var data := DropEmptyEnd(lines);
    EndingFindings(block, |lines|) + HeaderFindings(data) + DataFindings(matcher, data)
  }

  method CheckShape(matcher: Matcher, block: string) returns (findings: seq<Finding>)
    ensures findings == ShapeFindings(matcher, block)
  {
    var lines := SplitLines(block);
    findings := EndingFindings(block, |lines|);
    var data := lines;
    while data != [] && data[|data| - 1] == ""
      invariant DropEmptyEnd(data) == DropEmptyEnd(lines)
      decreases |data|
    {
      data := data[..|data| - 1];
    }
    findings := findings + HeaderFindings(data);
    var rowFindings := ValidateDataRows(matcher, data);
    findings := findings + rowFindings;
  }

  // ----- a rendered table is accepted -----

  lemma SomeRowIsRead(matcher: Matcher, line: string, g: Groups)
    requires IsMatcher(matcher) && '\n' !in line && RowMatches(line, g)
    ensures matcher(line) == Some(g)
  {
    if matcher(line).Some? {
      RowIsReadOneWay(line, g, matcher(line).value);
    }
  }

  /** What a milestone's title and count must be like for its row to be read. */
  predicate IsPrintable(m: Milestone) {
    var t := Strip(m.title);
    t != "" && NoLineBreak(t) && Run(t, |t|) % 2 == 0 && m.openIssues >= 0
  }

  /**
   * A rendered row stays one line and reads back as the milestone's own cells exactly when the title is
   * not blank, has no line break inside, ends in no odd run of backslashes, and the count is not negative.
   */
  lemma RowReadsBackIff(m: Milestone, owner: string, name: string, digits: string)
    requires IsPathPart(owner) && IsPathPart(name) && AllDigits(digits) && Strip(m.url) == Url(owner, name, digits)
    ensures SplitLines(RenderRow(m)) == [RenderRow(m)]
         && RowMatches(RenderRow(m),
             Groups(TitleCell(m), owner, name, digits, FormatDescription(m.description), IntText(m.openIssues)))
       <==> IsPrintable(m)
  {
    OneLineIff(RenderRow(m));
    UrlIsTrim(owner, name, digits);
    RowIsOneLineIff(m);
    if NoLineBreak(Strip(m.title)) {
      OneLineReadsBackIff(m, owner, name, digits);
    }
  }

  lemma OneLineReadsBackIff(m: Milestone, owner: string, name: string, digits: string)
    requires NoLineBreak(Strip(m.title))
    requires IsPathPart(owner) && IsPathPart(name) && AllDigits(digits) && Strip(m.url) == Url(owner, name, digits)
    ensures RowMatches(RenderRow(m),
        Groups(TitleCell(m), owner, name, digits, FormatDescription(m.description), IntText(m.openIssues)))
       <==> IsPrintable(m)
  {
    var t := Strip(m.title);
    var e := TitleCell(m);
    EscapeEscapesAll(t, TITLE_CHARS);
    EscapeKeepsEndRun(t, TITLE_CHARS);
    EscapeKeepsLines(t, TITLE_CHARS);
    TokensIff(e, 0);
    if t != "" {
      EscapeEnds(t, TITLE_CHARS);
    }
    DescriptionIsSound(m.description);
    if m.openIssues >= 0 {
      DecimalReadsBack(m.openIssues);
    } else {
      assert IntText(m.openIssues)[0] == '-';
    }
  }

  lemma {:induction false} NoBreakFound(s: string, i: nat)
    requires i <= |s| && forall k :: i <= k < |s| ==> !IsLineBreak(s[k])
    ensures FirstBreak(s, i) == |s|
    decreases |s| - i
  {
    if i < |s| {
      NoBreakFound(s, i + 1);
    }
  }

  /** A search for a line break stops at the first one. */
  lemma {:induction false} BreakIsFirst(s: string, i: nat)
    requires i <= |s|
    ensures forall k :: i <= k < FirstBreak(s, i) ==> !IsLineBreak(s[k])
    ensures FirstBreak(s, i) < |s| ==> IsLineBreak(s[FirstBreak(s, i)])
    decreases |s| - i
  {
    if i < |s| && !IsLineBreak(s[i]) {
      BreakIsFirst(s, i + 1);
    }
  }

  /** A text is the only line of itself exactly when it holds no line break. */
  lemma OneLineIff(s: string)
    requires s != ""
    ensures SplitLines(s) == [s] <==> NoLineBreak(s)
  {
    BreakIsFirst(s, 0);
    if NoLineBreak(s) {
      NoBreakFound(s, 0);
    } else if FirstBreak(s, 0) < |s| {
      assert SplitLines(s)[0] == s[..FirstBreak(s, 0)];
    }
  }

  lemma EscapeHidesNoBreak(s: string, chars: set<char>)
    ensures NoLineBreak(Escape(s, chars)) ==> NoLineBreak(s)
  {
    if NoLineBreak(Escape(s, chars)) {
      forall i | 0 <= i < |s| ensures !IsLineBreak(s[i]) {
        EscapeKeepsCharacter(s, chars, i);
      }
    }
  }

  lemma IntTextIsOneLine(i: int)
    ensures NoLineBreak(IntText(i)) && IntText(i) != ""
  {
    if i < 0 {
      SignedText(i);
      DigitsAreOneLine(IntText(i)[1..]);
      assert forall k :: 0 < k < |IntText(i)| ==> IntText(i)[k] == IntText(i)[1..][k - 1];
    } else {
      DecimalReadsBack(i);
      DigitsAreOneLine(IntText(i));
    }
  }

  lemma DigitsAreOneLine(s: string)
    requires AllDigits(s)
    ensures NoLineBreak(s)
  {
  }

  /** Only the title can break a row. */
  lemma RowIsOneLineIff(m: Milestone)
    requires NoLineBreak(Strip(m.url))
    ensures NoLineBreak(RenderRow(m)) <==> NoLineBreak(Strip(m.title))
  {
    var e := TitleCell(m);
    DescriptionIsSound(m.description);
    IntTextIsOneLine(m.openIssues);
    EscapeHidesNoBreak(Strip(m.title), TITLE_CHARS);
    if NoLineBreak(Strip(m.title)) {
      EscapeKeepsLines(Strip(m.title), TITLE_CHARS);
      LineIsOneLine(e, Strip(m.url), FormatDescription(m.description), IntText(m.openIssues));
    }
    if NoLineBreak(RenderRow(m)) {
      assert forall i :: 0 <= i < |e| ==> RenderRow(m)[|OPENING| + i] == e[i];
    }
  }

  lemma {:induction false} EscapeKeepsLines(s: string, chars: set<char>)
    requires NoLineBreak(s)
    ensures NoLineBreak(Escape(s, chars))
  {
    if s != "" {
      EscapeKeepsLines(s[..|s| - 1], chars);
    }
  }

  lemma DescriptionIsSound(description: Option<string>)
    ensures var scope := FormatDescription(description);
            scope != "" && IsTrim(scope) && NoLineBreak(scope) && AllEscaped(scope, {'|'})
  {
    if description.Some? {
      var c := Collapse(description.value);
      CollapseIsOneLine(description.value);
      EscapeKeepsLines(c, {'|'});
      EscapeStaysTrim(c, {'|'});
      EscapeEscapesAll(c, {'|'});
    }
  }

  /** A milestone of the repository: its URL ends in its number. */
  predicate IsNumbered(m: Milestone, owner: string, name: string) {
    m.number.Some? && m.number.value >= 0 && m.url == Url(owner, name, Decimal(m.number.value))
  }

  /** A milestone whose row the check can accept. */
  predicate IsRenderable(m: Milestone, owner: string, name: string) {
    IsNumbered(m, owner, name) && IsPrintable(m)
  }

  predicate Apart(a: Milestone, b: Milestone) {
    TitleCell(a) != TitleCell(b) && a.number != b.number
  }

  ghost predicate AreApart(ms: seq<Milestone>) {
    forall i, j :: 0 <= i < j < |ms| ==> Apart(ms[i], ms[j])
  }

  /** What the pattern captures of a renderable milestone's row. */
  function Captured(m: Milestone, owner: string, name: string): Groups
    requires m.number.Some? && m.number.value >= 0
  {
    Groups(TitleCell(m), owner, name, Decimal(m.number.value), FormatDescription(m.description), IntText(m.openIssues))
  }

  lemma RenderedRowIsSound(matcher: Matcher, m: Milestone, owner: string, name: string)
    requires IsMatcher(matcher) && IsRenderable(m, owner, name) && IsPathPart(owner) && IsPathPart(name)
    ensures matcher(RenderRow(m)) == Some(Captured(m, owner, name))
    ensures IsSoundRow(matcher, RenderRow(m)) && NoLineBreak(RenderRow(m))
  {
    var g := Captured(m, owner, name);
    RenderedRowIsRead(m, owner, name);
    RenderedRowIsOneLine(m, owner, name);
    assert matcher(RenderRow(m)) == Some(g) by {
      SomeRowIsRead(matcher, RenderRow(m), g);
    }
    CellsAreSound(m);
  }

  lemma CellsAreSound(m: Milestone)
    ensures AllEscaped(TitleCell(m), {'|'}) && AllEscaped(FormatDescription(m.description), {'|'})
    ensures Strip(FormatDescription(m.description)) != ""
  {
    EscapeEscapesAll(Strip(m.title), TITLE_CHARS);
    DescriptionIsSound(m.description);
    StripTrims(FormatDescription(m.description));
  }

  lemma RenderedRowIsRead(m: Milestone, owner: string, name: string)
    requires IsRenderable(m, owner, name) && IsPathPart(owner) && IsPathPart(name)
    ensures RowMatches(RenderRow(m), Captured(m, owner, name))
  {
    var digits := Decimal(m.number.value);
    DecimalReadsBack(m.number.value);
    UrlIsTrim(owner, name, digits);
    StripTrims(m.url);
    OneLineReadsBackIff(m, owner, name, digits);
  }

  lemma RenderedRowIsOneLine(m: Milestone, owner: string, name: string)
    requires IsRenderable(m, owner, name) && IsPathPart(owner) && IsPathPart(name)
    ensures NoLineBreak(RenderRow(m))
  {
    DecimalReadsBack(m.number.value);
    DecimalReadsBack(m.openIssues);
    UrlIsTrim(owner, name, Decimal(m.number.value));
    StripTrims(m.url);
    DescriptionIsSound(m.description);
    EscapeKeepsLines(Strip(m.title), TITLE_CHARS);
    LineIsOneLine(TitleCell(m), m.url, FormatDescription(m.description), IntText(m.openIssues));
  }

  lemma LineIsOneLine(title: string, url: string, scope: string, count: string)
    requires NoLineBreak(title) && NoLineBreak(url) && NoLineBreak(scope) && NoLineBreak(count)
    ensures NoLineBreak(Line(title, url, scope, count))
  {
    var a := BAR + (count + CLOSING);
    var b := AFTER_URL + (scope + a);
    assert NoLineBreak(a);
    assert NoLineBreak(b);
    assert NoLineBreak(url + b);
    assert NoLineBreak(AFTER_TITLE + (url + b));
  }

  lemma UrlIsTrim(owner: string, name: string, digits: string)
    requires IsPathPart(owner) && IsPathPart(name) && AllDigits(digits)
    ensures IsTrim(Url(owner, name, digits)) && NoLineBreak(Url(owner, name, digits))
  {
    var u := Url(owner, name, digits);
    assert u[0] == HOST[0];
    assert u[|u| - 1] == digits[|digits| - 1];
  }

  /** The key read from the row is the milestone's, but for a title that had to be escaped. */
  lemma RowKeyIsKey(m: Milestone, owner: string, name: string)
    requires IsRenderable(m, owner, name)
    ensures RowKey(Captured(m, owner, name)) == KeyOf(m).(title := TitleCell(m))
  {
    var t := Strip(m.title);
    StripTrims(m.title);
    EscapeStaysTrim(t, TITLE_CHARS);
    StripTrims(TitleCell(m));
    EscapeKeepsVersions(t);
    DecimalReadsBack(m.number.value);
    UrlEndsInNumber(owner, name, Decimal(m.number.value));
  }

  lemma RowsStayInOrder(a: Milestone, b: Milestone, owner: string, name: string)
    requires IsRenderable(a, owner, name) && IsRenderable(b, owner, name)
    requires Apart(a, b) && !KeyLess(KeyOf(b), KeyOf(a))
    ensures MayFollow(Captured(a, owner, name), Captured(b, owner, name))
  {
    RowKeyIsKey(a, owner, name);
    RowKeyIsKey(b, owner, name);
    EscapeKeepsVersions(Strip(a.title));
    EscapeKeepsVersions(Strip(b.title));
  }

  // ----- sorting -----

  ghost predicate IsSorted(ms: seq<Milestone>) {
    forall i, j :: 0 <= i < |ms| && j == i + 1 && j < |ms| ==> !KeyLess(KeyOf(ms[j]), KeyOf(ms[i]))
  }

  ghost predicate AreRenderable(ms: seq<Milestone>, owner: string, name: string) {
    && (forall i :: 0 <= i < |ms| ==> IsRenderable(ms[i], owner, name))
    && AreApart(ms)
  }

  lemma SortedTail(ms: seq<Milestone>)
    requires ms != [] && IsSorted(ms)
    ensures IsSorted(ms[1..])
  {
    forall i, j | 0 <= i < |ms[1..]| && j == i + 1 && j < |ms[1..]|
      ensures !KeyLess(KeyOf(ms[1..][j]), KeyOf(ms[1..][i])) {
      assert !KeyLess(KeyOf(ms[j + 1]), KeyOf(ms[i + 1]));
    }
  }

  lemma SortedWith(m: Milestone, ms: seq<Milestone>)
    requires IsSorted(ms) && (ms != [] ==> !KeyLess(KeyOf(ms[0]), KeyOf(m)))
    ensures IsSorted([m] + ms)
  {
    var t := [m] + ms;
    forall i, j | 0 <= i < |t| && j == i + 1 && j < |t| ensures !KeyLess(KeyOf(t[j]), KeyOf(t[i])) {
      assert i > 0 ==> !KeyLess(KeyOf(ms[j - 1]), KeyOf(ms[i - 1]));
    }
  }

  lemma {:induction false} InsertHolds(m: Milestone, ms: seq<Milestone>)
    ensures multiset(Insert(m, ms)) == multiset(ms) + multiset{m}
    ensures Insert(m, ms)[0] == m || (ms != [] && Insert(m, ms)[0] == ms[0])
  {
    if ms != [] && KeyLess(KeyOf(ms[0]), KeyOf(m)) {
      InsertHolds(m, ms[1..]);
      assert ms == [ms[0]] + ms[1..];
    }
  }

  lemma {:induction false} InsertSorts(m: Milestone, ms: seq<Milestone>)
    requires IsSorted(ms)
    ensures IsSorted(Insert(m, ms))
    ensures multiset(Insert(m, ms)) == multiset(ms) + multiset{m}
  {
    InsertHolds(m, ms);
    if ms != [] && KeyLess(KeyOf(ms[0]), KeyOf(m)) {
      SortedTail(ms);
      InsertSorts(m, ms[1..]);
      InsertHolds(m, ms[1..]);
      KeyLessIsOneWay(KeyOf(ms[0]), KeyOf(m));
      assert |ms| > 1 ==> !KeyLess(KeyOf(ms[1]), KeyOf(ms[0]));
      SortedWith(ms[0], Insert(m, ms[1..]));
    } else {
      SortedWith(m, ms);
    }
  }

  /** The rows come in key order, each milestone once. */
  lemma {:induction false} SortedIsSorted(ms: seq<Milestone>)
    ensures IsSorted(Sorted(ms)) && multiset(Sorted(ms)) == multiset(ms)
  {
    if ms != [] {
      SortedIsSorted(ms[1..]);
      InsertSorts(ms[0], Sorted(ms[1..]));
      assert ms == [ms[0]] + ms[1..];
    }
  }

  lemma RenderableWith(m: Milestone, ms: seq<Milestone>, owner: string, name: string)
    requires AreRenderable(ms, owner, name) && IsRenderable(m, owner, name)
    requires forall k :: k in ms ==> Apart(m, k)
    ensures AreRenderable([m] + ms, owner, name)
  {
    var t := [m] + ms;
    assert forall i :: 0 < i < |t| ==> t[i] == ms[i - 1] && t[i] in ms;
  }

  lemma RenderableTail(ms: seq<Milestone>, owner: string, name: string)
    requires ms != [] && AreRenderable(ms, owner, name)
    ensures AreRenderable(ms[1..], owner, name)
    ensures forall k :: k in ms[1..] ==> Apart(ms[0], k)
  {
    assert forall i :: 0 <= i < |ms[1..]| ==> ms[1..][i] == ms[i + 1];
  }

  lemma {:induction false} InsertKeepsApart(m: Milestone, ms: seq<Milestone>, owner: string, name: string)
    requires AreRenderable(ms, owner, name) && IsRenderable(m, owner, name)
    requires forall k :: k in ms ==> Apart(m, k)
    ensures AreRenderable(Insert(m, ms), owner, name) && |Insert(m, ms)| == |ms| + 1
    ensures forall k: Milestone :: k in Insert(m, ms) <==> k == m || k in ms
  {
    if ms != [] && KeyLess(KeyOf(ms[0]), KeyOf(m)) {
      RenderableTail(ms, owner, name);
      assert ms == [ms[0]] + ms[1..];
      InsertKeepsApart(m, ms[1..], owner, name);
      assert Apart(m, ms[0]) && Apart(ms[0], m);
      RenderableWith(ms[0], Insert(m, ms[1..]), owner, name);
    } else {
      RenderableWith(m, ms, owner, name);
    }
  }

  lemma {:induction false} SortKeepsApart(ms: seq<Milestone>, owner: string, name: string)
    requires AreRenderable(ms, owner, name)
    ensures AreRenderable(Sorted(ms), owner, name)
    ensures forall k: Milestone :: k in Sorted(ms) <==> k in ms
    ensures |Sorted(ms)| == |ms|
  {
    if ms != [] {
      RenderableTail(ms, owner, name);
      SortKeepsApart(ms[1..], owner, name);
      InsertKeepsApart(ms[0], Sorted(ms[1..]), owner, name);
      assert ms == [ms[0]] + ms[1..];
    }
  }

  /** The groups captured from a list of rows make a sound table. */
  lemma TableOfGroups(matcher: Matcher, rows: seq<string>, groups: seq<Groups>)
    requires |rows| == |groups|
    requires forall i :: 0 <= i < |rows| ==> matcher(rows[i]) == Some(groups[i]) && IsSoundRow(matcher, rows[i])
    requires forall i, j :: 0 <= i < j < |groups| ==> Differ(groups[i], groups[j])
    requires forall i, j :: 0 <= i && j == i + 1 && j < |groups| ==> MayFollow(groups[i], groups[j])
    ensures IsSoundTable(matcher, rows)
  {
    forall k | 0 <= k < |rows| ensures Joins(matcher, rows[..k], rows[k]) {
      assert k > 0 ==> MayFollow(groups[k - 1], groups[k]);
    }
  }

  function CapturedAll(ms: seq<Milestone>, owner: string, name: string): (groups: seq<Groups>)
    requires forall i :: 0 <= i < |ms| ==> ms[i].number.Some? && ms[i].number.value >= 0
    ensures |groups| == |ms| && forall i :: 0 <= i < |ms| ==> groups[i] == Captured(ms[i], owner, name)
  {
    seq(|ms|, i requires 0 <= i < |ms| => Captured(ms[i], owner, name))
  }

  lemma RenderedRowsAreSound(matcher: Matcher, ms: seq<Milestone>, owner: string, name: string)
    requires IsMatcher(matcher) && IsPathPart(owner) && IsPathPart(name)
    requires AreRenderable(ms, owner, name) && IsSorted(ms)
    ensures IsSoundTable(matcher, Rows(ms))
    ensures forall i :: 0 <= i < |ms| ==> NoLineBreak(Rows(ms)[i])
  {
    var rows, groups := Rows(ms), CapturedAll(ms, owner, name);
    forall i | 0 <= i < |ms|
      ensures matcher(rows[i]) == Some(groups[i]) && IsSoundRow(matcher, rows[i]) && NoLineBreak(rows[i]) {
      RenderedRowIsSound(matcher, ms[i], owner, name);
    }
    forall i, j | 0 <= i < j < |ms| ensures Differ(groups[i], groups[j]) {
      RowsDiffer(ms[i], ms[j], owner, name);
    }
    forall i, j | 0 <= i && j == i + 1 && j < |ms| ensures MayFollow(groups[i], groups[j]) {
      RowsStayInOrder(ms[i], ms[j], owner, name);
    }
    TableOfGroups(matcher, rows, groups);
  }

  lemma RowsDiffer(a: Milestone, b: Milestone, owner: string, name: string)
    requires IsRenderable(a, owner, name) && IsRenderable(b, owner, name) && Apart(a, b)
    ensures Differ(Captured(a, owner, name), Captured(b, owner, name))
  {
    DecimalReadsBack(a.number.value);
    DecimalReadsBack(b.number.value);
    UrlEndsInNumber(owner, name, Decimal(a.number.value));
    UrlEndsInNumber(owner, name, Decimal(b.number.value));
  }

  /**
   * Every list of milestones of one repository, with titles that stay apart when escaped, renders to a
   * block in which the shape check finds nothing.
   */
  lemma RenderedTableIsAccepted(matcher: Matcher, ms: seq<Milestone>, owner: string, name: string, newline: string)
    requires IsMatcher(matcher) && IsPathPart(owner) && IsPathPart(name) && IsNewline(newline)
    requires ms != [] && AreRenderable(ms, owner, name)
    ensures ShapeFindings(matcher, Joined(TableLines(ms)) + newline) == []
  {
    SortedIsSorted(ms);
    SortKeepsApart(ms, owner, name);
    RenderedRowsAreSound(matcher, Sorted(ms), owner, name);
    NoFindingsIff(matcher, Rows(Sorted(ms)));
    ShapeIsRows(matcher, Sorted(ms), newline);
  }

  /** Around rows of one line each, the rendered frame gives the check nothing to find. */
  lemma ShapeIsRows(matcher: Matcher, ms: seq<Milestone>, newline: string)
    requires ms != [] && IsNewline(newline) && forall i :: 0 <= i < |ms| ==> NoLineBreak(Rows(ms)[i])
    ensures ShapeFindings(matcher, Joined(HEAD + Rows(ms)) + newline) == CheckRows(matcher, Rows(ms)).findings
  {
    var lines := HEAD + Rows(ms);
    HeadIsOneLine(Rows(ms));
    LastLineIsRow(ms);
    FrameIsFound(matcher, Rows(ms));
    ShapeOfLines(matcher, lines, newline);
  }

  lemma HeadIsOneLine(rows: seq<string>)
    requires forall i :: 0 <= i < |rows| ==> NoLineBreak(rows[i])
    ensures forall i :: 0 <= i < |HEAD + rows| ==> NoLineBreak((HEAD + rows)[i])
  {
    FrameIsOneLine();
    assert HEAD[0] == HEADER_LINE && HEAD[1] == SEPARATOR_LINE && |HEAD| == 2;
  }

  /** Lines without line breaks, the last of which ends a row, are found as they are. */
  lemma ShapeOfLines(matcher: Matcher, lines: seq<string>, newline: string)
    requires lines != [] && IsNewline(newline) && forall i :: 0 <= i < |lines| ==> NoLineBreak(lines[i])
    requires var last := lines[|lines| - 1]; last != "" && last[|last| - 1] == '|'
    ensures ShapeFindings(matcher, Joined(lines) + newline) == HeaderFindings(lines) + DataFindings(matcher, lines)
  {
    var block := Joined(lines) + newline;
    LinesReadBack(lines, newline);
    BlockEndsOnce(lines, newline);
    ShapeOfBlock(matcher, block, lines);
  }

  lemma ShapeOfBlock(matcher: Matcher, block: string, lines: seq<string>)
    requires SplitLines(block) == lines && EndingFindings(block, |lines|) == []
    requires lines != [] && lines[|lines| - 1] != ""
    ensures ShapeFindings(matcher, block) == HeaderFindings(lines) + DataFindings(matcher, lines)
  {
    NothingIsDropped(lines);
    assert [] + HeaderFindings(lines) == HeaderFindings(lines);
  }

  lemma LastLineIsRow(ms: seq<Milestone>)
    requires ms != []
    ensures var lines := HEAD + Rows(ms);
            var last := lines[|lines| - 1];
            last != "" && last[|last| - 1] == '|'
  {
    assert (HEAD + Rows(ms))[|HEAD| + |ms| - 1] == Rows(ms)[|ms| - 1];
    RowEndsInBar(ms[|ms| - 1]);
  }

  lemma NothingIsDropped(lines: seq<string>)
    requires lines != [] && lines[|lines| - 1] != ""
    ensures DropEmptyEnd(lines) == lines
  {
  }

  lemma FrameIsFound(matcher: Matcher, rows: seq<string>)
    requires rows != []
    ensures HeaderFindings(HEAD + rows) == []
    ensures DataFindings(matcher, HEAD + rows) == CheckRows(matcher, rows).findings
  {
    assert (HEAD + rows)[2..] == rows;
  }

  lemma FrameIsOneLine()
    ensures NoLineBreak(HEADER_LINE) && NoLineBreak(SEPARATOR_LINE)
  {
  }

  lemma RowEndsInBar(m: Milestone)
    ensures RenderRow(m) != "" && RenderRow(m)[|RenderRow(m)| - 1] == '|'
  {
  }

  lemma {:induction false} JoinedEnds(lines: seq<string>)
    requires lines != [] && lines[|lines| - 1] != ""
    ensures Joined(lines) != "" && Joined(lines)[|Joined(lines)| - 1] == lines[|lines| - 1][|lines[|lines| - 1]| - 1]
  {
    if |lines| > 1 {
      JoinedEnds(lines[1..]);
    }
  }

  lemma BlockEndsOnce(lines: seq<string>, newline: string)
    requires lines != [] && lines[|lines| - 1] != "" && IsNewline(newline)
    requires lines[|lines| - 1][|lines[|lines| - 1]| - 1] == '|'
    ensures EndingFindings(Joined(lines) + newline, |lines|) == []
  {
    JoinedEnds(lines);
    var block := Joined(lines) + newline;
    assert block[..|block| - |newline|] == Joined(lines);
    assert block[|block| - |newline|..] == newline;
    if newline == "\n" {
      assert block[|block| - 2] == '|';
      assert block[|block| - 2..][0] == '|';
    }
  }

  // ----- an accepted table was renderable -----

  /** A URL has no two slashes together behind its host. */
  lemma NoDoubleSlash(owner: string, name: string, digits: string, k: nat)
    requires IsPathPart(owner) && IsPathPart(name) && AllDigits(digits)
    requires |HOST| <= k < |Url(owner, name, digits)| && Url(owner, name, digits)[k] == '/'
    ensures k + 1 < |Url(owner, name, digits)| && Url(owner, name, digits)[k + 1] != '/'
  {
    var u := Url(owner, name, digits);
    UrlCharacters(owner, name, digits, k);
    UrlCharacters(owner, name, digits, k + 1);
  }

  /** Which part of a URL a position lies in. */
  lemma UrlCharacters(owner: string, name: string, digits: string, k: nat)
    requires k < |Url(owner, name, digits)|
    ensures var u := Url(owner, name, digits);
            var o, n, m := |HOST|, |HOST| + |owner| + 1, |HOST| + |owner| + 1 + |name|;
            && |u| == m + |MILESTONE_PATH| + |digits|
            && u[k] == (if k < o then HOST[k] else if k < n - 1 then owner[k - o] else if k == n - 1 then '/'
                        else if k < m then name[k - n] else if k < m + |MILESTONE_PATH| then MILESTONE_PATH[k - m]
                        else digits[k - m - |MILESTONE_PATH|])
  {
  }

  /** A bracket in a URL is followed by a slash that is no pair. */
  lemma BracketThenSlash(owner: string, name: string, digits: string, j: nat)
    requires IsPathPart(owner) && IsPathPart(name) && AllDigits(digits)
    requires j < |Url(owner, name, digits)| && Url(owner, name, digits)[j] == ']'
    ensures |HOST| <= j
    ensures exists q :: j < q < |Url(owner, name, digits)| && Url(owner, name, digits)[q] == '/'
  {
    UrlCharacters(owner, name, digits, j);
    var q := |HOST| + |owner| + 1 + |name|;
    UrlCharacters(owner, name, digits, q);
  }

  /** No second host can begin inside a URL: a bracket there cannot be the one that ends a title. */
  lemma NoHostInside(owner: string, name: string, digits: string, j: nat, u: string)
    requires IsPathPart(owner) && IsPathPart(name) && AllDigits(digits)
    requires Url(owner, name, digits) <= u
    requires j < |Url(owner, name, digits)| && u[j] == ']'
    requires j + 2 + |HOST| <= |u| && u[j + 1] == '('
    ensures u[j + 2..j + 2 + |HOST|] != HOST
  {
    var url, cut := Url(owner, name, digits), u[j + 2..j + 2 + |HOST|];
    BracketThenSlash(owner, name, digits, j);
    var q :| j < q < |url| && url[q] == '/';
    assert forall k :: 0 <= k < 6 ==> HOST[k] != '/';
    if q < j + 8 {
      assert cut[q - j - 2] == '/' && HOST[q - j - 2] != '/';
    } else if url[j + 8] == '/' {
      NoDoubleSlash(owner, name, digits, j + 8);
      assert cut[7] == url[j + 9] && HOST[7] == '/';
    } else {
      assert cut[6] == url[j + 8] && HOST[6] == '/';
    }
  }

  /** No title that goes on past its own cell is read without an unescaped bar in it. */
  lemma LongTitleHoldsBar(e: string, owner: string, name: string, digits: string, rest: string, g: Groups, z: string)
    requires IsPathPart(owner) && IsPathPart(name) && AllDigits(digits)
    requires e + (AFTER_TITLE + (Url(owner, name, digits) + (AFTER_URL + rest)))
          == g.title + (AFTER_TITLE + (Url(g.owner, g.name, g.digits) + z))
    requires |g.title| > |e|
    ensures !AllEscaped(g.title, {'|'})
  {
    var url, y := Url(owner, name, digits), |g.title| - |e|;
    var x := AFTER_TITLE + (url + (AFTER_URL + rest));
    var s := e + x;
    assert s[|g.title|] == ']' && s[|g.title| + 1] == '(';
    assert x[y] == ']' && x[y + 1] == '(';
    assert forall k :: 0 <= k < |url| ==> x[2 + k] == url[k];
    assert x[1] == '(' && x[2 + |url|] == ')' && x[3 + |url|] == ' ' && x[4 + |url|] == '|';
    if y < 2 + |url| {
      TitleCannotEndInUrl(owner, name, digits, AFTER_URL + rest, e, x, y, g, z);
    } else {
      var bar := |e| + 4 + |url|;
      assert g.title[bar] == s[bar] == '|' && g.title[bar - 1] == s[bar - 1] == ' ';
      assert !IsEscaped(g.title, bar);
    }
  }

  lemma TitleCannotEndInUrl(owner: string, name: string, digits: string, after: string, e: string, x: string, y: nat,
                            g: Groups, z: string)
    requires IsPathPart(owner) && IsPathPart(name) && AllDigits(digits)
    requires x == AFTER_TITLE + (Url(owner, name, digits) + after)
    requires e + x == g.title + (AFTER_TITLE + (Url(g.owner, g.name, g.digits) + z))
    requires |g.title| == |e| + y && 2 <= y
    ensures y >= 2 + |Url(owner, name, digits)|
  {
    var u, gu := Url(owner, name, digits) + after, Url(g.owner, g.name, g.digits) + z;
    Remainder(e, x, g.title, AFTER_TITLE + gu, y);
    Remainder(AFTER_TITLE, u, AFTER_TITLE + x[2..y], AFTER_TITLE + gu, y - 2);
    UrlThen(g.owner, g.name, g.digits, z);
    if y - 2 < |Url(owner, name, digits)| {
      HostFollows(u, y - 2, gu, g.owner + (SLASH + (g.name + (MILESTONE_PATH + (g.digits + z)))));
      NoHostInside(owner, name, digits, y - 2, u);
    }
  }

  /** What is left of the second part when the first part of another split reaches into it. */
  lemma Remainder(a: string, x: string, b: string, r: string, k: nat)
    requires a + x == b + r && |b| == |a| + k
    ensures k <= |x| && x[k..] == r
  {
    assert x[k..] == (a + x)[|a| + k..];
    assert r == (b + r)[|b|..];
  }

  lemma HostFollows(u: string, j: nat, gu: string, hosted: string)
    requires j <= |u| && u[j..] == AFTER_TITLE + gu && gu == HOST + hosted
    ensures j + 2 + |HOST| <= |u| && u[j] == ']' && u[j + 1] == '(' && u[j + 2..j + 2 + |HOST|] == HOST
  {
    var tail := AFTER_TITLE + (HOST + hosted);
    assert u[j] == tail[0] && u[j + 1] == tail[1];
    assert u[j + 2..j + 2 + |HOST|] == tail[2..2 + |HOST|];
  }

  /** The text of a row, cut behind its title and behind its URL. */
  lemma RowParts(m: Milestone)
    ensures RenderRow(m) == OPENING + (TitleCell(m) + (AFTER_TITLE + (Strip(m.url) + (AFTER_URL +
      (FormatDescription(m.description) + (BAR + (IntText(m.openIssues) + CLOSING)))))))
  {
  }

  function RestOf(g: Groups): string {
    AFTER_URL + (g.scope + (BAR + (g.count + CLOSING)))
  }

  /** What matches a rendered row begins with its title cell, or holds an unescaped bar in its title. */
  lemma MatchedTitle(m: Milestone, owner: string, name: string, digits: string, g: Groups)
    requires IsPathPart(owner) && IsPathPart(name) && AllDigits(digits) && Strip(m.url) == Url(owner, name, digits)
    requires RowMatches(RenderRow(m), g) && AllEscaped(g.title, {'|'})
    ensures g.title == TitleCell(m)
    ensures Strip(m.url) + (AFTER_URL + (FormatDescription(m.description) + (BAR + (IntText(m.openIssues) + CLOSING))))
         == Url(g.owner, g.name, g.digits) + RestOf(g)
  {
    var e, z := TitleCell(m), RestOf(g);
    var rest := FormatDescription(m.description) + (BAR + (IntText(m.openIssues) + CLOSING));
    var x, y := AFTER_TITLE + (Strip(m.url) + (AFTER_URL + rest)), AFTER_TITLE + (Url(g.owner, g.name, g.digits) + z);
    RowParts(m);
    CancelLeft(OPENING, e + x, OPENING, g.title + y);
    if |g.title| > |e| {
      LongTitleHoldsBar(e, owner, name, digits, rest, g, z);
    }
    if |g.title| < |e| {
      TitleEndsNotInside(m, x, g, y);
    }
    CancelLeft(e, x, g.title, y);
    CancelLeft(AFTER_TITLE, Strip(m.url) + (AFTER_URL + rest), AFTER_TITLE, Url(g.owner, g.name, g.digits) + z);
  }

  /** A match cannot end inside the title cell, since every bracket there is escaped. */
  lemma TitleEndsNotInside(m: Milestone, x: string, g: Groups, y: string)
    requires TitleCell(m) + x == g.title + y && y != "" && y[0] == ']' && Tokens(g.title, 0)
    ensures |g.title| >= |TitleCell(m)|
  {
    var e, n := TitleCell(m), |g.title|;
    EscapeEscapesAll(Strip(m.title), TITLE_CHARS);
    TokensIff(g.title, 0);
    if n < |e| {
      assert (g.title + y)[n] == y[0];
      assert forall k :: 0 <= k < n ==> e[k] == (e + x)[k] && g.title[k] == (g.title + y)[k];
      RunOfPrefix(e, g.title, n);
    }
  }

  /** The count of a match is made of digits with a blank before it, so no sign can stand there. */
  lemma SignIsNoCount(s: string, c: string, t: string, d: string)
    requires s + (BAR + (c + CLOSING)) == t + (BAR + (d + CLOSING))
    requires c != "" && AllDigits(c[1..]) && AllDigits(d)
    ensures c[0] != '-'
  {
    var l, r := s + (BAR + (c + CLOSING)), t + (BAR + (d + CLOSING));
    assert forall k :: 0 <= k < |c| ==> l[|s| + 3 + k] == c[k];
    assert forall k :: 0 <= k < |d| ==> r[|t| + 3 + k] == d[k];
    assert r[|t| + 2] == ' ';
    if |d| < |c| {
      assert c[|c| - |d| - 1] == r[|t| + 2];
    } else {
      assert c[0] == d[|d| - |c|];
    }
  }

  /** A title that can be read ends in no odd run of backslashes. */
  lemma TokensEndEven(t: string)
    requires Tokens(t, 0)
    ensures Run(t, |t|) % 2 == 0
  {
    TokensIff(t, 0);
  }

  lemma ReadTitleIsPrintable(m: Milestone, title: string)
    requires title == TitleCell(m) && title != "" && Run(title, |title|) % 2 == 0
    ensures var t := Strip(m.title); t != "" && Run(t, |t|) % 2 == 0
  {
    EscapeKeepsEndRun(Strip(m.title), TITLE_CHARS);
  }

  /** A row that matches behind its title has a count without sign. */
  lemma ReadCountIsPrintable(url: string, owner: string, name: string, digits: string, scope: string, count: int,
                             g: Groups)
    requires IsPathPart(owner) && IsPathPart(name) && AllDigits(digits) && url == Url(owner, name, digits)
    requires IsPathPart(g.owner) && IsPathPart(g.name) && AllDigits(g.digits) && AllDigits(g.count)
    requires url + (AFTER_URL + (scope + (BAR + (IntText(count) + CLOSING))))
      == Url(g.owner, g.name, g.digits) + RestOf(g)
    ensures count >= 0
  {
    if count < 0 {
      var c := IntText(count);
      var rest, restOfG := scope + (BAR + (c + CLOSING)), g.scope + (BAR + (g.count + CLOSING));
      UrlIsReadOneWay(Groups("", owner, name, digits, "", ""), AFTER_URL + rest, g, AFTER_URL + restOfG);
      CancelLeft(AFTER_URL, rest, AFTER_URL, restOfG);
      SignedText(count);
      SignIsNoCount(scope, c, g.scope, g.count);
    }
  }

  lemma SignedText(count: int)
    requires count < 0
    ensures var c := IntText(count); c != "" && c[0] == '-' && AllDigits(c[1..])
  {
    DecimalReadsBack(-count);
    assert IntText(count)[1..] == Decimal(-count);
  }

  /** Whatever a one-line row matches with escaped bars, the milestone is printable. */
  lemma MatchedRowIsPrintable(m: Milestone, owner: string, name: string, digits: string, g: Groups)
    requires IsPathPart(owner) && IsPathPart(name) && AllDigits(digits) && Strip(m.url) == Url(owner, name, digits)
    requires NoLineBreak(Strip(m.title)) && RowMatches(RenderRow(m), g) && AllEscaped(g.title, {'|'})
    ensures IsPrintable(m)
  {
    MatchedTitle(m, owner, name, digits, g);
    TokensEndEven(g.title);
    ReadTitleIsPrintable(m, g.title);
    ReadCountIsPrintable(Strip(m.url), owner, name, digits, FormatDescription(m.description), m.openIssues, g);
  }

  /** A rendered row of one line passes the check of its own cells exactly when the milestone is printable. */
  lemma RowIsSoundIff(matcher: Matcher, m: Milestone, owner: string, name: string)
    requires IsMatcher(matcher) && IsNumbered(m, owner, name) && IsPathPart(owner) && IsPathPart(name)
    requires NoLineBreak(RenderRow(m))
    ensures IsSoundRow(matcher, RenderRow(m)) <==> IsPrintable(m)
  {
    var digits := Decimal(m.number.value);
    DecimalReadsBack(m.number.value);
    UrlIsTrim(owner, name, digits);
    StripTrims(m.url);
    RowIsOneLineIff(m);
    if IsSoundRow(matcher, RenderRow(m)) {
      assert '\n' !in RenderRow(m);
      MatchedRowIsPrintable(m, owner, name, digits, matcher(RenderRow(m)).value);
    }
    if IsPrintable(m) {
      RenderedRowIsSound(matcher, m, owner, name);
    }
  }

  // ----- rows that break -----

  lemma {:induction false} FirstBreakStays(s: string, more: string, i: nat)
    requires i <= |s| && FirstBreak(s, i) < |s|
    ensures FirstBreak(s + more, i) == FirstBreak(s, i)
    decreases |s| - i
  {
    if !IsLineBreak(s[i]) {
      FirstBreakStays(s, more, i + 1);
    }
  }

  lemma BreakIsFound(s: string)
    requires !NoLineBreak(s)
    ensures FirstBreak(s, 0) < |s|
  {
    BreakIsFirst(s, 0);
  }

  /** The first line that holds a break is split there, and the lines before it are found as they are. */
  lemma {:induction false} BrokenLineIsSplit(lines: seq<string>, j: nat, newline: string)
    requires j < |lines| && IsNewline(newline)
    requires (forall i :: 0 <= i < j ==> NoLineBreak(lines[i])) && !NoLineBreak(lines[j])
    ensures FirstBreak(lines[j], 0) < |lines[j]|
    ensures var found := SplitLines(Joined(lines) + newline);
            |found| > j && found[..j] == lines[..j] && found[j] == lines[j][..FirstBreak(lines[j], 0)]
    decreases j
  {
    BreakIsFound(lines[j]);
    if j == 0 {
      var more := if |lines| == 1 then newline else "\n" + (Joined(lines[1..]) + newline);
      if |lines| > 1 {
        JoinedThen(lines, newline);
      }
      SplitAtBreak(lines[0], more);
    } else {
      var rest := Joined(lines[1..]) + newline;
      BrokenLineIsSplit(lines[1..], j - 1, newline);
      JoinedThen(lines, newline);
      SplitOffLine(lines[0], "\n", rest);
      LineBefore(lines, j, SplitLines(rest), SplitLines(Joined(lines) + newline));
    }
  }

  lemma LineBefore(lines: seq<string>, j: nat, after: seq<string>, found: seq<string>)
    requires 0 < j < |lines| && found == [lines[0]] + after && |after| >= j && after[..j - 1] == lines[1..][..j - 1]
    ensures |found| > j && found[..j] == lines[..j] && found[j] == after[j - 1]
  {
    assert lines[..j] == [lines[0]] + lines[1..][..j - 1];
  }

  lemma SplitAtBreak(line: string, more: string)
    requires FirstBreak(line, 0) < |line|
    ensures SplitLines(line + more) != [] && SplitLines(line + more)[0] == line[..FirstBreak(line, 0)]
  {
    var end := FirstBreak(line, 0);
    FirstBreakStays(line, more, 0);
    assert (line + more)[..end] == line[..end];
  }

  /** The first break of a text with a break in its middle part comes no later than that part. */
  lemma BreakInMiddle(a: string, e: string, x: string)
    requires NoLineBreak(a) && !NoLineBreak(e)
    ensures var end := FirstBreak(a + (e + x), 0);
            |a| <= end < |a| + |e| && (a + (e + x))[..end] == a + e[..end - |a|]
  {
    var row := a + (e + x);
    var k :| 0 <= k < |e| && IsLineBreak(e[k]);
    assert row[|a| + k] == e[k];
    assert forall i :: 0 <= i < |a| ==> row[i] == a[i];
    BreakIsFirst(row, 0);
  }

  /** The first piece of a broken row ends inside the title cell. */
  ghost predicate BreaksInTitle(m: Milestone, row: string) {
    var end := FirstBreak(row, 0);
    |OPENING| <= end < |OPENING| + |TitleCell(m)| && row[..end] == OPENING + TitleCell(m)[..end - |OPENING|]
  }

  lemma BrokenRowStart(m: Milestone, row: string)
    requires row == RenderRow(m) && NoLineBreak(Strip(m.url)) && !NoLineBreak(row)
    ensures BreaksInTitle(m, row)
  {
    RowIsOneLineIff(m);
    EscapeHidesNoBreak(Strip(m.title), TITLE_CHARS);
    RowParts(m);
    BreakInMiddle(OPENING, TitleCell(m), AFTER_TITLE + (Strip(m.url) + (AFTER_URL +
      (FormatDescription(m.description) + (BAR + (IntText(m.openIssues) + CLOSING))))));
  }

  /** A piece of a row that ends inside the title matches nothing: a bar that could close it is escaped. */
  lemma PieceMatchesNothing(m: Milestone, n: nat, g: Groups)
    requires n <= |TitleCell(m)|
    ensures !RowMatches(OPENING + TitleCell(m)[..n], g)
  {
    var e := TitleCell(m);
    var line, row := OPENING + e[..n], Line(g.title, Url(g.owner, g.name, g.digits), g.scope, g.count);
    EscapeEscapesAll(Strip(m.title), TITLE_CHARS);
    assert row[|row| - 1] == '|' && row[|row| - 2] == ' ';
    if n >= 2 && e[n - 1] == '|' {
      assert IsEscaped(e, n - 1);
      assert line[|line| - 2] == e[n - 2] == '\\';
    } else if n == 1 {
      assert line[|line| - 2] == '[';
    } else if n >= 2 {
      assert line[|line| - 1] == e[n - 1];
    } else {
      assert line[|line| - 1] == '[';
    }
  }

  lemma {:induction false} DropKeeps(lines: seq<string>, k: nat)
    requires k < |lines| && lines[k] != ""
    ensures |DropEmptyEnd(lines)| > k && DropEmptyEnd(lines)[..k + 1] == lines[..k + 1]
  {
    if lines[|lines| - 1] == "" {
      DropKeeps(lines[..|lines| - 1], k);
    }
  }

  /** A block with a row that breaks in its title is never accepted. */
  lemma BrokenPieceIsFound(matcher: Matcher, m: Milestone, block: string, row: string, k: nat)
    requires IsMatcher(matcher) && 2 <= k < |SplitLines(block)| && BreaksInTitle(m, row)
    requires SplitLines(block)[k] == row[..FirstBreak(row, 0)]
    ensures ShapeFindings(matcher, block) != []
  {
    var found, end := SplitLines(block), FirstBreak(row, 0);
    BreakIsFirst(row, 0);
    DropKeeps(found, k);
    var data := DropEmptyEnd(found);
    assert data[k] == data[..k + 1][k] == found[k];
    PieceIsFound(matcher, m, end - |OPENING|, data, k);
    DataFindingStays(matcher, block, data);
  }

  lemma PieceIsSplitOff(lines: seq<string>, k: nat, newline: string, line: string, found: seq<string>)
    requires IsNewline(newline) && k < |lines| && line == lines[k] && found == SplitLines(Joined(lines) + newline)
    requires (forall i :: 0 <= i < k ==> NoLineBreak(lines[i])) && !NoLineBreak(line)
    ensures |found| > k && found[k] == line[..FirstBreak(line, 0)]
  {
    BrokenLineIsSplit(lines, k, newline);
  }

  lemma LinesBefore(head: seq<string>, rows: seq<string>, j: nat)
    requires j < |rows| && forall i :: 0 <= i < |head| ==> NoLineBreak(head[i])
    requires forall i :: 0 <= i < j ==> NoLineBreak(rows[i])
    ensures (head + rows)[|head| + j] == rows[j]
    ensures forall i :: 0 <= i < |head| + j ==> NoLineBreak((head + rows)[i])
  {
  }

  lemma DataFindingStays(matcher: Matcher, block: string, data: seq<string>)
    requires data == DropEmptyEnd(SplitLines(block)) && DataFindings(matcher, data) != []
    ensures ShapeFindings(matcher, block) != []
  {
  }

  lemma PieceIsFound(matcher: Matcher, m: Milestone, n: nat, data: seq<string>, k: nat)
    requires IsMatcher(matcher) && n <= |TitleCell(m)| && 2 <= k < |data|
    requires data[k] == OPENING + TitleCell(m)[..n] && NoLineBreak(data[k])
    ensures DataFindings(matcher, data) != []
  {
    var rows := data[2..];
    assert rows[k - 2] == data[k];
    PieceIsUnmatched(matcher, m, n, data[k]);
    UnmatchedRowIsFound(matcher, rows, k - 2);
  }

  lemma PieceIsUnmatched(matcher: Matcher, m: Milestone, n: nat, piece: string)
    requires IsMatcher(matcher) && n <= |TitleCell(m)|
    requires piece == OPENING + TitleCell(m)[..n] && NoLineBreak(piece)
    ensures matcher(piece).None?
  {
    assert '\n' !in piece;
    if matcher(piece).Some? {
      PieceMatchesNothing(m, n, matcher(piece).value);
    }
  }

  lemma UnmatchedRowIsFound(matcher: Matcher, rows: seq<string>, k: nat)
    requires k < |rows| && matcher(rows[k]).None?
    ensures CheckRows(matcher, rows).findings != []
  {
    NoFindingsIff(matcher, rows);
    assert !Joins(matcher, rows[..k], rows[k]);
  }

  // ----- exactly what is accepted -----

  lemma InsertMembers(m: Milestone, ms: seq<Milestone>)
    ensures forall k: Milestone :: k in Insert(m, ms) <==> k == m || k in ms
  {
    if ms != [] && KeyLess(KeyOf(ms[0]), KeyOf(m)) {
      InsertMembers(m, ms[1..]);
      assert ms == [ms[0]] + ms[1..];
    }
  }

  lemma {:induction false} SortedMembers(ms: seq<Milestone>)
    ensures forall k: Milestone :: k in Sorted(ms) <==> k in ms
    ensures Sorted(ms) == [] <==> ms == []
  {
    if ms != [] {
      SortedMembers(ms[1..]);
      InsertMembers(ms[0], Sorted(ms[1..]));
      assert ms == [ms[0]] + ms[1..];
    }
  }

  lemma {:induction false} InsertedWereApart(m: Milestone, ms: seq<Milestone>, owner: string, name: string)
    requires AreRenderable(Insert(m, ms), owner, name)
    ensures AreRenderable(ms, owner, name) && IsRenderable(m, owner, name) && forall k :: k in ms ==> Apart(m, k)
  {
    var all := Insert(m, ms);
    RenderableTail(all, owner, name);
    assert IsRenderable(all[0], owner, name);
    if ms != [] && KeyLess(KeyOf(ms[0]), KeyOf(m)) {
      assert all[1..] == Insert(m, ms[1..]);
      InsertMembers(m, ms[1..]);
      InsertedWereApart(m, ms[1..], owner, name);
      assert Apart(ms[0], m) && Apart(m, ms[0]);
      RenderableWith(ms[0], ms[1..], owner, name);
      assert ms == [ms[0]] + ms[1..];
    } else {
      assert all[1..] == ms;
    }
  }

  /** Sorting hides no clash. */
  lemma {:induction false} SortedWereApart(ms: seq<Milestone>, owner: string, name: string)
    requires AreRenderable(Sorted(ms), owner, name)
    ensures AreRenderable(ms, owner, name)
  {
    if ms != [] {
      InsertedWereApart(ms[0], Sorted(ms[1..]), owner, name);
      SortedMembers(ms[1..]);
      SortedWereApart(ms[1..], owner, name);
      RenderableWith(ms[0], ms[1..], owner, name);
      assert ms == [ms[0]] + ms[1..];
    }
  }

  /** Rows that make a sound table come from milestones that are printable and apart. */
  lemma SoundRowsAreRenderable(matcher: Matcher, ms: seq<Milestone>, owner: string, name: string)
    requires IsMatcher(matcher) && IsPathPart(owner) && IsPathPart(name)
    requires forall i :: 0 <= i < |ms| ==> IsNumbered(ms[i], owner, name) && NoLineBreak(RenderRow(ms[i]))
    requires IsSoundTable(matcher, Rows(ms))
    ensures AreRenderable(ms, owner, name)
  {
    var rows := Rows(ms);
    forall i | 0 <= i < |ms|
      ensures IsRenderable(ms[i], owner, name) && GroupsOf(matcher, rows[i]) == Captured(ms[i], owner, name) {
      assert Joins(matcher, rows[..i], rows[i]);
      RowIsSoundIff(matcher, ms[i], owner, name);
      RenderedRowIsSound(matcher, ms[i], owner, name);
    }
    forall i, j | 0 <= i < j < |ms| ensures Apart(ms[i], ms[j]) {
      assert Joins(matcher, rows[..j], rows[j]);
      assert rows[..j][i] == rows[i];
      assert Differ(GroupsOf(matcher, rows[i]), GroupsOf(matcher, rows[j]));
    }
  }

  /** Nothing found in a block means that its rows are whole and come from renderable milestones. */
  lemma AcceptedWereRenderable(matcher: Matcher, ms: seq<Milestone>, rows: seq<string>, owner: string, name: string,
                               block: string, j: nat)
    requires IsMatcher(matcher) && IsPathPart(owner) && IsPathPart(name)
    requires forall i :: 0 <= i < |ms| ==> IsNumbered(ms[i], owner, name)
    requires rows == Rows(ms) && j <= |rows| && forall i :: 0 <= i < j ==> NoLineBreak(rows[i])
    requires j < |rows| ==>
               (&& !NoLineBreak(rows[j]) && j + 2 < |SplitLines(block)|
                && SplitLines(block)[j + 2] == rows[j][..FirstBreak(rows[j], 0)])
    requires j == |rows| ==> ShapeFindings(matcher, block) == CheckRows(matcher, rows).findings
    requires ShapeFindings(matcher, block) == []
    ensures AreRenderable(ms, owner, name)
  {
    if j < |rows| {
      BrokenRowIsFound(matcher, ms[j], owner, name, block, rows[j], j + 2);
    } else {
      NoFindingsIff(matcher, rows);
      SoundRowsAreRenderable(matcher, ms, owner, name);
    }
  }

  /** The first line with a break in it, or the number of lines, and where the block is split for it. */
  lemma FirstBrokenPiece(rows: seq<string>, newline: string, block: string) returns (j: nat)
    requires IsNewline(newline) && block == Joined(HEAD + rows) + newline
    ensures j <= |rows| && (forall i :: 0 <= i < j ==> NoLineBreak(rows[i]))
    ensures j < |rows| ==>
              (&& !NoLineBreak(rows[j]) && j + 2 < |SplitLines(block)|
               && SplitLines(block)[j + 2] == rows[j][..FirstBreak(rows[j], 0)])
  {
    j := FirstBrokenLine(rows);
    if j < |rows| {
      FrameIsOneLine();
      LinesBefore(HEAD, rows, j);
      PieceIsSplitOff(HEAD + rows, j + 2, newline, rows[j], SplitLines(block));
    }
  }

  lemma BrokenRowIsFound(matcher: Matcher, m: Milestone, owner: string, name: string, block: string, row: string,
                         k: nat)
    requires IsMatcher(matcher) && IsPathPart(owner) && IsPathPart(name) && IsNumbered(m, owner, name)
    requires row == RenderRow(m) && !NoLineBreak(row)
    requires 2 <= k < |SplitLines(block)| && SplitLines(block)[k] == row[..FirstBreak(row, 0)]
    ensures ShapeFindings(matcher, block) != []
  {
    NumberedUrlIsOneLine(m, owner, name);
    BrokenRowStart(m, row);
    BrokenPieceIsFound(matcher, m, block, row, k);
  }

  lemma NumberedUrlIsOneLine(m: Milestone, owner: string, name: string)
    requires IsNumbered(m, owner, name) && IsPathPart(owner) && IsPathPart(name)
    ensures NoLineBreak(Strip(m.url))
  {
    DecimalReadsBack(m.number.value);
    UrlIsTrim(owner, name, Decimal(m.number.value));
    StripTrims(m.url);
  }

  /** The first line with a break in it, or the number of lines when there is none. */
  lemma FirstBrokenLine(lines: seq<string>) returns (j: nat)
    ensures j <= |lines| && (forall i :: 0 <= i < j ==> NoLineBreak(lines[i]))
    ensures j < |lines| ==> !NoLineBreak(lines[j])
  {
    j := 0;
    while j < |lines| && NoLineBreak(lines[j])
      invariant j <= |lines| && forall i :: 0 <= i < j ==> NoLineBreak(lines[i])
    {
      j := j + 1;
    }
  }

  /**
   * A list of milestones of one repository renders to a block in which the shape check finds nothing
   * exactly when it is not empty, each title and count is printable, and no two cells or numbers clash.
   */
  lemma RenderedTableIsAcceptedIff(matcher: Matcher, ms: seq<Milestone>, owner: string, name: string, newline: string)
    requires IsMatcher(matcher) && IsPathPart(owner) && IsPathPart(name) && IsNewline(newline)
    requires forall i :: 0 <= i < |ms| ==> IsNumbered(ms[i], owner, name)
    ensures ShapeFindings(matcher, Joined(TableLines(ms)) + newline) == [] <==>
        ms != [] && AreRenderable(ms, owner, name)
  {
    SortedMembers(ms);
    forall i | 0 <= i < |Sorted(ms)| ensures IsNumbered(Sorted(ms)[i], owner, name) {
      assert Sorted(ms)[i] in Sorted(ms);
    }
    if ms == [] {
      EmptyTableIsRefused(matcher, newline);
    } else if ShapeFindings(matcher, Joined(TableLines(ms)) + newline) == [] {
      AcceptedRowsWereRenderable(matcher, Sorted(ms), owner, name, newline, Joined(TableLines(ms)) + newline);
      SortedWereApart(ms, owner, name);
    } else if AreRenderable(ms, owner, name) {
      RenderedTableIsAccepted(matcher, ms, owner, name, newline);
    }
  }

  lemma AcceptedRowsWereRenderable(matcher: Matcher, ms: seq<Milestone>, owner: string, name: string, newline: string,
                                   block: string)
    requires IsMatcher(matcher) && IsPathPart(owner) && IsPathPart(name) && IsNewline(newline) && ms != []
    requires forall i :: 0 <= i < |ms| ==> IsNumbered(ms[i], owner, name)
    requires block == Joined(HEAD + Rows(ms)) + newline && ShapeFindings(matcher, block) == []
    ensures AreRenderable(ms, owner, name)
  {
    var rows := Rows(ms);
    var j := FirstBrokenPiece(rows, newline, block);
    if j == |rows| {
      ShapeIsRows(matcher, ms, newline);
    }
    AcceptedWereRenderable(matcher, ms, rows, owner, name, block, j);
  }

  lemma EmptyTableIsRefused(matcher: Matcher, newline: string)
    requires IsNewline(newline)
    ensures ShapeFindings(matcher, Joined(TableLines([])) + newline) != []
  {
    var lines := TableLines([]);
    FrameIsOneLine();
    assert lines == HEAD && HEAD[0] == HEADER_LINE && HEAD[1] == SEPARATOR_LINE;
    ShapeOfLines(matcher, HEAD, newline);
    assert DataFindings(matcher, HEAD) == [Finding(3, NoRows)];
  }
}
