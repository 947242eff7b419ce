/** The player window's pure logic: rendering and parsing timecodes, the
    search box that filters the list of ad buttons, and the placement of ad
    segments on the position slider. */
module Player {
  import opened Wrappers
  import opened PythonText
  import opened FrameClassifier

  // ---------------------------------------------------------------------
  // format_time

  /** Whole minutes of a time in seconds: `int(seconds // 60)`. */
  function Minutes(seconds: real): int
  {
    (seconds / 60.0).Floor
  }

  /** Whole seconds past the minute: `int(seconds % 60)`, where Python's
      `%` on floats leaves `seconds - 60 * floor(seconds / 60)`. */
  function LeftoverSeconds(seconds: real): int
  {
    (seconds - 60.0 * Minutes(seconds) as real).Floor
  }

  /** `format_time`: minutes and leftover seconds, each padded to two
      digits, joined by a colon. */
  function FormatTime(seconds: real): string
  {
    Pad2(Minutes(seconds)) + ":" + Pad2(LeftoverSeconds(seconds))
  }

  /** Minutes and leftover seconds split the whole seconds of a time. */
  lemma MinutesAndSeconds(seconds: real)
    ensures 0 <= LeftoverSeconds(seconds) < 60
    ensures Minutes(seconds) * 60 + LeftoverSeconds(seconds) == seconds.Floor
    ensures seconds >= 0.0 ==> Minutes(seconds) >= 0
  {
  }

  /** A non-negative time renders as at least two minute digits, a colon and
      two second digits below 60, which together read back as the whole
      seconds of the time. */
  lemma FormatTimeShape(seconds: real)
    requires seconds >= 0.0
    ensures var t := FormatTime(seconds);
            |t| >= 5 && t[|t| - 3] == ':'
            && AllDigits(t[..|t| - 3]) && AllDigits(t[|t| - 2..])
            && DigitsValue(t[|t| - 2..]) < 60
            && DigitsValue(t[..|t| - 3]) * 60 + DigitsValue(t[|t| - 2..]) == seconds.Floor
  {
    var m, s := Minutes(seconds), LeftoverSeconds(seconds);
    MinutesAndSeconds(seconds);
    Pad2Digits(m);
    Pad2Digits(s);
    var t := FormatTime(seconds);
    assert t[..|t| - 3] == Pad2(m);
    assert t[|t| - 2..] == Pad2(s);
  }

  // ---------------------------------------------------------------------
  // parse_time

  /** `list(map(int, parts))`: every part as an integer, or None as soon as
      one of them is not one. */
  function ParseAll(parts: seq<string>): (r: Option<seq<int>>)
    ensures r.Some? <==> forall i :: 0 <= i < |parts| ==> ParseInt(parts[i]).Some?
    ensures r.Some? ==> (|r.value| == |parts|
      && forall i :: 0 <= i < |parts| ==> ParseInt(parts[i]) == Some(r.value[i]))
  {
    if parts == [] then Some([])
    else
      match ParseInt(parts[0])
      case None => None
      case Some(v) =>
        match ParseAll(parts[1..])
        case None => None
        case Some(vs) => Some([v] + vs)
  }

  /** `parse_time`: "M:S" (each part an integer, surrounding whitespace
      allowed) is M * 60 + S seconds; a text without a colon is a plain
      integer; anything else is None. A text with a colon has at least two
      parts (SplitCount), so the source's one-part branch is never taken and
      is not modelled; three or more parts give None. */
  function ParseTime(text: string): Option<int>
  {
    var t := Strip(text);
    if ':' in t then ParseMinutesSeconds(t) else ParseInt(t)
  }

  /** The colon branch of `parse_time`. */
  function ParseMinutesSeconds(t: string): Option<int>
  {
    match ParseAll(Split(t, ':'))
    case None => None
    case Some(parts) => if |parts| == 2 then Some(parts[0] * 60 + parts[1]) else None
  }

  /** A text with a colon always splits into at least two parts. */
  lemma ColonGivesTwoParts(t: string)
    requires ':' in t
    ensures |Split(t, ':')| >= 2
  {
    SplitCount(t, ':');
  }

  /** A plain integer parses as itself. */
  lemma ParseTimeInteger(n: int)
    ensures ParseTime(ShowInt(n)).Some? && ParseTime(ShowInt(n)).value == n
  {
    var s := ShowInt(n);
    assert Strip(s) == s by {
      assert s == (if n < 0 then "-" else "") + Decimal(if n < 0 then -n else n);
      TrimUnchanged(s, IsSpace);
    }
    NoColonInShowInt(n);
    assert ParseTime(s) == ParseInt(s);
    ParseIntShowInt(n);
  }

  /** A stripped text with a colon whose two parts are integers parses as
      minutes and seconds. */
  lemma ParseTimeTwoParts(t: string, m: int, s: int)
    requires Strip(t) == t && ':' in t
    requires ParseAll(Split(t, ':')).Some? && ParseAll(Split(t, ':')).value == [m, s]
    ensures ParseTime(t).Some? && ParseTime(t).value == m * 60 + s
  {
    MinutesSecondsOfPair(t, m, s);
  }

  lemma MinutesSecondsOfPair(t: string, m: int, s: int)
    requires ParseAll(Split(t, ':')).Some? && ParseAll(Split(t, ':')).value == [m, s]
    ensures ParseMinutesSeconds(t).Some? && ParseMinutesSeconds(t).value == m * 60 + s
  {
  }

  lemma ParseAllPair(a: string, b: string, m: int, s: int)
    requires ParseInt(a).Some? && ParseInt(a).value == m
    requires ParseInt(b).Some? && ParseInt(b).value == s
    ensures ParseAll([a, b]).Some? && ParseAll([a, b]).value == [m, s]
  {
    var parts := [a, b];
    assert parts[0] == a && parts[1] == b;
    var r := ParseAll(parts);
    assert r.Some?;
    assert ParseInt(parts[0]) == Some(r.value[0]);
    assert ParseInt(parts[1]) == Some(r.value[1]);
  }

  lemma SplitPair(a: string, b: string)
    requires ':' !in a && ':' !in b
    ensures Split(a + ":" + b, ':') == [a, b]
  {
    assert a + ":" + b == a + [':'] + b;
    SplitAfterFirstSeparator(a, ':', b);
    SplitWithoutSeparator(b, ':');
  }

  /** Two texts that `int()` reads, joined by a colon, parse as minutes and
      seconds. */
  lemma ParseTimeMinutesSeconds(a: string, b: string, m: int, s: int)
    requires ':' !in a && ':' !in b
    requires ParseInt(a).Some? && ParseInt(a).value == m
    requires ParseInt(b).Some? && ParseInt(b).value == s
    requires a != [] && !IsSpace(a[0]) && b != [] && !IsSpace(b[|b| - 1])
    ensures ParseTime(a + ":" + b).Some? && ParseTime(a + ":" + b).value == m * 60 + s
  {
    var t := a + ":" + b;
    assert t[0] == a[0] && t[|t| - 1] == b[|b| - 1] && t[|a|] == ':';
    TrimUnchanged(t, IsSpace);
    SplitPair(a, b);
    ParseAllPair(a, b, m, s);
    ParseTimeTwoParts(t, m, s);
  }

  lemma NoColonInShowInt(n: int)
    ensures ':' !in ShowInt(n)
  {
    var d := Decimal(if n < 0 then -n else n);
    assert ShowInt(n) == (if n < 0 then "-" else "") + d;
    assert forall i :: 0 <= i < |d| ==> IsDigit(d[i]);
  }

  /** `str(m) + ":" + str(s)` parses as m * 60 + s. */
  lemma ParseTimeShowMinutesSeconds(m: int, s: int)
    ensures var t := ShowInt(m) + ":" + ShowInt(s);
            ParseTime(t).Some? && ParseTime(t).value == m * 60 + s
  {
    ParseIntShowInt(m);
    ParseIntShowInt(s);
    var a, b := ShowInt(m), ShowInt(s);
    assert ':' !in a && ':' !in b by {
      NoColonInShowInt(m);
      NoColonInShowInt(s);
    }
    ParseTimeMinutesSeconds(a, b, m, s);
  }

  /** Two runs of digits joined by a colon parse as minutes and seconds. */
  lemma ParseTimeDigits(a: string, b: string, m: int, s: int)
    requires a != [] && AllDigits(a) && b != [] && AllDigits(b)
    requires m == DigitsValue(a) && s == DigitsValue(b)
    ensures ParseTime(a + ":" + b).Some? && ParseTime(a + ":" + b).value == m * 60 + s
  {
    assert ':' !in a && ':' !in b by {
      assert forall i :: 0 <= i < |a| ==> IsDigit(a[i]);
      assert forall i :: 0 <= i < |b| ==> IsDigit(b[i]);
    }
    ParseIntDigits(a);
    ParseIntDigits(b);
    ParseTimeMinutesSeconds(a, b, m, s);
  }

  /** Parsing a rendered non-negative time gives back its whole seconds. */
  lemma ParseFormatTime(seconds: real)
    requires seconds >= 0.0
    ensures ParseTime(FormatTime(seconds)).Some?
    ensures ParseTime(FormatTime(seconds)).value == seconds.Floor
  {
    var m, s := Minutes(seconds), LeftoverSeconds(seconds);
    MinutesAndSeconds(seconds);
    Pad2Digits(m);
    Pad2Digits(s);
    ParseTimeDigits(Pad2(m), Pad2(s), m, s);
  }

  /** Three or more colon-separated parts never parse. */
  lemma ParseTimeTooManyParts(text: string)
    requires multiset(text)[':'] >= 2
    ensures ParseTime(text) == None
  {
    var t := Strip(text);
    StripKeepsNonSpace(text, ':');
    SplitCount(t, ':');
  }

  /** A part with a trailing separator U+001C does not parse, although
      `strip()` would remove it: `parse_time("1\x1c:30")` is None. */
  lemma ParseTimeSeparatorInPart()
    ensures ParseTime("1\U{1C}:30") == None
  {
    var a, t := "1\U{1C}", "1\U{1C}:30";
    assert t == a + ":" + "30" && t[2] == ':';
    assert Strip(t) == t by {
      TrimUnchanged(t, IsSpace);
    }
    SplitPair(a, "30");
    ParseIntKeepsSeparator();
    ParseTimeBadPart(t, 0);
  }

  /** A part that is not an integer makes the whole text unparseable. */
  lemma ParseTimeBadPart(text: string, i: nat)
    requires ':' in Strip(text)
    requires i < |Split(Strip(text), ':')| && ParseInt(Split(Strip(text), ':')[i]) == None
    ensures ParseTime(text) == None
  {
  }

  // ---------------------------------------------------------------------
  // filter_ad_buttons

  /** The dash characters of the range pattern: an en dash or a hyphen. */
  predicate IsDash(c: char)
  {
    c == '\U{2013}' || c == '-'
  }

  /** Length of the first line: `.` in a regular expression does not match a
      newline. */
  function FirstLineEnd(q: string): (n: nat)
    ensures n <= |q|
    ensures n < |q| ==> q[n] == '\n'
    ensures forall i :: 0 <= i < n ==> q[i] != '\n'
  {
    if q == [] || q[0] == '\n' then 0 else 1 + FirstLineEnd(q[1..])
  }

  /** The last dash at a position in [lo, hi). */
  function LastDash(q: string, lo: nat, hi: nat): (p: Option<nat>)
    requires hi <= |q|
    ensures p.Some? ==> (lo <= p.value < hi && IsDash(q[p.value])
      && forall i :: p.value < i < hi ==> !IsDash(q[i]))
    ensures p.None? ==> forall i :: lo <= i < hi ==> !IsDash(q[i])
  {
    if hi <= lo then None
    else if IsDash(q[hi - 1]) then Some(hi - 1)
    else LastDash(q, lo, hi - 1)
  }

  /** `re.match(r'(.+)[–\-](.+)', q).groups()`: the greedy first group ends
      at the last dash of the first line that leaves at least one character
      on each side. */
  function RangeMatch(q: string): (m: Option<(string, string)>)
  {
    var n := FirstLineEnd(q);
    if n < 3 then None
    else
      match LastDash(q, 1, n - 1)
      case None => None
      case Some(p) => Some((q[..p], q[p + 1..n]))
  }

  /** What RangeMatch finds: the first line of the text split at its last
      dash that leaves at least one character on each side, so that the
      start group is non-empty and the end group is non-empty and has no
      dash before its last character; and it finds one whenever the first
      line has such a dash. */
  lemma RangeMatchGroups(q: string)
    ensures RangeMatch(q).Some? ==>
      var n := FirstLineEnd(q);
      var p := |RangeMatch(q).value.0|;
      1 <= p && p + 1 < n && IsDash(q[p])
      && RangeMatch(q).value == (q[..p], q[p + 1..n])
      && (forall i :: p < i < n - 1 ==> !IsDash(q[i]))
    ensures RangeMatch(q).None? ==>
      forall p :: 1 <= p && p + 1 < FirstLineEnd(q) ==> !IsDash(q[p])
  {
    var n := FirstLineEnd(q);
    if n >= 3 {
      var d := LastDash(q, 1, n - 1);
      if d.Some? {
        assert RangeMatch(q) == Some((q[..d.value], q[d.value + 1..n]));
      }
    }
  }

  /** What a search text asks for: everything, ads overlapping a range of
      seconds, ads containing a second, or a piece of the button labels. */
  datatype Search = ShowAll | InRange(lo: int, hi: int) | At(t: int) | Contains(q: string)

  /** How `filter_ad_buttons` reads its text. */
  function SearchOf(text: string): Search
  {
    var query := Strip(text);
    if query == [] then ShowAll
    else
      var rm := RangeMatch(query);
      if rm.Some? && ParseTime(rm.value.0).Some? && ParseTime(rm.value.1).Some? then
        InRange(ParseTime(rm.value.0).value, ParseTime(rm.value.1).value)
      else
        match ParseTime(query)
        case Some(t) => At(t)
        case None => Contains(Lower(query))
  }

  /** The label of an ad's button: start and end as "MM:SS", joined by an en
      dash. */
  function ButtonLabel(r: TimeRange): string
  {
    FormatTime(r.start) + " \U{2013} " + FormatTime(r.end)
  }

  /** Whether a search shows the button of an ad. */
  predicate Visible(search: Search, r: TimeRange)
  {
    match search
    case ShowAll => true
    case InRange(lo, hi) =>
      (lo as real <= r.start <= hi as real) || (lo as real <= r.end <= hi as real)
    case At(t) => r.start <= t as real <= r.end
    case Contains(q) => LabelContains(r, q)
  }

  /** `q in label.lower()` for the label of an ad's button. */
  predicate LabelContains(r: TimeRange, q: string)
  {
    IsSubstring(q, Lower(ButtonLabel(r)))
  }

  /** `filter_ad_buttons`: the visibility of every ad button for a search
      text. The text is read once, then every button is shown or hidden by
      the rule of that kind of search. */
  method FilterAdButtons(text: string, ads: seq<TimeRange>) returns (visible: seq<bool>)
    ensures |visible| == |ads|
    ensures forall i :: 0 <= i < |ads| ==> visible[i] == Visible(SearchOf(text), ads[i])
  {
    var search := SearchOf(text);
    visible := ApplySearch(search, ads);
  }

  /** The loops of `filter_ad_buttons`: each kind of search runs the same
      loop over the buttons with its own test. */
  method ApplySearch(search: Search, ads: seq<TimeRange>) returns (visible: seq<bool>)
    ensures |visible| == |ads|
    ensures forall i :: 0 <= i < |ads| ==> visible[i] == Visible(search, ads[i])
  {
    match search {
      case ShowAll =>
        visible := ShowWhere(r => true, ads);
      case InRange(lo, hi) =>
        visible := ShowWhere((r: TimeRange) => (lo as real <= r.start <= hi as real) || (lo as real <= r.end <= hi as real), ads);
      case At(target) =>
        visible := ShowWhere((r: TimeRange) => r.start <= target as real <= r.end, ads);
      case Contains(q) =>
        visible := ShowWhere(r => LabelContains(r, q), ads);
    }
  }

  /** One pass over the buttons, showing those whose ad passes a test. */
  method ShowWhere(shows: TimeRange -> bool, ads: seq<TimeRange>) returns (visible: seq<bool>)
    ensures |visible| == |ads|
    ensures forall i :: 0 <= i < |ads| ==> visible[i] == shows(ads[i])
  {
    visible := [];
    for i := 0 to |ads|
      invariant |visible| == i
      invariant forall k :: 0 <= k < i ==> visible[k] == shows(ads[k])
    {
      visible := visible + [shows(ads[i])];
    }
  }

  /** An empty or blank search shows every ad. */
  lemma BlankSearchShowsAll(text: string, r: TimeRange)
    requires Strip(text) == []
    ensures Visible(SearchOf(text), r)
  {
  }

  /** A range search hides an ad that starts before the range and ends after
      it, although the ad covers the whole range. */
  lemma RangeSearchHidesEnclosingAd(lo: int, hi: int, r: TimeRange)
    requires r.start < lo as real && hi as real < r.end
    ensures !Visible(InRange(lo, hi), r)
  {
  }

  /** A search text with no dash after its first character cannot be a
      range, so when it parses as a time it is a search for that second. */
  lemma SearchWithoutDash(q: string)
    requires q != [] && Strip(q) == q
    requires forall i :: 1 <= i < |q| ==> !IsDash(q[i])
    requires ParseTime(q).Some?
    ensures SearchOf(q).At? && SearchOf(q).t == ParseTime(q).value
  {
    RangeMatchGroups(q);
    assert RangeMatch(q).None?;
  }

  /** The label search ignores the case of ASCII letters: a search text
      shows an ad exactly when, from some position on, the ad's button
      label starts with the text up to case. */
  lemma LabelSearchIgnoresCase(q: string, r: TimeRange)
    ensures Visible(Contains(Lower(q)), r)
      <==> exists i :: 0 <= i <= |ButtonLabel(r)| && Lower(q) <= Lower(ButtonLabel(r)[i..])
  {
    LowerSubstring(q, ButtonLabel(r));
  }

  /** A rendered non-negative time is made of digits and a colon, so it has
      no dash and no whitespace at its ends. */
  lemma NoDashInFormatTime(seconds: real)
    requires seconds >= 0.0
    ensures var t := FormatTime(seconds);
            t != [] && !IsSpace(t[0]) && !IsSpace(t[|t| - 1])
            && (forall i :: 0 <= i < |t| ==> !IsDash(t[i]))
            && DigitsAndColons(t)
  {
    var m, s := Minutes(seconds), LeftoverSeconds(seconds);
    MinutesAndSeconds(seconds);
    Pad2Digits(m);
    Pad2Digits(s);
    NoDashInDigitPair(Pad2(m), Pad2(s));
  }

  /** Text made only of digits and colons, as rendered times are. */
  predicate DigitsAndColons(t: string)
  {
    forall i :: 0 <= i < |t| ==> IsDigit(t[i]) || t[i] == ':'
  }

  /** Two runs of digits joined by a colon hold only digits and that colon,
      so no dash, and neither start nor end with whitespace. */
  lemma NoDashInDigitPair(a: string, b: string)
    requires a != [] && AllDigits(a) && b != [] && AllDigits(b)
    ensures var t := a + ":" + b;
            !IsSpace(t[0]) && !IsSpace(t[|t| - 1])
            && (forall i :: 0 <= i < |t| ==> !IsDash(t[i]))
            && DigitsAndColons(t)
  {
    var t := a + ":" + b;
    forall i | 0 <= i < |t|
      ensures !IsDash(t[i]) && (IsDigit(t[i]) || t[i] == ':')
    {
      if i < |a| {
        assert t[i] == a[i];
      } else if i > |a| {
        assert t[i] == b[i - |a| - 1];
      }
    }
    assert t[0] == a[0];
    assert t[|t| - 1] == b[|b| - 1];
  }

  /** Typing a rendered non-negative time searches for the ads that contain
      its whole second. */
  lemma SearchFormattedTime(seconds: real)
    requires seconds >= 0.0
    ensures SearchOf(FormatTime(seconds)).At?
    ensures SearchOf(FormatTime(seconds)).t == seconds.Floor
  {
    var t := FormatTime(seconds);
    NoDashInFormatTime(seconds);
    TrimUnchanged(t, IsSpace);
    ParseFormatTime(seconds);
    SearchWithoutDash(t);
  }

  /** A one-line text whose only dash sits strictly inside it is split at
      that dash by the range pattern. */
  lemma RangeMatchAtOnlyDash(q: string, p: nat)
    requires 1 <= p && p + 1 < |q| && IsDash(q[p])
    requires forall i :: 0 <= i < |q| ==> q[i] != '\n' && (i != p ==> !IsDash(q[i]))
    ensures RangeMatch(q).Some? && RangeMatch(q).value == (q[..p], q[p + 1..])
  {
    assert FirstLineEnd(q) == |q|;
    RangeMatchGroups(q);
    assert |RangeMatch(q).value.0| == p;
    assert q[p + 1..|q|] == q[p + 1..];
  }

  /** A stripped text that the range pattern splits into two times is a
      range search between them. */
  lemma SearchOfRange(q: string, x: string, y: string)
    requires q != [] && Strip(q) == q
    requires RangeMatch(q).Some? && RangeMatch(q).value == (x, y)
    requires ParseTime(x).Some? && ParseTime(y).Some?
    ensures SearchOf(q) == InRange(ParseTime(x).value, ParseTime(y).value)
  {
  }

  /** Two non-empty texts of digits and colons joined by a hyphen: the
      joined text is one stripped line whose only dash is that hyphen. */
  lemma JoinedByHyphen(x: string, y: string)
    requires x != [] && y != [] && DigitsAndColons(x) && DigitsAndColons(y)
    ensures var q := x + "-" + y;
      && Strip(q) == q && q[|x|] == '-' && q[..|x|] == x && q[|x| + 1..] == y
      && forall i :: 0 <= i < |q| ==> q[i] != '\n' && (i != |x| ==> !IsDash(q[i]))
  {
    var q := x + "-" + y;
    var p := |x|;
    forall i | 0 <= i < |q|
      ensures q[i] != '\n' && (i != p ==> !IsDash(q[i]))
    {
      if i < p {
        assert q[i] == x[i];
      } else if i > p {
        assert q[i] == y[i - p - 1];
      }
    }
    assert q[..p] == x && q[p + 1..] == y;
    assert q[0] == x[0] && q[|q| - 1] == y[|y| - 1];
    TrimUnchanged(q, IsSpace);
  }

  /** Two texts of digits and colons that both parse as times, joined by a
      hyphen, are read as the range between those times: the hyphen is the
      only dash, so the range pattern splits there. */
  lemma SearchRangeOfTimes(x: string, y: string)
    requires x != [] && y != [] && DigitsAndColons(x) && DigitsAndColons(y)
    requires ParseTime(x).Some? && ParseTime(y).Some?
    ensures SearchOf(x + "-" + y) == InRange(ParseTime(x).value, ParseTime(y).value)
  {
    JoinedByHyphen(x, y);
    RangeMatchAtOnlyDash(x + "-" + y, |x|);
    SearchOfRange(x + "-" + y, x, y);
  }

  /** Typing two rendered non-negative times joined by a hyphen searches for
      the ads that start or end between their whole seconds. */
  lemma SearchFormattedRange(a: real, b: real)
    requires a >= 0.0 && b >= 0.0
    ensures SearchOf(FormatTime(a) + "-" + FormatTime(b)) == InRange(a.Floor, b.Floor)
  {
    NoDashInFormatTime(a);
    NoDashInFormatTime(b);
    ParseFormatTime(a);
    ParseFormatTime(b);
    SearchRangeOfTimes(FormatTime(a), FormatTime(b));
  }

  /** Typing an integer searches for the ads that contain that second; a
      leading minus sign is not read as a range. */
  lemma SearchInteger(n: int)
    ensures SearchOf(ShowInt(n)).At? && SearchOf(ShowInt(n)).t == n
  {
    var s := ShowInt(n);
    var d := Decimal(if n < 0 then -n else n);
    assert s == (if n < 0 then "-" else "") + d;
    forall i | 1 <= i < |s|
      ensures !IsDash(s[i])
    {
      if n < 0 { assert s[i] == d[i - 1]; } else { assert s[i] == d[i]; }
    }
    TrimUnchanged(s, IsSpace);
    ParseTimeInteger(n);
    SearchWithoutDash(s);
  }

  // ---------------------------------------------------------------------
  // AdSlider._calculate_segments

  /** A rectangle in widget coordinates. */
  datatype Rect = Rect(x: int, y: int, width: int, height: int)

  /** `int(x)` on a float: truncation toward zero, which drops the
      fraction, never moves away from zero and moves by less than one. */
  function Trunc(x: real): (n: int)
    ensures x >= 0.0 ==> 0.0 <= n as real <= x < n as real + 1.0
    ensures x < 0.0 ==> n as real - 1.0 < x <= n as real <= 0.0
  {
    if x >= 0.0 then x.Floor else -((-x).Floor)
  }

  /** The slider segment of one ad: its start and end scaled from seconds to
      the groove's width, truncated to whole pixels. */
  function SegmentRect(r: TimeRange, widthMultiplier: real, groove: Rect): Rect
  {
    SpanRect(Scaled(r.start, widthMultiplier), Scaled(r.end, widthMultiplier), groove)
  }

  /** A time in seconds as a position on the groove, in pixels. */
  function Scaled(t: real, widthMultiplier: real): real
  {
    t * widthMultiplier
  }

  /** The segment between two positions on the groove, measured in pixels
      from its left end. */
  function SpanRect(startPos: real, endPos: real, groove: Rect): Rect
  {
    Rect(groove.x + Trunc(startPos), groove.y, Trunc(endPos) - Trunc(startPos), groove.height)
  }

  /** `_calculate_segments`: no segments without ads or without a known
      duration; otherwise one segment per ad, in order. */
  method CalculateSegments(ads: seq<TimeRange>, totalDuration: real, groove: Rect)
    returns (segments: seq<Rect>)
    ensures ads == [] || totalDuration == 0.0 ==> segments == []
    ensures ads != [] && totalDuration != 0.0 ==>
      |segments| == |ads|
      && forall i :: 0 <= i < |ads| ==>
           segments[i] == SegmentRect(ads[i], groove.width as real / totalDuration, groove)
  {
    if ads == [] || totalDuration == 0.0 {
      return [];
    }
    segments := [];
    var grooveWidth := groove.width;
    var widthMultiplier := grooveWidth as real / totalDuration;
    for i := 0 to |ads|
      invariant |segments| == i
      invariant forall j :: 0 <= j < i ==> segments[j] == SegmentRect(ads[j], widthMultiplier, groove)
    {
      segments := segments + [SegmentRect(ads[i], widthMultiplier, groove)];
    }
  }

  /** Scaling seconds in [0, d] by w / d keeps them in order within
      [0, w]. */
  lemma ScaleToWidth(s: real, e: real, d: real, w: real)
    requires 0.0 <= s <= e <= d && d > 0.0 && w >= 0.0
    ensures 0.0 <= Scaled(s, w / d) <= Scaled(e, w / d) <= w
  {
    var k := w / d;
    assert d * k == w;
    assert (e - s) * k >= 0.0;
    assert (d - e) * k >= 0.0;
  }

  /** A segment inside a groove: a non-negative span within the groove's
      width, on its row and of its height. */
  predicate WithinGroove(seg: Rect, groove: Rect)
  {
    groove.x <= seg.x && 0 <= seg.width && seg.x + seg.width <= groove.x + groove.width
    && seg.y == groove.y && seg.height == groove.height
  }

  /** Positions in order within the groove's width give a segment inside
      the groove. */
  lemma SpanWithinGroove(x0: real, x1: real, groove: Rect)
    requires 0.0 <= x0 <= x1 <= groove.width as real
    ensures WithinGroove(SpanRect(x0, x1, groove), groove)
  {
    assert 0 <= Trunc(x0) <= Trunc(x1) <= groove.width;
  }

  /** The segment of an ad that lies within the video is inside the groove. */
  lemma SegmentWithinGroove(r: TimeRange, totalDuration: real, groove: Rect)
    requires totalDuration > 0.0 && groove.width >= 0
    requires 0.0 <= r.start <= r.end <= totalDuration
    ensures WithinGroove(SegmentRect(r, groove.width as real / totalDuration, groove), groove)
  {
    var widthMultiplier := groove.width as real / totalDuration;
    ScaleToWidth(r.start, r.end, totalDuration, groove.width as real);
    SpanWithinGroove(Scaled(r.start, widthMultiplier), Scaled(r.end, widthMultiplier), groove);
  }
}
