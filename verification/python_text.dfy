/** The Python string built-ins the timecode code relies on: `str.strip()`,
    `int(str)`, `str.split(sep)`, `str.lower()`, the substring test `in`
    and the rendering of integers by `f"{n:02d}"`. */
module PythonText {
  import opened Wrappers

  /** Characters for which `str.isspace()` holds, which `strip()` removes:
      tab to carriage return, the information separators U+001C to U+001F,
      the space, and the Unicode spaces and line separators. */
  predicate IsSpace(c: char)
  {
    || ('\t' <= c <= '\r') || ('\U{1C}' <= c <= ' ')
    || c == '\U{85}' || c == '\U{A0}' || c == '\U{1680}' || ('\U{2000}' <= c <= '\U{200A}')
    || c == '\U{2028}' || c == '\U{2029}' || c == '\U{202F}' || c == '\U{205F}' || c == '\U{3000}'
  }

  predicate IsDigit(c: char)
  {
    '0' <= c <= '9'
  }

  predicate AllDigits(s: string)
  {
    forall i :: 0 <= i < |s| ==> IsDigit(s[i])
  }

  function DigitValue(c: char): (d: nat)
    requires IsDigit(c)
    ensures d < 10
  {
    c as int - '0' as int
  }

  function DigitChar(d: nat): (c: char)
    requires d < 10
    ensures IsDigit(c) && DigitValue(c) == d
  {
    ('0' as int + d) as char
  }

  // ---------------------------------------------------------------------
  // strip() and the whitespace int() skips

  /** Whitespace that `int()` skips around its digits. CPython copies the
      ASCII characters of the text unchanged and turns every other
      `str.isspace()` character into a space, then skips only tab to
      carriage return and the space: the separators U+001C to U+001F, which
      `strip()` removes, are not skipped. */
  predicate IsIntSpace(c: char)
  {
    IsSpace(c) && !('\U{1C}' <= c <= '\U{1F}')
  }

  /** Number of leading characters of `s` in the set `ws`. */
  function LeadingRun(s: string, ws: char -> bool): (n: nat)
    ensures n <= |s|
  {
    if s == [] || !ws(s[0]) then 0 else 1 + LeadingRun(s[1..], ws)
  }

  /** Number of trailing characters of `s` in the set `ws`. */
  function TrailingRun(s: string, ws: char -> bool): (n: nat)
    ensures n <= |s|
  {
    if s == [] || !ws(s[|s| - 1]) then 0 else 1 + TrailingRun(s[..|s| - 1], ws)
  }

  /** `s` without its leading and trailing characters in `ws`. */
  function Trim(s: string, ws: char -> bool): string
  {
    var a := LeadingRun(s, ws);
    s[a..|s| - TrailingRun(s[a..], ws)]
  }

  /** `s.strip()`: `s` without its leading and trailing whitespace. */
  function Strip(s: string): string
  {
    Trim(s, IsSpace)
  }

  lemma {:induction false} LeadingRunIn(s: string, ws: char -> bool)
    ensures forall i :: 0 <= i < LeadingRun(s, ws) ==> ws(s[i])
  {
    if s != [] && ws(s[0]) {
      LeadingRunIn(s[1..], ws);
      forall i | 1 <= i < LeadingRun(s, ws)
        ensures ws(s[i])
      {
        assert s[i] == s[1..][i - 1];
      }
    }
  }

  lemma {:induction false} LeadingRunStops(s: string, ws: char -> bool)
    ensures LeadingRun(s, ws) < |s| ==> !ws(s[LeadingRun(s, ws)])
  {
    if s != [] && ws(s[0]) {
      LeadingRunStops(s[1..], ws);
    }
  }

  lemma {:induction false} TrailingRunIn(s: string, ws: char -> bool)
    ensures forall i :: |s| - TrailingRun(s, ws) <= i < |s| ==> ws(s[i])
  {
    if s != [] && ws(s[|s| - 1]) {
      TrailingRunIn(s[..|s| - 1], ws);
    }
  }

  lemma {:induction false} TrailingRunStops(s: string, ws: char -> bool)
    ensures TrailingRun(s, ws) < |s| ==> !ws(s[|s| - 1 - TrailingRun(s, ws)])
  {
    if s != [] && ws(s[|s| - 1]) {
      TrailingRunStops(s[..|s| - 1], ws);
    }
  }

  /** Trimming cuts a piece out of the text: only characters of `ws` go
      before and after it, and the piece neither starts nor ends with one,
      so the runs removed are the longest ones. */
  lemma TrimCutsRuns(s: string, ws: char -> bool)
    ensures var a := LeadingRun(s, ws);
            var r := Trim(s, ws);
            a + |r| <= |s| && r == s[a..a + |r|]
            && (forall i :: 0 <= i < a ==> ws(s[i]))
            && (forall i :: a + |r| <= i < |s| ==> ws(s[i]))
            && (r != [] ==> !ws(r[0]) && !ws(r[|r| - 1]))
  {
    var a := LeadingRun(s, ws);
    var t := s[a..];
    var r := Trim(s, ws);
    assert r == t[..|t| - TrailingRun(t, ws)];
    var b := a + |r|;
    LeadingRunIn(s, ws);
    assert forall i :: b <= i < |s| ==> ws(s[i]) by {
      TrailingRunIn(t, ws);
      forall i | b <= i < |s|
        ensures ws(s[i])
      {
        assert s[i] == t[i - a];
      }
    }
    if r != [] {
      assert !ws(r[0]) by {
        assert r[0] == s[a];
        LeadingRunStops(s, ws);
      }
      assert !ws(r[|r| - 1]) by {
        TrailingRunStops(t, ws);
        assert r[|r| - 1] == t[|t| - 1 - TrailingRun(t, ws)];
      }
    }
  }

  /** Trimming a text that neither starts nor ends with a character of `ws`
      leaves it unchanged. */
  lemma TrimUnchanged(s: string, ws: char -> bool)
    requires s != [] ==> !ws(s[0]) && !ws(s[|s| - 1])
    ensures Trim(s, ws) == s
  {
    assert s[0..] == s;
  }

  /** A piece of text made only of characters of `ws` has none of a
      character outside `ws`. */
  lemma NoneInRun(s: string, lo: nat, hi: nat, ws: char -> bool, c: char)
    requires lo <= hi <= |s| && !ws(c)
    requires forall i :: lo <= i < hi ==> ws(s[i])
    ensures multiset(s[lo..hi])[c] == 0
  {
    assert forall i :: 0 <= i < hi - lo ==> s[lo..hi][i] == s[lo + i];
    assert c !in s[lo..hi];
  }

  /** A character that occurs neither before a piece nor after it occurs
      in the piece as often as in the whole text. */
  lemma CountInMiddle(s: string, a: nat, b: nat, c: char)
    requires a <= b <= |s|
    requires multiset(s[0..a])[c] == 0 && multiset(s[b..|s|])[c] == 0
    ensures multiset(s[a..b])[c] == multiset(s)[c]
  {
    assert s == s[0..a] + s[a..b] + s[b..|s|];
  }

  /** Stripping removes only whitespace, so it keeps every other character. */
  lemma StripKeepsNonSpace(s: string, c: char)
    requires !IsSpace(c)
    ensures multiset(Strip(s))[c] == multiset(s)[c]
  {
    var a := LeadingRun(s, IsSpace);
    var b := a + |Strip(s)|;
    TrimCutsRuns(s, IsSpace);
    NoneInRun(s, 0, a, IsSpace, c);
    NoneInRun(s, b, |s|, IsSpace, c);
    CountInMiddle(s, a, b, c);
  }

  // ---------------------------------------------------------------------
  // int()

  /** The value of a string of decimal digits (leading zeros allowed). */
  function DigitsValue(d: string): nat
    requires AllDigits(d)
  {
    if d == [] then 0 else DigitsValue(d[..|d| - 1]) * 10 + DigitValue(d[|d| - 1])
  }

  /** A non-empty run of decimal digits, or None. */
  function ParseDigits(d: string): (r: Option<nat>)
    ensures r.Some? <==> d != [] && AllDigits(d)
  {
    if d != [] && AllDigits(d) then Some(DigitsValue(d)) else None
  }

  /** `int(s)`: optional surrounding whitespace (as `int()` skips it), an
      optional sign, then decimal digits; anything else raises ValueError,
      modelled as None. */
  function ParseInt(s: string): Option<int>
  {
    var t := Trim(s, IsIntSpace);
    if t != [] && (t[0] == '+' || t[0] == '-') then
      match ParseDigits(t[1..])
      case None => None
      case Some(n) => Some(if t[0] == '-' then -(n as int) else n as int)
    else
      match ParseDigits(t)
      case None => None
      case Some(n) => Some(n)
  }

  /** `int()` does not skip the separator U+001C that `strip()` removes:
      `"1\x1c".strip()` is "1", but `int("1\x1c")` raises ValueError. */
  lemma ParseIntKeepsSeparator()
    ensures Strip("1\U{1C}") == "1"
    ensures ParseInt("1\U{1C}") == None
  {
    var s := "1\U{1C}";
    assert IsSpace(s[1]) && !IsIntSpace(s[1]) && !IsSpace(s[0]);
    assert s[..1] == "1" && s[0..] == s;
    assert Strip(s) == "1";
    TrimUnchanged(s, IsIntSpace);
    assert !AllDigits(s);
  }

  // ---------------------------------------------------------------------
  // Rendering integers

  /** The decimal digits of n, without leading zeros. */
  function Decimal(n: nat): (s: string)
    ensures s != [] && AllDigits(s)
    ensures n < 10 <==> |s| == 1
    ensures 10 <= n < 100 ==> |s| == 2
  {
    if n < 10 then [DigitChar(n)] else Decimal(n / 10) + [DigitChar(n % 10)]
  }

  lemma {:induction false} DecimalValue(n: nat)
    ensures DigitsValue(Decimal(n)) == n
  {
    if n >= 10 {
      DecimalValue(n / 10);
      var s := Decimal(n);
      assert s[..|s| - 1] == Decimal(n / 10);
    }
  }

  /** `str(n)`. */
  function ShowInt(n: int): (s: string)
  {
    if n < 0 then "-" + Decimal(-n) else Decimal(n)
  }

  /** `f"{n:02d}"`: zero-padded to two characters; a negative number already
      has two with its sign. */
  function Pad2(n: int): (s: string)
  {
    if n < 0 then "-" + Decimal(-n)
    else if n < 10 then "0" + Decimal(n)
    else Decimal(n)
  }

  /** A padded non-negative number is at least two digits that read back as
      the number, and exactly two below 100. */
  lemma Pad2Digits(n: nat)
    ensures |Pad2(n)| >= 2 && AllDigits(Pad2(n)) && DigitsValue(Pad2(n)) == n
    ensures n < 100 ==> |Pad2(n)| == 2
  {
    DecimalValue(n);
    if n < 10 {
      var s := Pad2(n);
      assert s[..1] == "0";
      assert DigitsValue("0") == 0 by {
        assert "0"[..0] == [];
      }
    }
  }

  /** `int()` reads back a non-empty run of digits. */
  lemma ParseIntDigits(d: string)
    requires d != [] && AllDigits(d)
    ensures ParseInt(d).Some? && ParseInt(d).value == DigitsValue(d)
  {
    TrimUnchanged(d, IsIntSpace);
  }

  /** `int(str(n)) == n`. */
  lemma ParseIntShowInt(n: int)
    ensures ParseInt(ShowInt(n)).Some? && ParseInt(ShowInt(n)).value == n
  {
    var s := ShowInt(n);
    if n < 0 {
      DecimalValue(-n);
      TrimUnchanged(s, IsIntSpace);
      assert s[1..] == Decimal(-n);
    } else {
      DecimalValue(n);
      ParseIntDigits(s);
    }
  }

  // ---------------------------------------------------------------------
  // split(sep)

  /** `s.split(sep)` with an explicit separator: the pieces between
      separators, empty pieces included. */
  function Split(s: string, sep: char): (parts: seq<string>)
    ensures |parts| >= 1
  {
    if s == [] then [[]]
    else
      var rest := Split(s[1..], sep);
      if s[0] == sep then [[]] + rest else [[s[0]] + rest[0]] + rest[1..]
  }

  /** There is one more part than there are separators. */
  lemma {:induction false} SplitCount(s: string, sep: char)
    ensures |Split(s, sep)| == multiset(s)[sep] + 1
  {
    if s != [] {
      SplitCount(s[1..], sep);
      assert s == [s[0]] + s[1..];
      assert multiset(s) == multiset{s[0]} + multiset(s[1..]);
    }
  }

  /** A text without the separator is one part. */
  lemma {:induction false} SplitWithoutSeparator(s: string, sep: char)
    requires sep !in s
    ensures Split(s, sep) == [s]
  {
    if s != [] {
      SplitWithoutSeparator(s[1..], sep);
      assert [s[0]] + s[1..] == s;
    }
  }

  /** Splitting `a + sep + b`, where `a` has no separator, gives `a` and then
      the parts of `b`. */
  lemma {:induction false} SplitAfterFirstSeparator(a: string, sep: char, b: string)
    requires sep !in a
    ensures Split(a + [sep] + b, sep) == [a] + Split(b, sep)
  {
    var s := a + [sep] + b;
    if a == [] {
      assert s[1..] == b;
    } else {
      assert s[1..] == a[1..] + [sep] + b;
      SplitAfterFirstSeparator(a[1..], sep, b);
      assert [a[0]] + a[1..] == a;
    }
  }

  // ---------------------------------------------------------------------
  // lower() and `in`

  /** `str.lower()` on one character, for the ASCII letters. */
  function LowerChar(c: char): char
  {
    if 'A' <= c <= 'Z' then (c as int + 32) as char else c
  }

  /** `str.lower()`: every character in lower case. */
  function Lower(s: string): (r: string)
    ensures |r| == |s|
  {
    seq(|s|, i requires 0 <= i < |s| => LowerChar(s[i]))
  }

  /** Lowering commutes with dropping a prefix of the text. */
  lemma LowerSuffix(s: string, i: nat)
    requires i <= |s|
    ensures Lower(s)[i..] == Lower(s[i..])
  {
  }

  /** `q in s` for strings: `q` occurs in `s` as a contiguous piece. */
  predicate IsSubstring(q: string, s: string)
  {
    q <= s || (s != [] && IsSubstring(q, s[1..]))
  }

  /** IsSubstring holds exactly when `q` starts at some position of `s`. */
  lemma {:induction false} IsSubstringAt(q: string, s: string)
    ensures IsSubstring(q, s) <==> exists i :: 0 <= i <= |s| && q <= s[i..]
  {
    assert s[0..] == s;
    if s != [] {
      IsSubstringAt(q, s[1..]);
      if exists i :: 0 <= i <= |s| && q <= s[i..] {
        var i :| 0 <= i <= |s| && q <= s[i..];
        if i > 0 {
          assert s[1..][i - 1..] == s[i..];
        }
      }
      if exists i :: 0 <= i <= |s[1..]| && q <= s[1..][i..] {
        var i :| 0 <= i <= |s[1..]| && q <= s[1..][i..];
        assert s[1..][i..] == s[i + 1..];
      }
    }
  }

  /** `q.lower() in s.lower()`: from some position on, `s` starts with
      `q` up to the case of the ASCII letters. */
  lemma LowerSubstring(q: string, s: string)
    ensures IsSubstring(Lower(q), Lower(s))
      <==> exists i :: 0 <= i <= |s| && Lower(q) <= Lower(s[i..])
  {
    IsSubstringAt(Lower(q), Lower(s));
    forall i | 0 <= i <= |s|
      ensures Lower(s)[i..] == Lower(s[i..])
    {
      LowerSuffix(s, i);
    }
  }
}
