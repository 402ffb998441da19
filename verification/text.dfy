/**
 * The slices of Python's `str` and `int` behaviour the admin panel and the
 * forward worker rely on: decimal rendering (`str(n)`, f-strings), `int(s)`,
 * `s.split(':')`, `s.strip()`, `s.split(None, 1)`, `s.lower()`, `s.lstrip('-')`
 * and `s.isdigit()`.
 */
module Text {
  import opened Wrappers

  // ---------------------------------------------------------------- digits

  predicate IsDigit(c: char) {
    '0' <= c <= '9'
  }

  /** `s.isdigit()` restricted to ASCII digits: true only for a non-empty all-digit string. */
  predicate IsDigits(s: string) {
    |s| > 0 && forall i :: 0 <= i < |s| ==> IsDigit(s[i])
  }

  predicate AllDigits(s: string) {
    forall i :: 0 <= i < |s| ==> IsDigit(s[i])
  }

  function DigitChar(d: nat): (c: char)
    requires d < 10
    ensures IsDigit(c)
  {
    (('0' as int) + d) as char
  }

  function DigitValue(c: char): (d: nat)
    requires IsDigit(c)
    ensures d < 10
  {
    (c as int) - ('0' as int)
  }

  /** `str(n)` for a non-negative integer: its shortest decimal spelling. */
  function NatToString(n: nat): (s: string)
    ensures IsDigits(s)
    ensures |s| > 1 ==> s[0] != '0'
    decreases n
  {
    if n < 10 then [DigitChar(n)] else NatToString(n / 10) + [DigitChar(n % 10)]
  }

  /** `str(i)` for any Python integer. */
  function IntToString(i: int): (s: string)
    ensures |s| > 0
    ensures forall k :: 0 <= k < |s| ==> IsDigit(s[k]) || (k == 0 && s[k] == '-')
  {
    if i < 0 then "-" + NatToString(-i) else NatToString(i)
  }

  /** The value of a string of decimal digits, most significant first. */
  function DigitsValue(s: string): nat
    requires AllDigits(s)
    decreases |s|
  {
    if |s| == 0 then 0 else DigitsValue(s[..|s| - 1]) * 10 + DigitValue(s[|s| - 1])
  }

  /**
   * `int(s)` for strings made of an optional sign and ASCII digits; every
   * other string is a `ValueError`, reported here as `None`.
   */
  function ParseInt(s: string): (r: Option<int>)
    ensures r.Some? <==> IsDigits(s) || (|s| > 1 && (s[0] == '-' || s[0] == '+') && IsDigits(s[1..]))
    ensures r.Some? && IsDigits(s) ==> r.value >= 0
  {
    if |s| > 1 && s[0] == '-' && IsDigits(s[1..]) then Some(0 - DigitsValue(s[1..]) as int)
    else if |s| > 1 && s[0] == '+' && IsDigits(s[1..]) then Some(DigitsValue(s[1..]))
    else if IsDigits(s) then Some(DigitsValue(s))
    else None
  }

  lemma {:induction false} DigitsRoundTrip(n: nat)
    ensures DigitsValue(NatToString(n)) == n
    decreases n
  {
    if n >= 10 {
      var s := NatToString(n);
      assert s[..|s| - 1] == NatToString(n / 10);
      DigitsRoundTrip(n / 10);
    }
  }

  lemma NegativeRoundTrip(i: int)
    requires i < 0
    ensures ParseInt(IntToString(i)) == Some(i)
  {
    var s := IntToString(i);
    var n := NatToString(-i);
    assert s == "-" + n && s[1..] == n;
    DigitsRoundTrip(-i);
  }

  lemma NonNegativeRoundTrip(i: int)
    requires i >= 0
    ensures ParseInt(IntToString(i)) == Some(i)
  {
    var s := IntToString(i);
    assert IsDigit(s[0]);
    DigitsRoundTrip(i);
  }

  /** `int(str(i)) == i`: decimal rendering and parsing are inverse. */
  lemma IntRoundTrip(i: int)
    ensures ParseInt(IntToString(i)) == Some(i)
  {
    if i < 0 {
      NegativeRoundTrip(i);
    } else {
      NonNegativeRoundTrip(i);
    }
  }

  /** Distinct integers render to distinct strings. */
  lemma IntToStringInjective(i: int, j: int)
    requires IntToString(i) == IntToString(j)
    ensures i == j
  {
    IntRoundTrip(i);
    IntRoundTrip(j);
  }

  predicate StartsWith(s: string, p: string) {
    |p| <= |s| && s[..|p|] == p
  }

  /** The Python exceptions the modelled handlers can raise on malformed input. */
  datatype PyError = ValueError | IndexError

  // ------------------------------------------------------------ splitting

  function Count(s: string, c: char): nat
  {
    if |s| == 0 then 0 else (if s[0] == c then 1 else 0) + Count(s[1..], c)
  }

  /** `s.split(sep)` for a one-character separator. */
  function Split(s: string, sep: char): (parts: seq<string>)
    ensures |parts| == Count(s, sep) + 1
    ensures forall k :: 0 <= k < |parts| ==> sep !in parts[k]
    decreases |s|
  {
    if |s| == 0 then [""]
    else if s[0] == sep then [""] + Split(s[1..], sep)
    else
      var rest := Split(s[1..], sep);
      [[s[0]] + rest[0]] + rest[1..]
  }

  /** `sep.join(parts)`, the inverse of `Split`. */
  function Join(parts: seq<string>, sep: char): string
    requires |parts| > 0
    decreases |parts|
  {
    if |parts| == 1 then parts[0] else parts[0] + [sep] + Join(parts[1..], sep)
  }

  lemma {:induction false} SplitNoSeparator(s: string, sep: char)
    requires sep !in s
    ensures Split(s, sep) == [s]
    decreases |s|
  {
    if |s| > 0 {
      assert sep !in s[1..];
      SplitNoSeparator(s[1..], sep);
      assert [s[0]] + s[1..] == s;
    }
  }

  /** Splitting after a separator-free head peels that head off. */
  lemma {:induction false} SplitCons(a: string, sep: char, b: string)
    requires sep !in a
    ensures Split(a + [sep] + b, sep) == [a] + Split(b, sep)
    decreases |a|
  {
    var s := a + [sep] + b;
    if |a| == 0 {
      assert s[1..] == b;
    } else {
      assert s[1..] == a[1..] + [sep] + b;
      assert sep !in a[1..];
      SplitCons(a[1..], sep, b);
      assert [a[0]] + a[1..] == a;
    }
  }

  /** Splitting before a separator-free tail puts that tail last. */
  lemma {:induction false} SplitSnoc(a: string, sep: char, b: string)
    requires sep !in b
    ensures Split(a + [sep] + b, sep) == Split(a, sep) + [b]
    decreases |a|
  {
    var s := a + [sep] + b;
    if |a| == 0 {
      assert s[1..] == b;
      SplitNoSeparator(b, sep);
    } else {
      assert s[0] == a[0] && s[1..] == a[1..] + [sep] + b;
      SplitSnoc(a[1..], sep, b);
    }
  }

  /** Splitting a join of separator-free fields returns the fields. */
  lemma {:induction false} SplitJoin(parts: seq<string>, sep: char)
    requires |parts| > 0
    requires forall k :: 0 <= k < |parts| ==> sep !in parts[k]
    ensures Split(Join(parts, sep), sep) == parts
    decreases |parts|
  {
    if |parts| == 1 {
      SplitNoSeparator(parts[0], sep);
    } else {
      SplitJoin(parts[1..], sep);
      SplitCons(parts[0], sep, Join(parts[1..], sep));
      assert [parts[0]] + parts[1..] == parts;
    }
  }

  // ----------------------------------------------------------- whitespace

  /** `c.isspace()`: the characters Python's `str.strip()` and `str.split()` treat as whitespace. */
  predicate IsSpace(c: char) {
    c == ' ' || c == '\t' || c == '\n' || c == '\r' || c == '\U{0B}' || c == '\U{0C}'
    || c == '\U{1C}' || c == '\U{1D}' || c == '\U{1E}' || c == '\U{1F}' || c == '\U{85}'
    || c == '\U{A0}' || c == '\U{1680}' || c == '\U{2000}' || c == '\U{2001}' || c == '\U{2002}'
    || c == '\U{2003}' || c == '\U{2004}' || c == '\U{2005}' || c == '\U{2006}'
    || c == '\U{2007}' || c == '\U{2008}' || c == '\U{2009}' || c == '\U{200A}'
    || c == '\U{2028}' || c == '\U{2029}' || c == '\U{202F}' || c == '\U{205F}'
    || c == '\U{3000}'
  }

  predicate NoSpace(s: string) {
    forall i :: 0 <= i < |s| ==> !IsSpace(s[i])
  }

  predicate AllSpace(s: string) {
    forall i :: 0 <= i < |s| ==> IsSpace(s[i])
  }

  /** `s.lstrip()`. */
  function LStrip(s: string): (t: string)
    ensures |t| <= |s| && t == s[|s| - |t|..]
    ensures |t| > 0 ==> !IsSpace(t[0])
    decreases |s|
  {
    if |s| > 0 && IsSpace(s[0]) then LStrip(s[1..]) else s
  }

  /** What `lstrip()` drops is whitespace. */
  lemma {:induction false} LStripDropsSpaces(s: string)
    ensures AllSpace(s[..|s| - |LStrip(s)|])
    decreases |s|
  {
    if |s| > 0 && IsSpace(s[0]) {
      var k := |s| - |LStrip(s)|;
      LStripDropsSpaces(s[1..]);
      forall j | 0 <= j < k ensures IsSpace(s[..k][j]) {
        if j > 0 {
          assert s[..k][j] == s[1..][..k - 1][j - 1];
        }
      }
    }
  }

  /** `lstrip()` stops at the last character when that is not whitespace. */
  lemma {:induction false} LStripKeepsLast(s: string)
    requires |s| > 0 && !IsSpace(s[|s| - 1])
    ensures |LStrip(s)| > 0 && LStrip(s)[|LStrip(s)| - 1] == s[|s| - 1]
    decreases |s|
  {
    if IsSpace(s[0]) {
      assert |s| > 1;
      assert s[1..][|s| - 2] == s[|s| - 1];
      LStripKeepsLast(s[1..]);
    }
  }

  /** `s.rstrip()`. */
  function RStrip(s: string): (t: string)
    ensures |t| <= |s| && t == s[..|t|]
    ensures |t| > 0 ==> !IsSpace(t[|t| - 1])
    decreases |s|
  {
    if |s| > 0 && IsSpace(s[|s| - 1]) then RStrip(s[..|s| - 1]) else s
  }

  /** What `rstrip()` drops is whitespace. */
  lemma {:induction false} RStripDropsSpaces(s: string)
    ensures AllSpace(s[|RStrip(s)|..])
    decreases |s|
  {
    if |s| > 0 && IsSpace(s[|s| - 1]) {
      var n := |RStrip(s)|;
      RStripDropsSpaces(s[..|s| - 1]);
      forall j | 0 <= j < |s| - n ensures IsSpace(s[n..][j]) {
        if n + j < |s| - 1 {
          assert s[n..][j] == s[..|s| - 1][n..][j];
        }
      }
    }
  }

  /** `s.strip()`. */
  function Strip(s: string): string
  {
    RStrip(LStrip(s))
  }

  /** Index of the first whitespace character of `s`, or `|s|` when there is none. */
  function FirstSpace(s: string): (i: nat)
    ensures i <= |s|
    ensures NoSpace(s[..i])
    ensures i < |s| ==> IsSpace(s[i])
    decreases |s|
  {
    if |s| == 0 then 0
    else if IsSpace(s[0]) then 0
    else
      var j := FirstSpace(s[1..]);
      assert s[1..][..j] == s[1..j + 1];
      1 + j
  }

  /** A string that starts with a non-space character has a non-empty first word. */
  lemma WordCut(t: string)
    requires |t| > 0 && !IsSpace(t[0])
    ensures 0 < FirstSpace(t) && NoSpace(t[..FirstSpace(t)])
  {
  }

  /** `lstrip()` leaves nothing exactly when the text is all whitespace. */
  lemma LStripEmpty(s: string)
    ensures |LStrip(s)| == 0 <==> AllSpace(s)
  {
    var t := LStrip(s);
    if |t| == 0 {
      LStripDropsSpaces(s);
      assert s[..|s| - |t|] == s;
    } else {
      assert t[0] == s[|s| - |t|];
    }
  }

  /**
   * `s.split(None, 1)`: leading whitespace is skipped, the first word is cut at
   * the first whitespace run, and the remainder (if any) starts after that run.
   */
  function SplitWordOnce(s: string): (parts: seq<string>)
    ensures |parts| <= 2
    ensures |parts| > 0 ==> |parts[0]| > 0 && NoSpace(parts[0])
    ensures |parts| == 2 ==> |parts[1]| > 0 && !IsSpace(parts[1][0])
  {
    var t := LStrip(s);
    if |t| == 0 then []
    else
      var i := FirstSpace(t);
      WordCut(t);
      var rest := LStrip(t[i..]);
      if |rest| == 0 then [t[..i]] else [t[..i], rest]
  }

  /**
   * What `split(None, 1)` returns: a text of whitespace only has no parts;
   * otherwise the first part is the stripped text up to its first whitespace,
   * and a second part exists exactly when something other than whitespace
   * follows, and is that rest, stripped.
   */
  lemma SplitWordOnceParts(s: string)
    ensures var parts := SplitWordOnce(s);
            && (|parts| == 0 <==> AllSpace(s))
            && (|parts| > 0 ==>
                  && |parts[0]| <= |LStrip(s)| && parts[0] == LStrip(s)[..|parts[0]|]
                  && var w := LStrip(s)[|parts[0]|..];
                     && (|w| == 0 || IsSpace(w[0]))
                     && (|parts| == 2 <==> |LStrip(w)| > 0)
                     && (|parts| == 2 ==> parts[1] == LStrip(w)))
  {
    var t := LStrip(s);
    LStripEmpty(s);
    if |t| > 0 {
      var i := FirstSpace(t);
      WordCut(t);
      var parts := SplitWordOnce(s);
      assert parts[0] == t[..i];
      assert i < |t| ==> IsSpace(t[i..][0]);
    }
  }

  // ----------------------------------------------------------------- case

  /** `c.lower()` on ASCII letters; other characters are left as they are. */
  function LowerChar(c: char): char {
    if 'A' <= c <= 'Z' then ((c as int) + 32) as char else c
  }

  /** `s.lower()`, ASCII letters only (exact for comparisons against lower-case ASCII words). */
  function Lower(s: string): (t: string)
    ensures |t| == |s|
    ensures forall i :: 0 <= i < |s| ==> t[i] == LowerChar(s[i])
  {
    seq(|s|, i requires 0 <= i < |s| => LowerChar(s[i]))
  }

  /** `s.lstrip(c)`: drop every leading copy of `c`. */
  function LStripChar(s: string, c: char): (t: string)
    ensures |t| <= |s| && t == s[|s| - |t|..]
    ensures forall i :: 0 <= i < |s| - |t| ==> s[i] == c
    ensures |t| > 0 ==> t[0] != c
    decreases |s|
  {
    if |s| > 0 && s[0] == c then LStripChar(s[1..], c) else s
  }
}
