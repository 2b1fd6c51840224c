/**
 * The handful of JavaScript string and number primitives that the lyric-timing
 * core of script.js leans on: `String.prototype.trim`, `split('\n')`,
 * `Number.prototype.toString` for naturals, `padStart`, `toFixed(2)`, and the
 * decimal readings done by `parseInt` and `parseFloat` on digit strings.
 *
 * Numbers are exact (naturals and reals); the IEEE-754 double rounding of
 * script.js's numbers is not modelled.
 */
module JsText {

  // ---------------------------------------------------------------------------
  // Whitespace and trimming
  // ---------------------------------------------------------------------------

  /** The four characters ECMAScript calls line terminators (what regex `.` refuses). */
  predicate IsLineTerminator(c: char) {
    c == '\n' || c == '\r' || c == '\U{2028}' || c == '\U{2029}'
  }

  /** ECMAScript WhiteSpace or LineTerminator: the characters `trim` removes. */
  predicate IsSpace(c: char) {
    IsLineTerminator(c) ||
    c == '\t' || c == '\U{000B}' || c == '\U{000C}' || c == ' ' || c == '\U{00A0}' || c == '\U{FEFF}' ||
    c == '\U{1680}' || ('\U{2000}' <= c <= '\U{200A}') || c == '\U{202F}' || c == '\U{205F}' || c == '\U{3000}'
  }

  predicate AllSpace(s: string) {
    forall i :: 0 <= i < |s| ==> IsSpace(s[i])
  }

  /** Neither end of `s` is whitespace. */
  predicate IsTrimmed(s: string) {
    s == [] || (!IsSpace(s[0]) && !IsSpace(s[|s| - 1]))
  }

  /** `String.prototype.trimStart`. */
  function TrimStart(s: string): (r: string)
    ensures |r| <= |s|
  {
    if s != [] && IsSpace(s[0]) then TrimStart(s[1..]) else s
  }

  /** `String.prototype.trimEnd`. */
  function TrimEnd(s: string): (r: string)
    ensures |r| <= |s|
  {
    if s != [] && IsSpace(s[|s| - 1]) then TrimEnd(s[..|s| - 1]) else s
  }

  /** Trimming the start removes the longest all-whitespace prefix and nothing else. */
  lemma {:induction false} TrimStartSpec(s: string)
    ensures var r := TrimStart(s);
      r == s[|s| - |r|..] && (r == [] || !IsSpace(r[0])) && AllSpace(s[..|s| - |r|])
    decreases |s|
  {
    if s != [] && IsSpace(s[0]) {
      TrimStartSpec(s[1..]);
      var r := TrimStart(s);
      assert s[1..][|s| - 1 - |r|..] == s[|s| - |r|..];
    }
  }

  /** Trimming the end removes the longest all-whitespace suffix and nothing else. */
  lemma {:induction false} TrimEndSpec(s: string)
    ensures var r := TrimEnd(s);
      r == s[..|r|] && (r == [] || !IsSpace(r[|r| - 1])) && AllSpace(s[|r|..])
    decreases |s|
  {
    if s != [] && IsSpace(s[|s| - 1]) {
      TrimEndSpec(s[..|s| - 1]);
      var r := TrimEnd(s);
      assert s[..|s| - 1][..|r|] == s[..|r|];
    }
  }

  /** `String.prototype.trim`. */
  function Trim(s: string): string {
    TrimEnd(TrimStart(s))
  }

  /**
   * What `trim` promises: no whitespace is left at either end, only an
   * all-whitespace string trims to empty, and a trimmed string is left alone.
   */
  lemma {:induction false} TrimSpec(s: string)
    ensures IsTrimmed(Trim(s))
    ensures Trim(s) == [] <==> AllSpace(s)
    ensures IsTrimmed(s) ==> Trim(s) == s
  {
    var a := TrimStart(s);
    var r := TrimEnd(a);
    TrimStartSpec(s);
    TrimEndSpec(a);
    if r != [] {
      assert r[0] == a[0];
    } else {
      assert a[|r|..] == a;
      assert s[..|s| - |a|] == s;
    }
  }

  // ---------------------------------------------------------------------------
  // Splitting on line feeds
  // ---------------------------------------------------------------------------

  /** Index of the first `\n` in `s`, or `|s|` when there is none. */
  function NewlineIndex(s: string): (r: nat)
    ensures r <= |s|
    ensures r < |s| ==> s[r] == '\n'
    ensures forall k :: 0 <= k < r ==> s[k] != '\n'
  {
    if s == [] || s[0] == '\n' then 0 else 1 + NewlineIndex(s[1..])
  }

  /** `s.split('\n')`: the pieces between line feeds; never empty (`"".split('\n')` is `[""]`). */
  function SplitLines(s: string): (r: seq<string>)
    ensures |r| >= 1
    ensures forall i :: 0 <= i < |r| ==> '\n' !in r[i]
    decreases |s|
  {
    var i := NewlineIndex(s);
    if i == |s| then [s] else [s[..i]] + SplitLines(s[i + 1..])
  }

  /** `lines.join('\n')`, the inverse of SplitLines. */
  function JoinLines(lines: seq<string>): string {
    if lines == [] then ""
    else if |lines| == 1 then lines[0]
    else lines[0] + "\n" + JoinLines(lines[1..])
  }

  /** Joining the pieces of a split with line feeds gives the string back. */
  lemma {:induction false} JoinSplit(s: string)
    ensures JoinLines(SplitLines(s)) == s
    decreases |s|
  {
    var i := NewlineIndex(s);
    if i < |s| {
      JoinSplit(s[i + 1..]);
      assert s == s[..i] + "\n" + s[i + 1..];
    }
  }

  /** Splitting a join of line-feed-free pieces gives the pieces back. */
  lemma {:induction false} SplitJoin(lines: seq<string>)
    requires |lines| >= 1
    requires forall i :: 0 <= i < |lines| ==> '\n' !in lines[i]
    ensures SplitLines(JoinLines(lines)) == lines
    decreases |lines|
  {
    if |lines| == 1 {
      assert NewlineIndex(lines[0]) == |lines[0]|;
    } else {
      var a, rest := lines[0], JoinLines(lines[1..]);
      var s := a + "\n" + rest;
      assert s == JoinLines(lines);
      assert s[|a|] == '\n';
      assert forall k :: 0 <= k < |a| ==> s[k] == a[k];
      assert NewlineIndex(s) == |a|;
      assert s[..|a|] == a && s[|a| + 1..] == rest;
      SplitJoin(lines[1..]);
    }
  }

  // ---------------------------------------------------------------------------
  // Decimal digits
  // ---------------------------------------------------------------------------

  /** What `\d` matches in a JavaScript regular expression: ASCII digits only. */
  predicate IsDigit(c: char) {
    '0' <= c <= '9'
  }

  predicate AllDigits(s: string) {
    forall i :: 0 <= i < |s| ==> IsDigit(s[i])
  }

  function DigitChar(d: nat): (c: char)
    requires d < 10
    ensures IsDigit(c)
  {
    ('0' as int + d) as char
  }

  function DigitValue(c: char): (d: nat)
    requires IsDigit(c)
    ensures d < 10 && DigitChar(d) == c
  {
    c as int - '0' as int
  }

  function Pow10(k: nat): (r: nat)
    ensures r >= 1
  {
    if k == 0 then 1 else 10 * Pow10(k - 1)
  }

  /** The number a string of decimal digits denotes (`parseInt` on such a string). */
  function DecimalValue(s: string): nat
    requires AllDigits(s)
  {
    if s == [] then 0 else 10 * DecimalValue(s[..|s| - 1]) + DigitValue(s[|s| - 1])
  }

  /** `n.toString()` for a natural number: shortest decimal digits. */
  function NatToDecimal(n: nat): (r: string)
    ensures |r| >= 1 && AllDigits(r)
    ensures |r| > 1 ==> r[0] != '0'
    ensures n < 10 ==> |r| == 1
    ensures 10 <= n < 100 ==> |r| == 2
    ensures 100 <= n ==> |r| >= 3
  {
    if n < 10 then [DigitChar(n)]
    else NatToDecimal(n / 10) + [DigitChar(n % 10)]
  }

  /** Reading back the digits `toString` writes gives the number: the two are inverse. */
  lemma {:induction false} DecimalRoundTrip(n: nat)
    ensures DecimalValue(NatToDecimal(n)) == n
  {
    if n >= 10 {
      var r := NatToDecimal(n);
      assert r[..|r| - 1] == NatToDecimal(n / 10);
      DecimalRoundTrip(n / 10);
    }
  }

  /** `s.padStart(width, c)` with a one-character pad. */
  function PadStart(s: string, width: nat, c: char): (r: string)
    ensures |r| == if |s| >= width then |s| else width
  {
    if |s| >= width then s else [c] + PadStart(s, width - 1, c)
  }

  /** Padding puts copies of `c` in front of `s` and leaves `s` itself unchanged at the end. */
  lemma {:induction false} PadStartSpec(s: string, width: nat, c: char)
    ensures var r := PadStart(s, width, c);
      r[|r| - |s|..] == s && forall i :: 0 <= i < |r| - |s| ==> r[i] == c
    decreases width
  {
    if |s| < width {
      var r, r' := PadStart(s, width, c), PadStart(s, width - 1, c);
      PadStartSpec(s, width - 1, c);
      assert r == [c] + r';
      assert r[|r| - |s|..] == r'[|r'| - |s|..];
      assert forall i :: 1 <= i < |r| - |s| ==> r[i] == r'[i - 1];
    }
  }

  /** Leading zeros do not change a decimal value. */
  lemma {:induction false} LeadingZero(s: string)
    requires AllDigits(s)
    ensures AllDigits("0" + s) && DecimalValue("0" + s) == DecimalValue(s)
    decreases |s|
  {
    var z := "0" + s;
    if s != [] {
      assert z[..|z| - 1] == "0" + s[..|s| - 1];
      LeadingZero(s[..|s| - 1]);
    }
  }

  // ---------------------------------------------------------------------------
  // toFixed(2)
  // ---------------------------------------------------------------------------

  /**
   * The integer `n` that `x.toFixed(2)` writes as `n / 100`: the one closest to
   * `100 * x`, the larger one on a tie.
   */
  function Centi(x: real): (n: int)
    ensures n as real - 0.5 <= 100.0 * x < n as real + 0.5
  {
    (100.0 * x + 0.5).Floor
  }

  /**
   * How `toFixed(2)` writes `n / 100`: the digits of `n`, padded with zeros to
   * at least three, with a point before the last two.
   */
  function CentiText(n: nat): string {
    var m := PadStart(NatToDecimal(n), 3, '0');
    m[..|m| - 2] + "." + m[|m| - 2..]
  }

  /** `toFixed(2)` text is digits, a point and two digits, and reads back as the hundredths it wrote. */
  lemma {:induction false} CentiTextValue(n: nat)
    ensures var r := CentiText(n);
      |r| >= 4 && r[|r| - 3] == '.' &&
      AllDigits(r[..|r| - 3]) && AllDigits(r[|r| - 2..]) &&
      DecimalValue(r[..|r| - 3] + r[|r| - 2..]) == n
  {
    var d := NatToDecimal(n);
    var m := PadStart(d, 3, '0');
    PadToThree(d);
    DecimalRoundTrip(n);
    PointBeforeLastTwo(m);
    var r := CentiText(n);
    assert r == m[..|m| - 2] + "." + m[|m| - 2..];
    assert r[..|r| - 3] + r[|r| - 2..] == m;
    assert DecimalValue(m) == n;
  }

  lemma {:induction false} PointBeforeLastTwo(m: string)
    requires |m| >= 3 && AllDigits(m)
    ensures var r := m[..|m| - 2] + "." + m[|m| - 2..];
      |r| >= 4 && r[|r| - 3] == '.' &&
      AllDigits(r[..|r| - 3]) && AllDigits(r[|r| - 2..]) &&
      r[..|r| - 3] + r[|r| - 2..] == m
  {
    var r := m[..|m| - 2] + "." + m[|m| - 2..];
    assert r[..|r| - 3] == m[..|m| - 2];
    assert r[|r| - 2..] == m[|m| - 2..];
  }

  /**
   * `x.toFixed(2)` for `x >= 0`. (From 10^21 on, JavaScript switches to
   * exponent notation; the core only formats values below 60.)
   */
  function ToFixed2(x: real): (r: string)
    requires 0.0 <= x
  {
    CentiText(Centi(x))
  }

  lemma {:induction false} PadToThree(d: string)
    requires 1 <= |d| && AllDigits(d)
    ensures var m := PadStart(d, 3, '0'); AllDigits(m) && DecimalValue(m) == DecimalValue(d)
  {
    var m := PadStart(d, 3, '0');
    if |d| == 1 {
      PadByOne(d, 2, '0');
      PadByOne("0" + d, 3, '0');
      assert m == "0" + ("0" + d);
      LeadingZero(d);
      LeadingZero("0" + d);
    } else if |d| == 2 {
      PadByOne(d, 3, '0');
      assert m == "0" + d;
      LeadingZero(d);
    }
  }

  /** Below a minute, `toFixed(2)` rounds to at most 6000 hundredths (`60.00` can occur). */
  lemma {:induction false} CentiBelowMinute(x: real)
    requires 0.0 <= x < 60.0
    ensures 0 <= Centi(x) <= 6000
  {
  }

  /** The digits of a number below 10000, padded with zeros to four. */
  function Digits4(n: nat): (r: string)
    requires n < 10000
  {
    [DigitChar(n / 10 / 10 / 10), DigitChar(n / 10 / 10 % 10), DigitChar(n / 10 % 10), DigitChar(n % 10)]
  }

  lemma {:induction false} PaddedDigits(n: nat)
    requires n < 10000
    ensures PadStart(PadStart(NatToDecimal(n), 3, '0'), 4, '0') == Digits4(n)
  {
    if n < 10 { PaddedOne(n); }
    else if n < 100 { PaddedTwo(n); }
    else if n < 1000 { PaddedThree(n); }
    else { PaddedFour(n); }
  }

  lemma {:induction false} PaddedOne(n: nat)
    requires n < 10
    ensures PadStart(PadStart(NatToDecimal(n), 3, '0'), 4, '0') == Digits4(n)
  {
    var d := [DigitChar(n)];
    assert NatToDecimal(n) == d;
    PadByOne(d, 2, '0');
    PadByOne("0" + d, 3, '0');
    PadByOne("00" + d, 4, '0');
  }

  lemma {:induction false} PaddedTwo(n: nat)
    requires 10 <= n < 100
    ensures PadStart(PadStart(NatToDecimal(n), 3, '0'), 4, '0') == Digits4(n)
  {
    assert NatToDecimal(n / 10) == [DigitChar(n / 10)];
  }

  lemma {:induction false} PaddedThree(n: nat)
    requires 100 <= n < 1000
    ensures PadStart(PadStart(NatToDecimal(n), 3, '0'), 4, '0') == Digits4(n)
  {
    assert NatToDecimal(n / 10 / 10) == [DigitChar(n / 10 / 10)];
  }

  lemma {:induction false} PaddedFour(n: nat)
    requires 1000 <= n < 10000
    ensures PadStart(PadStart(NatToDecimal(n), 3, '0'), 4, '0') == Digits4(n)
  {
    var a, b, c := n / 10, n / 10 / 10, n / 10 / 10 / 10;
    assert NatToDecimal(c) == [DigitChar(c)];
    assert NatToDecimal(b) == [DigitChar(c), DigitChar(b % 10)];
    assert NatToDecimal(a) == [DigitChar(c), DigitChar(b % 10), DigitChar(a % 10)];
    assert NatToDecimal(n) == [DigitChar(c), DigitChar(b % 10), DigitChar(a % 10), DigitChar(n % 10)];
  }

  /** Below 100.00, `toFixed(2)` padded to five is exactly `SS.ss`. */
  lemma {:induction false} SecondsField(n: nat)
    requires n < 10000
    ensures var q := Digits4(n); PadStart(CentiText(n), 5, '0') == q[..2] + "." + q[2..]
  {
    PaddedDigits(n);
    PointInPadded(PadStart(NatToDecimal(n), 3, '0'));
  }

  lemma {:induction false} PointInPadded(m: string)
    requires 3 <= |m| <= 4
    ensures var q := PadStart(m, 4, '0'); var t := m[..|m| - 2] + "." + m[|m| - 2..];
      PadStart(t, 5, '0') == q[..2] + "." + q[2..]
  {
    var q := PadStart(m, 4, '0');
    var t := m[..|m| - 2] + "." + m[|m| - 2..];
    if |m| == 3 {
      PadByOne(m, 4, '0');
      PadByOne(t, 5, '0');
      assert q[..2] == "0" + m[..1] && q[2..] == m[1..];
    }
  }

  lemma {:induction false} PadByOne(s: string, width: nat, c: char)
    requires |s| + 1 == width
    ensures PadStart(s, width, c) == [c] + s
  {
    assert PadStart(s, width - 1, c) == s;
  }

  /** Reading the two halves of Digits4 back gives the number. */
  lemma {:induction false} Digits4Value(n: nat)
    requires n < 10000
    ensures var q := Digits4(n);
      AllDigits(q) && DecimalValue(q[..2]) * 100 + DecimalValue(q[2..]) == n
  {
    var q := Digits4(n);
    var a, b := n / 10, n / 10 / 10;
    TwoDigits(q[0], q[1]);
    TwoDigits(q[2], q[3]);
    assert q[..2] == [q[0], q[1]] && q[2..] == [q[2], q[3]];
    DigitRoundTrip(b / 10);
    DigitRoundTrip(b % 10);
    DigitRoundTrip(a % 10);
    DigitRoundTrip(n % 10);
  }

  lemma {:induction false} TwoDigits(a: char, b: char)
    requires IsDigit(a) && IsDigit(b)
    ensures DecimalValue([a, b]) == 10 * DigitValue(a) + DigitValue(b)
  {
    var s := [a, b];
    assert s[..|s| - 1] == [a];
    assert [a][..0] == [];
    assert DecimalValue([a]) == DigitValue(a);
  }

  lemma {:induction false} DigitRoundTrip(d: nat)
    requires d < 10
    ensures DigitValue(DigitChar(d)) == d
  {
  }

  /** Below a hundred, `m.toString().padStart(2, '0')` is exactly two digits. */
  lemma {:induction false} MinutesField(m: nat)
    requires m < 100
    ensures PadStart(NatToDecimal(m), 2, '0') == [DigitChar(m / 10), DigitChar(m % 10)]
  {
    if m >= 10 {
      var q := m / 10;
      assert q < 10;
      assert NatToDecimal(q) == [DigitChar(q)];
      assert NatToDecimal(m) == NatToDecimal(q) + [DigitChar(m % 10)];
    } else {
      assert NatToDecimal(m) == [DigitChar(m)];
      assert m / 10 == 0 && m % 10 == m;
      assert DigitChar(0) == '0';
    }
  }
}
