/** Decimal numbers as text: the plain-decimal part of Python's float()
    grammar, int() truncation of a float, and the `:.1f` and `:.0%` format
    specifications used in the reason strings. */
module Decimal {
  import opened Options
  import opened Text

  predicate IsDigit(c: char) {
    '0' <= c <= '9'
  }

  function DigitValue(c: char): nat
    requires IsDigit(c)
  {
    c as int - '0' as int
  }

  predicate AllDigits(s: string) {
    forall i :: 0 <= i < |s| ==> IsDigit(s[i])
  }

  /** The characters a plain decimal number is written with. */
  predicate IsNumberChar(c: char) {
    IsDigit(c) || c == '.' || c == '+' || c == '-'
  }

  /** The number a string of decimal digits denotes ("" denotes 0). */
  function DigitsValue(s: string): nat
    requires AllDigits(s)
  {
    if s == [] then 0 else DigitsValue(s[..|s| - 1]) * 10 + DigitValue(s[|s| - 1])
  }

  /** Length of the longest all-digit prefix. */
  function LeadingDigits(s: string): (n: nat)
    ensures n <= |s| && AllDigits(s[..n])
    ensures n < |s| ==> !IsDigit(s[n])
  {
    if s != [] && IsDigit(s[0]) then 1 + LeadingDigits(s[1..]) else 0
  }

  function Pow10(k: nat): (r: nat)
    ensures r >= 1
  {
    if k == 0 then 1 else 10 * Pow10(k - 1)
  }

  /** An unsigned plain decimal: digits, optionally followed by a point and
      more digits, with at least one digit in all ("7", "1.5", "5.", ".5"). */
  function ParseUnsigned(s: string): Option<real> {
    var n := LeadingDigits(s);
    var whole := s[..n];
    var rest := s[n..];
    if rest == [] then
      if n > 0 then Some(DigitsValue(whole) as real) else None
    else if rest[0] == '.' && AllDigits(rest[1..]) && n + |rest| - 1 > 0 then
      Some(DigitsValue(whole) as real + DigitsValue(rest[1..]) as real / Pow10(|rest| - 1) as real)
    else
      None
  }

  /** float(s) on the plain decimal subset of its grammar: an optional sign
      and an unsigned decimal. None stands for the ValueError float() raises. */
  function ParseFloat(s: string): Option<real> {
    if |s| > 0 && (s[0] == '-' || s[0] == '+') then
      match ParseUnsigned(s[1..])
      case None => None
      case Some(v) => Some(if s[0] == '-' then -v else v)
    else
      ParseUnsigned(s)
  }

  /** Whatever float() accepts here is written with digits, a point and a
      sign only: no letters and no white space. */
  lemma ParsedCharsAreNumberChars(s: string)
    requires ParseFloat(s).Some?
    ensures forall i :: 0 <= i < |s| ==> IsNumberChar(s[i])
  {
    var t := if |s| > 0 && (s[0] == '-' || s[0] == '+') then s[1..] else s;
    var n := LeadingDigits(t);
    assert t == t[..n] + t[n..];
    forall i | 0 <= i < |t| ensures IsNumberChar(t[i]) {
      if i >= n + 1 {
        assert t[i] == t[n..][1..][i - n - 1];
      }
    }
    forall i | 0 <= i < |s| ensures IsNumberChar(s[i]) {
      if t != s && i > 0 {
        assert s[i] == t[i - 1];
      }
    }
  }

  /** The digits of str(n) read back as n. */
  lemma {:induction false} NatToStringValue(n: nat)
    ensures AllDigits(NatToString(n)) && DigitsValue(NatToString(n)) == n
  {
    var s := NatToString(n);
    if n >= 10 {
      NatToStringValue(n / 10);
      assert s[..|s| - 1] == NatToString(n / 10);
    }
  }

  /** A digit run followed by a non-digit (or nothing) is exactly the
      leading digit run. */
  lemma {:induction false} LeadingDigitsOf(w: string, rest: string)
    requires AllDigits(w)
    requires rest == [] || !IsDigit(rest[0])
    ensures LeadingDigits(w + rest) == |w|
  {
    if w != [] {
      assert (w + rest)[1..] == w[1..] + rest;
      LeadingDigitsOf(w[1..], rest);
    } else {
      assert w + rest == rest;
    }
  }

  /** float(str(n)) == n for every natural number n. */
  lemma ParseNatToString(n: nat)
    ensures ParseFloat(NatToString(n)) == Some(n as real)
  {
    var s := NatToString(n);
    NatToStringValue(n);
    LeadingDigitsOf(s, []);
    assert s + [] == s;
  }

  /** float(str(i)) == i for every integer i. */
  lemma ParseIntToString(i: int)
    ensures ParseFloat(IntToString(i)) == Some(i as real)
  {
    ParseNatToString(if i < 0 then -i else i);
    if i < 0 {
      assert IntToString(i)[1..] == NatToString(-i);
    }
  }

  /** int(x) for a float: truncation toward zero. */
  function Trunc(x: real): (r: int)
    ensures 0.0 <= x ==> r as real <= x < r as real + 1.0
    ensures x < 0.0 ==> r as real - 1.0 < x <= r as real
  {
    if x >= 0.0 then x.Floor else -((-x).Floor)
  }

  /** Rounding to the nearest integer, halves going to the even neighbour
      (the rule of Python's fixed-point formatting). */
  function RoundHalfEven(y: real): (r: nat)
    requires y >= 0.0
    ensures y - 0.5 <= r as real <= y + 0.5
    ensures (r as real - y == 0.5 || y - r as real == 0.5) ==> r % 2 == 0
  {
    var f := y.Floor;
    var frac := y - f as real;
    if frac < 0.5 then f
    else if frac > 0.5 then f + 1
    else if f % 2 == 0 then f
    else f + 1
  }

  function Abs(x: real): real {
    if x < 0.0 then -x else x
  }

  function Sign(x: real): string {
    if x < 0.0 then "-" else ""
  }

  /** q tenths written as "<q / 10>.<q % 10>". */
  function TenthsText(q: nat): string {
    NatToString(q / 10) + "." + [DigitChar(q % 10)]
  }

  /** f"{x:.1f}": the absolute value rounded to tenths, with the sign of x
      (so a small negative number shows as "-0.0", as in Python). */
  function FormatFixed1(x: real): string {
    Sign(x) + TenthsText(RoundHalfEven(Abs(x) * 10.0))
  }

  /** f"{x:.0%}": the absolute value times one hundred, rounded to an
      integer, with the sign of x and a percent sign. */
  function FormatPercent0(x: real): string {
    Sign(x) + NatToString(RoundHalfEven(Abs(x) * 100.0)) + "%"
  }

  /** The number FormatFixed1 shows: x rounded to tenths. */
  function Rounded1(x: real): (r: real)
    ensures Abs(r - x) <= 0.05
  {
    var q := RoundHalfEven(Abs(x) * 10.0) as real / 10.0;
    if x < 0.0 then -q else q
  }

  /** "a.b" reads back as a + b/10. */
  lemma ParseOneDecimal(a: nat, b: nat)
    requires b < 10
    ensures ParseUnsigned(NatToString(a) + "." + [DigitChar(b)]) == Some(a as real + b as real / 10.0)
  {
    var w := NatToString(a);
    var d := [DigitChar(b)];
    var rest := "." + d;
    var body := w + rest;
    assert body == w + "." + d;
    assert AllDigits(w) && DigitsValue(w) == a by {
      NatToStringValue(a);
    }
    assert LeadingDigits(body) == |w| by {
      LeadingDigitsOf(w, rest);
    }
    assert body[..|w|] == w && body[|w|..] == rest;
    assert rest[0] == '.' && rest[1..] == d;
    assert AllDigits(d) && DigitsValue(d) == b by {
      assert d[..0] == [];
    }
    assert Pow10(|rest| - 1) == 10;
    var n := LeadingDigits(body);
    assert body[..n] == w && body[n..] == rest;
    assert ParseUnsigned(body)
      == Some(DigitsValue(w) as real + DigitsValue(rest[1..]) as real / Pow10(|rest| - 1) as real);
  }

  lemma TenthsSplit(q: nat)
    ensures (q / 10) as real + (q % 10) as real / 10.0 == q as real / 10.0
  {
    var a, b := q / 10, q % 10;
    assert q == 10 * a + b;
    assert q as real == 10.0 * a as real + b as real;
  }

  /** The tenths text reads back as q / 10. */
  lemma TenthsTextValue(q: nat)
    ensures ParseFloat(TenthsText(q)) == Some(q as real / 10.0)
  {
    ParseOneDecimal(q / 10, q % 10);
    TenthsSplit(q);
    assert TenthsText(q)[0] == NatToString(q / 10)[0];
  }

  /** A sign in front of an unsigned number negates it or is absent. */
  lemma SignedParse(body: string, v: real)
    requires |body| > 0 && IsDigit(body[0]) && ParseFloat(body) == Some(v)
    ensures ParseFloat("-" + body) == Some(-v)
  {
    var s := "-" + body;
    assert ParseUnsigned(body) == Some(v);
    assert s[0] == '-' && s[1..] == body;
  }

  /** q tenths with an optional minus sign read back as plus or minus
      q / 10. */
  lemma SignedTenthsValue(q: nat, sign: string)
    requires sign == "" || sign == "-"
    ensures ParseFloat(sign + TenthsText(q)) == Some(if sign == "-" then -(q as real / 10.0) else q as real / 10.0)
  {
    var body := TenthsText(q);
    TenthsTextValue(q);
    if sign == "" {
      assert sign + body == body;
    } else {
      assert IsDigit(body[0]) by {
        assert body[0] == NatToString(q / 10)[0];
      }
      SignedParse(body, q as real / 10.0);
    }
  }

  /** Reading the one-decimal rendering back gives x rounded to tenths,
      which is within 0.05 of x. */
  lemma FormatFixed1RoundTrip(x: real)
    ensures ParseFloat(FormatFixed1(x)) == Some(Rounded1(x))
  {
    var q := RoundHalfEven(Abs(x) * 10.0);
    SignedTenthsValue(q, Sign(x));
  }
}
