/**
 * Character classes and decimal numerals shared by several exercises:
 * Rust's `char::is_whitespace`, ASCII digits, the value of a digit run and
 * the `{}` formatting of a non-negative integer.
 */
module Text {

  /** Rust's `char::is_whitespace`: the Unicode White_Space property. */
  predicate IsWhitespace(c: char)
  {
    ('\t' <= c <= '\r') || c == ' ' || c == '\U{85}' || c == '\U{A0}' || c == '\U{1680}'
    || ('\U{2000}' <= c <= '\U{200A}') || c == '\U{2028}' || c == '\U{2029}'
    || c == '\U{202F}' || c == '\U{205F}' || c == '\U{3000}'
  }

  predicate AllWhitespace(s: string)
  {
    s == [] || (IsWhitespace(s[0]) && AllWhitespace(s[1..]))
  }

  /** `char::is_digit(10)`: only the ASCII digits. */
  predicate IsDigit(c: char)
  {
    '0' <= c <= '9'
  }

  predicate AllDigits(s: string)
  {
    forall k :: 0 <= k < |s| ==> IsDigit(s[k])
  }

  /** A digit run with no superfluous leading zero: "0", or a non-zero digit followed by digits. */
  predicate IsCanonical(s: string)
  {
    AllDigits(s) && |s| >= 1 && (s[0] == '0' ==> |s| == 1)
  }

  function DigitValue(c: char): (d: nat)
    requires IsDigit(c)
    ensures d < 10
  {
    (c - '0') as nat
  }

  function DigitChar(d: nat): (c: char)
    requires d < 10
    ensures IsDigit(c) && DigitValue(c) == d
  {
    ('0' as int + d) as char
  }

  /** The number a run of decimal digits denotes (what `str::parse` yields for it). */
  function ValueOf(s: string): nat
    requires AllDigits(s)
  {
    if s == [] then 0 else ValueOf(s[..|s| - 1]) * 10 + DigitValue(s[|s| - 1])
  }

  /** `format!("{}", n)` for a non-negative integer. */
  function Decimal(n: nat): (r: string)
    ensures IsCanonical(r)
    ensures n < 10 <==> |r| == 1
  {
    if n < 10 then [DigitChar(n)] else Decimal(n / 10) + [DigitChar(n % 10)]
  }

  /** Reading back a formatted number gives the number. */
  lemma {:induction false} ValueOfDecimal(n: nat)
    ensures ValueOf(Decimal(n)) == n
  {
    if n >= 10 {
      var r := Decimal(n);
      assert r[..|r| - 1] == Decimal(n / 10);
      ValueOfDecimal(n / 10);
    }
  }

  lemma {:induction false} ValueOfLeadingNonZero(s: string)
    requires AllDigits(s) && |s| >= 1 && s[0] != '0'
    ensures ValueOf(s) >= 1
  {
    if |s| > 1 {
      ValueOfLeadingNonZero(s[..|s| - 1]);
    }
  }

  lemma DivModTen(a: nat, d: nat)
    requires d < 10
    ensures (a * 10 + d) / 10 == a && (a * 10 + d) % 10 == d
  {
  }

  lemma DigitRoundTrip(c: char)
    requires IsDigit(c)
    ensures DigitChar(DigitValue(c)) == c
  {
  }

  /** Formatting the value of a canonical digit run gives the run back. */
  lemma {:induction false} DecimalOfValue(s: string)
    requires IsCanonical(s)
    ensures Decimal(ValueOf(s)) == s
  {
    var last := s[|s| - 1];
    DigitRoundTrip(last);
    if |s| == 1 {
      assert ValueOf(s) == DigitValue(last);
    } else {
      var p := s[..|s| - 1];
      var a := ValueOf(p);
      var n := a * 10 + DigitValue(last);
      assert ValueOf(s) == n;
      ValueOfLeadingNonZero(p);
      DivModTen(a, DigitValue(last));
      DecimalOfValue(p);
      assert Decimal(n) == Decimal(a) + [DigitChar(DigitValue(last))];
      assert p + [last] == s;
    }
  }
}
