/** Decimal rendering of the integer bounds that appear in validation
    messages (`max`, `min`, the multiple-of factor), together with the
    matching parser that serves as its inverse. */
module Decimal {

  import opened Wrappers

  predicate IsDigit(c: char) {
    '0' <= c <= '9'
  }

  predicate AllDigits(s: string) {
    forall i :: 0 <= i < |s| ==> IsDigit(s[i])
  }

  /** A canonical decimal numeral: at least one digit, no leading zero
      unless the numeral is exactly "0". */
  predicate IsCanonical(s: string) {
    |s| >= 1 && AllDigits(s) && (|s| > 1 ==> s[0] != '0')
  }

  function DigitChar(d: nat): (c: char)
    requires d < 10
    ensures IsDigit(c) && c as int - '0' as int == d
  {
    ('0' as int + d) as char
  }

  function DigitValue(c: char): (d: nat)
    requires IsDigit(c)
    ensures d < 10 && DigitChar(d) == c
  {
    c as int - '0' as int
  }

  /** The value of a string of digits, most significant digit first. */
  function DecimalValue(s: string): nat
    requires AllDigits(s)
  {
    if s == [] then 0 else DecimalValue(s[..|s| - 1]) * 10 + DigitValue(s[|s| - 1])
  }

  /** Renders a natural number in base ten, without leading zeros. */
  function NatToDecimal(n: nat): (s: string)
    ensures IsCanonical(s)
    ensures DecimalValue(s) == n
  {
    if n < 10 then [DigitChar(n)]
    else
      var p := NatToDecimal(n / 10);
      var s := p + [DigitChar(n % 10)];
      assert s[..|s| - 1] == p;
      s
  }

  /** Renders an integer in base ten: a minus sign for negative values,
      then the digits of its magnitude. */
  function IntToDecimal(i: int): (s: string)
    ensures |s| >= 1
    ensures i >= 0 ==> IsCanonical(s) && DecimalValue(s) == i
    ensures i < 0 ==> s[0] == '-' && IsCanonical(s[1..]) && DecimalValue(s[1..]) == -i
  {
    if i < 0 then
      var s := "-" + NatToDecimal(-i);
      assert s[1..] == NatToDecimal(-i);
      s
    else NatToDecimal(i)
  }

  /** Reads back a numeral produced by IntToDecimal; anything else is None. */
  function ParseInt(s: string): (r: Option<int>)
    ensures r.Some? ==> |s| >= 1
  {
    if |s| >= 2 && s[0] == '-' && IsCanonical(s[1..]) && s[1..] != "0" then
      Some(0 - DecimalValue(s[1..]))
    else if IsCanonical(s) then Some(DecimalValue(s))
    else None
  }

  lemma {:induction false} LeadingNonZeroPositive(s: string)
    requires |s| >= 1 && AllDigits(s) && s[0] != '0'
    ensures DecimalValue(s) >= 1
  {
    if |s| > 1 {
      var p := s[..|s| - 1];
      assert p[0] == s[0];
      LeadingNonZeroPositive(p);
    }
  }

  lemma DivModTen(q: nat, d: nat)
    requires d < 10
    ensures (q * 10 + d) / 10 == q && (q * 10 + d) % 10 == d
  {
  }

  /** Rendering a number of two or more digits renders its leading part,
      then its last digit. */
  lemma NatToDecimalStep(q: nat, d: nat)
    requires q >= 1 && d < 10
    ensures NatToDecimal(q * 10 + d) == NatToDecimal(q) + [DigitChar(d)]
  {
    DivModTen(q, d);
  }

  /** A canonical numeral is exactly the rendering of its own value. */
  lemma {:induction false} NatToDecimalOfValue(s: string)
    requires IsCanonical(s)
    ensures NatToDecimal(DecimalValue(s)) == s
  {
    if |s| > 1 {
      var p := s[..|s| - 1];
      var c := s[|s| - 1];
      assert p[0] == s[0];
      LeadingNonZeroPositive(p);
      NatToDecimalOfValue(p);
      assert DecimalValue(s) == DecimalValue(p) * 10 + DigitValue(c);
      NatToDecimalStep(DecimalValue(p), DigitValue(c));
      assert s == p + [c];
    }
  }

  /** ParseInt inverts IntToDecimal. */
  lemma ParseIntToDecimal(i: int)
    ensures ParseInt(IntToDecimal(i)) == Some(i)
  {
    var s := IntToDecimal(i);
    if i < 0 {
      assert DecimalValue(s[1..]) != 0;
    } else {
      assert s[0] != '-';
    }
  }

  /** IntToDecimal inverts ParseInt: whatever ParseInt accepts is the
      rendering of the value it reads. */
  lemma IntToDecimalOfParse(s: string)
    requires ParseInt(s).Some?
    ensures IntToDecimal(ParseInt(s).value) == s
  {
    if |s| >= 2 && s[0] == '-' && IsCanonical(s[1..]) && s[1..] != "0" {
      NegativeOfParse(s);
    } else {
      NatToDecimalOfValue(s);
    }
  }

  lemma NegativeOfParse(s: string)
    requires |s| >= 2 && s[0] == '-' && IsCanonical(s[1..]) && s[1..] != "0"
    ensures IntToDecimal(0 - DecimalValue(s[1..])) == s
  {
    NatToDecimalOfValue(s[1..]);
    LeadingNonZeroPositive(s[1..]);
    assert s == "-" + s[1..];
  }

  lemma IntToDecimalInjective(a: int, b: int)
    requires IntToDecimal(a) == IntToDecimal(b)
    ensures a == b
  {
    ParseIntToDecimal(a);
    ParseIntToDecimal(b);
  }
}
