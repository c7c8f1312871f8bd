/** Decimal integers as text: `strconv.Atoi`, `fmt`'s `%d`, and `%0<w>d` zero
    padding. Integers are unbounded here; Go's 64-bit range and the clamping
    `strconv.Atoi` does on overflow are not modelled. */
module Decimal {
  import opened Wrappers

  predicate IsDigit(c: char) {
    '0' <= c <= '9'
  }

  predicate AllDigits(s: string) {
    forall i :: 0 <= i < |s| ==> IsDigit(s[i])
  }

  function DigitValue(c: char): (d: nat)
    requires IsDigit(c)
    ensures d < 10
  {
    c as int - '0' as int
  }

  function DigitChar(d: nat): (c: char)
    requires d < 10
    ensures IsDigit(c) && DigitValue(c) == d
  {
    ('0' as int + d) as char
  }

  /** The value of a string of digits, read most significant digit first. */
  function DigitsValue(s: string): nat
    requires AllDigits(s)
  {
    if s == [] then 0 else 10 * DigitsValue(s[..|s| - 1]) + DigitValue(s[|s| - 1])
  }

  /** `strconv.Atoi`: an optional '+' or '-' followed by at least one ASCII
      digit; anything else is a syntax error. */
  function Atoi(s: string): (r: Option<int>)
    ensures r.Some? ==> |s| > 0
  {
    var signed := |s| > 0 && (s[0] == '-' || s[0] == '+');
    var digits := if signed then s[1..] else s;
    if digits != [] && AllDigits(digits) then
      var magnitude: int := DigitsValue(digits);
      Some(if signed && s[0] == '-' then -magnitude else magnitude)
    else None
  }

  /** `fmt.Sprintf("%d", n)` for n >= 0: the shortest digit string of n. */
  function FormatNat(n: nat): (r: string)
    ensures |r| > 0 && AllDigits(r) && DigitsValue(r) == n
    ensures |r| > 1 ==> r[0] != '0'
  {
    if n < 10 then [DigitChar(n)]
    else
      var r := FormatNat(n / 10) + [DigitChar(n % 10)];
      assert r[..|r| - 1] == FormatNat(n / 10);
      r
  }

  /** `fmt.Sprintf("%d", n)`: a minus sign for negative numbers, then the
      digits of the magnitude. */
  function FormatInt(n: int): (r: string)
    ensures |r| > 0 && (r[0] == '-' <==> n < 0)
  {
    if n < 0 then "-" + FormatNat(-n) else FormatNat(n)
  }

  /** Printing an integer and parsing it back gives the same integer. */
  lemma AtoiFormatInt(n: int)
    ensures Atoi(FormatInt(n)) == Some(n)
  {
    if n < 0 {
      assert FormatInt(n)[1..] == FormatNat(-n);
    }
  }

  function Zeros(k: nat): (r: string)
    ensures |r| == k && AllDigits(r)
    ensures forall i :: 0 <= i < k ==> r[i] == '0'
  {
    if k == 0 then [] else Zeros(k - 1) + ['0']
  }

  /** `digits` with zeros put in front until it is at least `width` long. */
  function PadLeft(digits: string, width: nat): (r: string)
    requires AllDigits(digits)
    ensures AllDigits(r) && DigitsValue(r) == DigitsValue(digits)
    ensures |r| == if |digits| < width then width else |digits|
  {
    var k := if |digits| < width then width - |digits| else 0;
    LeadingZeros(k, digits);
    Zeros(k) + digits
  }

  /** `fmt.Sprintf("%0<width>d", n)`: the digits of |n| padded on the left
      with zeros so that, with the sign, the text is at least `width` long. */
  function ZeroPad(n: int, width: nat): (r: string)
    ensures |r| == if |FormatInt(n)| < width then width else |FormatInt(n)|
  {
    if n < 0 then "-" + PadLeft(FormatNat(-n), if width > 0 then width - 1 else 0)
    else PadLeft(FormatNat(n), width)
  }

  /** Leading zeros do not change the value of a digit string. */
  lemma {:induction false} LeadingZeros(k: nat, s: string)
    requires AllDigits(s)
    ensures AllDigits(Zeros(k) + s) && DigitsValue(Zeros(k) + s) == DigitsValue(s)
  {
    if s == [] {
      ZerosValue(k);
      assert Zeros(k) + s == Zeros(k);
    } else {
      var t := Zeros(k) + s;
      assert t[..|t| - 1] == Zeros(k) + s[..|s| - 1];
      LeadingZeros(k, s[..|s| - 1]);
    }
  }

  lemma {:induction false} ZerosValue(k: nat)
    ensures DigitsValue(Zeros(k)) == 0
  {
    if k > 0 {
      assert Zeros(k)[..k - 1] == Zeros(k - 1);
      ZerosValue(k - 1);
    }
  }

  /** A digit string parses to its value. */
  lemma AtoiOfDigits(body: string)
    requires body != [] && AllDigits(body)
    ensures Atoi(body) == Some(DigitsValue(body) as int)
  {
    assert IsDigit(body[0]);
  }

  /** A minus sign followed by a digit string parses to minus its value. */
  lemma AtoiOfNegativeDigits(body: string)
    requires body != [] && AllDigits(body)
    ensures Atoi("-" + body) == Some(-(DigitsValue(body) as int))
  {
    var r := "-" + body;
    assert r[0] == '-' && r[1..] == body;
  }

  /** Zero-padded text still parses back to the number it was made from. */
  lemma AtoiZeroPad(n: int, width: nat)
    ensures Atoi(ZeroPad(n, width)) == Some(n)
  {
    if n < 0 {
      AtoiOfNegativeDigits(PadLeft(FormatNat(-n), if width > 0 then width - 1 else 0));
    } else {
      AtoiOfDigits(PadLeft(FormatNat(n), width));
    }
  }
}
