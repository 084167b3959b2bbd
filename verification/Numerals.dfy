/** Positional numerals in base 10 and 16, as the reference for `convert` and `convertHex` of base/LogStream.cpp. */
module Numerals {
  import opened Sequences

  predicate IsBase(b: nat) {
    b == 10 || b == 16
  }

  /** All digits of `n` but the last, the last one, and the two put together again. */
  function Front(n: nat, b: nat): nat {
    if b == 10 then n / 10 else n / 16
  }

  function Last(n: nat, b: nat): nat {
    if b == 10 then n % 10 else n % 16
  }

  function Joined(front: nat, last: nat, b: nat): nat {
    if b == 10 then 10 * front + last else 16 * front + last
  }

  function DigitChar(d: nat): char
    requires d < 16
  {
    if d < 10 then '0' + d as char else 'A' + (d - 10) as char
  }

  /** The value of a digit, None for any other character. */
  function DigitValue(c: char, b: nat): Option<nat> {
    if '0' <= c <= '9' then Some((c - '0') as nat)
    else if b == 16 && 'A' <= c <= 'F' then Some((c - 'A') as nat + 10)
    else None
  }

  lemma DigitRoundTrip(d: nat, b: nat)
    requires IsBase(b) && d < b
    ensures DigitValue(DigitChar(d), b) == Some(d)
  {
  }

  lemma CharRoundTrip(c: char, b: nat)
    requires IsBase(b) && DigitValue(c, b).Some?
    ensures DigitValue(c, b).value < b && DigitChar(DigitValue(c, b).value) == c
  {
    if '0' <= c <= '9' {
      assert c == '0' + DigitValue(c, b).value as char;
    } else {
      assert c == 'A' + (DigitValue(c, b).value - 10) as char;
    }
  }

  /** The numeral of `n`, most significant digit first. */
  function Numeral(n: nat, b: nat): (s: string)
    requires IsBase(b)
    ensures s != ""
  {
    (if n < b then "" else Numeral(Front(n, b), b)) + [DigitChar(Last(n, b))]
  }

  /** The value of a string of digits, None if it is anything else. */
  function Value(s: string, b: nat): Option<nat>
    requires IsBase(b)
  {
    if s == "" then
      None
    else
      var last := DigitValue(s[|s| - 1], b);
      if |s| == 1 then
        last
      else
        var front := Value(s[..|s| - 1], b);
        if front.None? || last.None? then None else Some(Joined(front.value, last.value, b))
  }

  predicate NoLeadingZero(s: string) {
    |s| > 1 ==> s[0] != '0'
  }

  lemma {:induction false} ValueOfNumeral(n: nat, b: nat)
    requires IsBase(b)
    ensures Value(Numeral(n, b), b) == Some(n)
  {
    DigitRoundTrip(Last(n, b), b);
    if n >= b {
      ValueOfNumeral(Front(n, b), b);
      var s := Numeral(n, b);
      assert s[..|s| - 1] == Numeral(Front(n, b), b);
    }
  }

  lemma {:induction false} NumeralHasNoLeadingZero(n: nat, b: nat)
    requires IsBase(b)
    ensures NoLeadingZero(Numeral(n, b))
    ensures Numeral(n, b)[0] == '0' ==> n == 0
    ensures forall i :: 0 <= i < |Numeral(n, b)| ==> DigitValue(Numeral(n, b)[i], b).Some?
  {
    DigitRoundTrip(Last(n, b), b);
    if n >= b {
      NumeralHasNoLeadingZero(Front(n, b), b);
    }
  }

  lemma NumeralStep(front: nat, last: nat, b: nat)
    requires IsBase(b) && last < b && front > 0
    ensures Joined(front, last, b) >= b
    ensures Numeral(Joined(front, last, b), b) == Numeral(front, b) + [DigitChar(last)]
  {
    assert Front(Joined(front, last, b), b) == front && Last(Joined(front, last, b), b) == last;
  }

  lemma NumeralOfDigit(last: nat, b: nat)
    requires IsBase(b) && last < b
    ensures Numeral(last, b) == [DigitChar(last)]
  {
  }

  /** A numeral without superfluous zeros is the one that is printed for its value. */
  lemma {:induction false} NumeralOfValue(s: string, b: nat)
    requires IsBase(b) && Value(s, b).Some? && NoLeadingZero(s)
    ensures Numeral(Value(s, b).value, b) == s
  {
    var front, last := s[..|s| - 1], s[|s| - 1];
    CharRoundTrip(last, b);
    var d := DigitValue(last, b).value;
    assert s == front + [last];
    if front == "" {
      NumeralOfDigit(d, b);
    } else {
      NumeralOfValue(front, b);
      NumeralOfDigit(0, b);
      NumeralStep(Value(front, b).value, d, b);
    }
  }

  function Power(b: nat, k: nat): nat {
    if k == 0 then 1 else Joined(Power(b, k - 1), 0, b)
  }

  /** A value below the k-th power of the base needs at most `k` digits. */
  lemma {:induction false} NumeralLength(n: nat, b: nat, k: nat)
    requires IsBase(b) && k > 0 && n < Power(b, k)
    ensures |Numeral(n, b)| <= k
  {
    if n >= b {
      assert Power(b, 0) == 1;
      NumeralLength(Front(n, b), b, k - 1);
    }
  }

  /** Decimal notation of any integer. */
  function Decimal(v: int): string {
    if v < 0 then "-" + Numeral(-v, 10) else Numeral(v, 10)
  }

  function Parse(s: string): Option<int> {
    if s != "" && s[0] == '-' then
      var m := Value(s[1..], 10);
      if m.None? then None else Some(-(m.value as int))
    else
      var m := Value(s, 10);
      if m.None? then None else Some(m.value)
  }

  /** Decimal notation reads back, has a sign exactly for negative numbers, and no leading zeros. */
  lemma DecimalRoundTrip(v: int)
    ensures Parse(Decimal(v)) == Some(v)
    ensures Decimal(v)[0] == '-' <==> v < 0
    ensures NoLeadingZero(if v < 0 then Decimal(v)[1..] else Decimal(v))
    ensures forall i :: 0 <= i < |Decimal(v)| && !(i == 0 && v < 0) ==> '0' <= Decimal(v)[i] <= '9'
  {
    var n := if v < 0 then -v else v;
    ValueOfNumeral(n, 10);
    NumeralHasNoLeadingZero(n, 10);
    if v < 0 {
      assert Decimal(v)[1..] == Numeral(n, 10);
    }
    forall i | 0 <= i < |Numeral(n, 10)|
      ensures '0' <= Numeral(n, 10)[i] <= '9'
    {
      assert DigitValue(Numeral(n, 10)[i], 10).Some?;
    }
  }

  /** At most 20 characters for every value of the signed and unsigned types up to 64 bits. */
  lemma DecimalLength(v: int)
    requires -0x8000_0000_0000_0000 <= v <= 0xFFFF_FFFF_FFFF_FFFF
    ensures 1 <= |Decimal(v)| <= 20
  {
    assert Power(10, 5) == 10_0000;
    assert Power(10, 10) == 10_0000 * Power(10, 5);
    assert Power(10, 15) == 10_0000 * Power(10, 10);
    assert Power(10, 19) == 1_0000 * Power(10, 15);
    if v < 0 {
      NumeralLength(-v, 10, 19);
    } else {
      NumeralLength(v, 10, 20);
    }
  }

  /** At most 16 hexadecimal digits for a 64-bit address. */
  lemma HexLength(n: nat)
    requires n <= 0xFFFF_FFFF_FFFF_FFFF
    ensures 1 <= |Numeral(n, 16)| <= 16
  {
    assert Power(16, 4) == 0x1_0000;
    assert Power(16, 8) == 0x1_0000 * Power(16, 4);
    assert Power(16, 12) == 0x1_0000 * Power(16, 8);
    assert Power(16, 16) == 0x1_0000 * Power(16, 12);
    NumeralLength(n, 16, 16);
  }
}
