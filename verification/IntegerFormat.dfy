/** `convert` and `convertHex` of base/LogStream.cpp: digits are written backwards, then reversed in place. */
module IntegerFormat {
  import opened Numerals
  import opened Sequences

  /** Indexed from its middle, so that negative remainders find their digit too. */
  const SIGNED_DIGITS: string := "9876543210123456789"
  const ZERO: nat := 9
  const HEX_DIGITS: string := "0123456789ABCDEF"

  /** Division and remainder by ten that round towards zero, as in the original. */
  function TruncDiv10(a: int): int {
    if a >= 0 then a / 10 else -(-a / 10)
  }

  function TruncMod10(a: int): int {
    if a >= 0 then a % 10 else -(-a % 10)
  }

  function Abs(a: int): nat {
    if a < 0 then -a else a
  }

  lemma TruncatedDigit(a: int)
    ensures a == 10 * TruncDiv10(a) + TruncMod10(a)
    ensures -9 <= TruncMod10(a) <= 9
    ensures SIGNED_DIGITS[ZERO + TruncMod10(a)] == DigitChar(Last(Abs(a), 10))
    ensures Abs(TruncDiv10(a)) == Front(Abs(a), 10)
  {
  }

  lemma HexDigit(d: nat)
    requires d < 16
    ensures HEX_DIGITS[d] == DigitChar(d)
  {
  }

  /** The digits of `n` from the last to the first. */
  function Backwards(n: nat, b: nat): string
    requires IsBase(b)
  {
    [DigitChar(Last(n, b))] + if n < b then "" else Backwards(Front(n, b), b)
  }

  lemma {:induction false} BackwardsReversed(n: nat, b: nat)
    requires IsBase(b)
    ensures Reversed(Backwards(n, b)) == Numeral(n, b)
  {
    if n >= b {
      BackwardsReversed(Front(n, b), b);
      ReversedCons(DigitChar(Last(n, b)), Backwards(Front(n, b), b));
    }
  }

  /** `std::reverse`. */
  method ReverseRange(buf: array<char>, lo: nat, hi: nat)
    requires lo <= hi <= buf.Length
    modifies buf
    ensures buf[lo..hi] == Reversed(old(buf[lo..hi]))
    ensures forall k :: 0 <= k < lo || hi <= k < buf.Length ==> buf[k] == old(buf[k])
  {
    ghost var s := buf[lo..hi];
    ghost var r := Reversed(s);
    var i, j := lo, hi;
    while i + 1 < j
      invariant lo <= i && j <= hi && i - lo == hi - j && i <= j + 1
      invariant forall k :: 0 <= k < lo || hi <= k < buf.Length ==> buf[k] == old(buf[k])
      invariant forall k :: i <= k < j ==> buf[k] == s[k - lo]
      invariant forall k :: lo <= k < i || j <= k < hi ==> buf[k] == r[k - lo]
    {
      buf[i], buf[j - 1] := buf[j - 1], buf[i];
      i, j := i + 1, j - 1;
    }
    assert forall k :: lo <= k < hi ==> buf[k] == r[k - lo];
    assert buf[lo..hi] == r;
  }

  /** `done` is what is already written of the numeral of `value`, and the digits of `n` are still to come. */
  ghost predicate Underway(value: nat, done: string, n: nat, b: nat)
    requires IsBase(b)
  {
    Backwards(value, b) == done + Backwards(n, b)
  }

  lemma WriteOne(value: nat, done: string, n: nat, b: nat)
    requires IsBase(b) && Underway(value, done, n, b)
    ensures |done| < |Backwards(value, b)|
    ensures var done' := done + [DigitChar(Last(n, b))];
      if Front(n, b) == 0 then done' == Backwards(value, b) else Underway(value, done', Front(n, b), b)
  {
    if n >= b {
      Regroup(done, [DigitChar(Last(n, b))], Backwards(Front(n, b), b));
    }
  }

  /** The loop of `convert`: the digits of `value` from the last to the first, up to `p`. */
  method WriteDigits(buf: array<char>, at: nat, value: int) returns (p: nat)
    requires at + |Backwards(Abs(value), 10)| <= buf.Length
    modifies buf
    ensures p == at + |Backwards(Abs(value), 10)|
    ensures forall k :: at <= k < p ==> buf[k] == Backwards(Abs(value), 10)[k - at]
    ensures forall k :: 0 <= k < at || p <= k < buf.Length ==> buf[k] == old(buf[k])
  {
    var i := value;
    p := at;
    ghost var done := "";
    while true
      invariant p == at + |done| && Underway(Abs(value), done, Abs(i), 10)
      invariant forall k :: at <= k < p ==> buf[k] == done[k - at]
      invariant forall k :: 0 <= k < at || p <= k < buf.Length ==> buf[k] == old(buf[k])
      decreases Abs(i)
    {
      TruncatedDigit(i);
      WriteOne(Abs(value), done, Abs(i), 10);
      done := done + [DigitChar(Last(Abs(i), 10))];
      var lsd := TruncMod10(i);
      i := TruncDiv10(i);
      buf[p] := SIGNED_DIGITS[ZERO + lsd];
      p := p + 1;
      if i == 0 {
        break;
      }
    }
  }

  /** Terminates what has been written and turns it round. */
  method Finish(buf: array<char>, at: nat, p: nat, ghost written: string)
    requires p == at + |written| && p < buf.Length
    requires forall k :: at <= k < p ==> buf[k] == written[k - at]
    modifies buf
    ensures buf[at..p] == Reversed(written) && buf[p] == '\0'
    ensures forall k :: 0 <= k < at || p < k < buf.Length ==> buf[k] == old(buf[k])
  {
    buf[p] := '\0';
    assert buf[at..p] == written;
    ReverseRange(buf, at, p);
  }

  function SignedBackwards(v: int): string {
    Backwards(Abs(v), 10) + if v < 0 then "-" else ""
  }

  lemma SignedBackwardsReversed(v: int)
    ensures Reversed(SignedBackwards(v)) == Decimal(v)
  {
    BackwardsReversed(Abs(v), 10);
    if v < 0 {
      ReversedSnoc(Backwards(Abs(v), 10), '-');
    } else {
      assert SignedBackwards(v) == Backwards(Abs(v), 10);
    }
  }

  method WriteSigned(buf: array<char>, at: nat, value: int) returns (p: nat)
    requires at + |SignedBackwards(value)| <= buf.Length
    modifies buf
    ensures p == at + |SignedBackwards(value)|
    ensures forall k :: at <= k < p ==> buf[k] == SignedBackwards(value)[k - at]
    ensures forall k :: 0 <= k < at || p <= k < buf.Length ==> buf[k] == old(buf[k])
  {
    p := WriteDigits(buf, at, value);
    if value < 0 {
      buf[p] := '-';
      p := p + 1;
    }
  }

  /** Writes the decimal notation of `value` and a terminator at `at`, and nothing else. */
  method Convert(buf: array<char>, at: nat, value: int) returns (len: nat)
    requires at + |Decimal(value)| < buf.Length
    modifies buf
    ensures len == |Decimal(value)| && buf[at..at + len] == Decimal(value)
    ensures buf[at + len] == '\0'
    ensures forall k :: 0 <= k < at || at + len < k < buf.Length ==> buf[k] == old(buf[k])
  {
    SignedBackwardsReversed(value);
    var p := WriteSigned(buf, at, value);
    Finish(buf, at, p, SignedBackwards(value));
    len := p - at;
  }

  method WriteHexDigits(buf: array<char>, at: nat, value: nat) returns (p: nat)
    requires at + |Backwards(value, 16)| <= buf.Length
    modifies buf
    ensures p == at + |Backwards(value, 16)|
    ensures forall k :: at <= k < p ==> buf[k] == Backwards(value, 16)[k - at]
    ensures forall k :: 0 <= k < at || p <= k < buf.Length ==> buf[k] == old(buf[k])
  {
    var i := value;
    p := at;
    ghost var done := "";
    while true
      invariant p == at + |done| && Underway(value, done, i, 16)
      invariant forall k :: at <= k < p ==> buf[k] == done[k - at]
      invariant forall k :: 0 <= k < at || p <= k < buf.Length ==> buf[k] == old(buf[k])
      decreases i
    {
      WriteOne(value, done, i, 16);
      done := done + [DigitChar(Last(i, 16))];
      var lsd := i % 16;
      i := i / 16;
      HexDigit(lsd);
      buf[p] := HEX_DIGITS[lsd];
      p := p + 1;
      if i == 0 {
        break;
      }
    }
  }

  /** The same for an address in hexadecimal. */
  method ConvertHex(buf: array<char>, at: nat, value: nat) returns (len: nat)
    requires at + |Numeral(value, 16)| < buf.Length
    modifies buf
    ensures len == |Numeral(value, 16)| && buf[at..at + len] == Numeral(value, 16)
    ensures buf[at + len] == '\0'
    ensures forall k :: 0 <= k < at || at + len < k < buf.Length ==> buf[k] == old(buf[k])
  {
    BackwardsReversed(value, 16);
    var p := WriteHexDigits(buf, at, value);
    Finish(buf, at, p, Backwards(value, 16));
    len := p - at;
  }
}
