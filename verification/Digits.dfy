/**
  Digit strings, and printing a 128-bit integer in a base from 2 to 16
  (src/safenumber/safenumber.cpp:265-285).
 */
module Digits {
  import opened Options
  import opened Arith
  import opened Uint128
  import opened Div128

  const HEX: string := "0123456789abcdef"

  /** The digits of n, none for zero. */
  function DigitsOf(n: nat, base: nat): (s: string)
    requires 2 <= base <= 16
    decreases n
  {
    if n == 0 then "" else
      Smaller(n, base);
      DigitsOf(n / base, base) + [HEX[n % base]]
  }

  lemma Smaller(n: nat, base: nat)
    requires 2 <= base && n > 0
    ensures 0 <= n / base < n && 0 <= n % base < base
  {
    MulMono(2, base, n / base);
    DivLe(n, base);
    assert n == (n / base) * base + n % base;
  }

  /** The printed form: at least one digit, with zeros in front up to the given length. */
  function Printed(n: nat, base: nat, len: nat): string
    requires 2 <= base <= 16
  {
    Padded(if n == 0 then "0" else DigitsOf(n, base), len)
  }

  function Padded(s: string, len: nat): string {
    if |s| < len then seq(len - |s|, _ => '0') + s else s
  }

  function DigitValue(c: char): int {
    if c <= '9' then c as int - '0' as int else c as int - 'a' as int + 10
  }

  /** The number a digit string denotes. */
  function NumberOf(s: string, base: nat): int {
    if s == "" then 0 else NumberOf(s[..|s| - 1], base) * base + DigitValue(s[|s| - 1])
  }

  /** Every digit of n is read back. */
  lemma {:induction false} NumberOfDigits(n: nat, base: nat)
    requires 2 <= base <= 16
    ensures NumberOf(DigitsOf(n, base), base) == n
    decreases n
  {
    if n > 0 {
      Smaller(n, base);
      NumberOfDigits(n / base, base);
      LastDigit(n, base, DigitsOf(n / base, base), DigitsOf(n, base));
    }
  }

  lemma LastDigit(n: nat, base: nat, s: string, t: string)
    requires 2 <= base <= 16 && NumberOf(s, base) == n / base && n % base < 16 && t == s + [HEX[n % base]]
    ensures NumberOf(t, base) == n
  {
    HexDigit(n % base);
    assert t[..|t| - 1] == s && n == (n / base) * base + n % base;
  }

  lemma HexDigit(d: nat)
    requires d < 16
    ensures DigitValue(HEX[d]) == d && (d < 10 ==> '0' <= HEX[d] <= '9' && HEX[d] as int == '0' as int + d)
  {
  }

  lemma HexLetter(d: nat)
    requires 10 <= d < 16
    ensures 'a' <= HEX[d] <= 'f' && HEX[d] as int == 'a' as int + d - 10
  {
  }

  /** Zeros in front change nothing. */
  lemma {:induction false} NumberOfPadded(k: nat, s: string, base: nat)
    ensures NumberOf(seq(k, _ => '0') + s, base) == NumberOf(s, base)
    decreases k + |s|
  {
    var z := seq(k, _ => '0');
    if s == "" {
      assert z + s == z;
      if k > 0 {
        assert z[..k - 1] == seq(k - 1, _ => '0') == seq(k - 1, _ => '0') + "";
        NumberOfPadded(k - 1, "", base);
      }
    } else {
      assert (z + s)[..|z + s| - 1] == z + s[..|s| - 1];
      NumberOfPadded(k, s[..|s| - 1], base);
    }
  }

  /** Fewer than k digits are needed for less than base^k. */
  lemma {:induction false} DigitsLength(n: nat, base: nat, k: nat)
    requires 2 <= base <= 16
    ensures |DigitsOf(n, base)| <= k <==> n < Pow(base, k)
    decreases k
  {
    PowPos(base, k);
    if n == 0 {
    } else if k == 0 {
    } else {
      Smaller(n, base);
      DigitsLength(n / base, base, k - 1);
      QuotientBelow(n, base, Pow(base, k - 1));
    }
  }

  lemma QuotientBelow(n: nat, b: nat, p: nat)
    requires b > 0
    ensures n / b < p <==> n < b * p
  {
    if n / b < p {
      MulMono(n / b + 1, p, b);
      assert (n / b + 1) * b == (n / b) * b + b;
    } else {
      MulMono(p, n / b, b);
    }
  }

  /** Base ten digits are the characters 0 to 9. */
  lemma {:induction false} DecimalDigits(n: nat)
    ensures forall i :: 0 <= i < |DigitsOf(n, 10)| ==> '0' <= DigitsOf(n, 10)[i] <= '9'
    decreases n
  {
    if n > 0 {
      DecimalDigits(n / 10);
      HexDigit(n % 10);
    }
  }

  /** simple_uint128_to_string: a base out of range throws. */
  method ToString(a: U128, base: Word, len: nat) returns (s: Option<string>)
    ensures s.None? <==> base < 2 || base > 16
    ensures s.Some? ==> s.value == Printed(Val(a), base, len)
  {
    if base < 2 || base > 16 {
      return None;
    }
    var out := "";
    if IsZero(a) {
      out := "0";
    } else {
      out := Digitize(a, base);
    }
    if |out| < len {
      out := seq(len - |out|, _ => '0') + out;
    }
    return Some(out);
  }

  /** One turn of the division: the remainder is the digit before those already there. */
  method NextDigit(q: U128, base: Word, out: string) returns (q': U128, out': string)
    requires 2 <= base <= 16 && Val(q) > 0
    ensures Val(q') < Val(q) && DigitsOf(Val(q'), base) + out' == DigitsOf(Val(q), base) + out
  {
    Smaller(Val(q), base);
    var qr := DivMod(q, Small(base));
    QuotientMeans(Val(q), base, Val(qr.value.quotient), Val(qr.value.remainder));
    ValIs(qr.value.remainder);
    q', out' := qr.value.quotient, [HEX[qr.value.remainder.low]] + out;
  }

  method Digitize(a: U128, base: Word) returns (out: string)
    requires 2 <= base <= 16 && Val(a) > 0
    ensures out == DigitsOf(Val(a), base)
  {
    out := "";
    var q := a;
    while !IsZero(q)
      invariant DigitsOf(Val(a), base) == DigitsOf(Val(q), base) + out
      decreases Val(q)
    {
      q, out := NextDigit(q, base, out);
    }
  }
}
