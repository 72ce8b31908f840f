/**
  Bit length, bit-serial division and printing of 128-bit integers
  (src/safenumber/safenumber.cpp:205-285).
 */
module Div128 {
  import opened Options
  import opened Arith
  import opened Uint128

  datatype DivResult = DivResult(quotient: U128, remainder: U128)

  /** n has exactly k binary digits. */
  ghost predicate IsBitLength(n: nat, k: nat) {
    n < Pow(2, k) && (k > 0 ==> Pow(2, k - 1) <= n)
  }

  /** The loops of simple_uint128_bits: how often a word can be halved. */
  method Halvings(x: Word) returns (k: nat)
    ensures IsBitLength(x, k) && k <= 64
  {
    var up := x;
    k := 0;
    while up != 0
      invariant up == Prefix(x, k)
      invariant k > 0 ==> Prefix(x, k - 1) > 0
      decreases up
    {
      assert Pow(2, 1) == 2;
      up := Shr(up, 1);
      k := k + 1;
    }
    LengthIs(x, k);
    Pow64();
    BoundedLength(x, k, 64);
  }

  lemma LengthIs(x: nat, k: nat)
    requires Prefix(x, k) == 0 && (k > 0 ==> Prefix(x, k - 1) > 0)
    ensures IsBitLength(x, k)
  {
    PrefixIs(x, k);
    ZeroQuotient(x, Pow(2, k));
    if k > 0 {
      PrefixIs(x, k - 1);
      PositiveQuotient(x, Pow(2, k - 1));
    }
  }

  lemma PositiveQuotient(x: nat, m: nat)
    requires m > 0 && x / m > 0
    ensures m <= x
  {
    MulMono(1, x / m, m);
  }

  lemma ZeroQuotient(x: nat, m: nat)
    requires m > 0 && x / m == 0
    ensures x < m
  {
  }

  lemma BoundedLength(x: nat, k: nat, w: nat)
    requires IsBitLength(x, k) && x < Pow(2, w)
    ensures k <= w
  {
    if k > w {
      PowMono(2, w, k - 1);
    }
  }

  method Bits(a: U128) returns (out: nat)
    ensures IsBitLength(Val(a), out) && out <= 128
  {
    if a.big != 0 {
      out := Halvings(a.big);
      ValIs(a);
      HighBits(a, out);
      out := 64 + out;
    } else {
      ValIs(a);
      out := Halvings(a.low);
    }
  }

  lemma HighBits(a: U128, k: nat)
    requires IsBitLength(a.big, k) && a.big > 0
    ensures IsBitLength(Val(a), 64 + k)
  {
    Pow64();
    ValIs(a);
    assert k > 0;
    PowAdd(2, 64, k);
    PowAdd(2, 64, k - 1);
    MulMono(a.big, Pow(2, k) - 1, Pow(2, 64));
    MulMono(Pow(2, k - 1), a.big, Pow(2, 64));
    assert (Pow(2, k) - 1) * Pow(2, 64) == Pow(2, k) * Pow(2, 64) - Pow(2, 64);
  }

  // ---------- division ----------

  lemma ShiftLeftOne(a: U128)
    requires 2 * Val(a) < B128
    ensures Val(ShiftLeft(a, 1)) == 2 * Val(a)
  {
    ShiftLeftVal(a, 1);
    assert Pow(2, 1) == 2;
    DivModIs(Val(a) * 2, B128, 0, Val(a) * 2);
  }

  // the shifts of the division, without their bodies

  method Doubled(a: U128) returns (r: U128)
    requires 2 * Val(a) < B128
    ensures Val(r) == 2 * Val(a)
  {
    ShiftLeftOne(a);
    r := ShiftLeft(a, 1);
  }

  lemma ShiftIsPrefix(a: U128, s: nat)
    ensures Val(ShiftRight(a, s)) == Prefix(Val(a), s)
  {
    ShiftRightVal(a, s);
    PrefixIs(Val(a), s);
  }

  method ShiftedRight(a: U128, s: nat) returns (r: U128)
    ensures Val(r) == Prefix(Val(a), s)
  {
    ShiftIsPrefix(a, s);
    r := ShiftRight(a, s);
  }

  /** Is bit x - 1 of a set? */
  method ReadsOne(a: U128, x: nat) returns (one: bool)
    requires x > 0
    ensures one <==> Prefix(Val(a), x - 1) % 2 == 1
  {
    var tmp1 := ShiftedRight(a, x - 1);
    AndOne(tmp1);
    var tmp2 := BitAnd(tmp1, Small(1));
    one := !IsZero(tmp2);
  }

  lemma {:induction false} PrefixBound(n: nat, x: nat)
    ensures Prefix(n, x) <= n
  {
    if x > 0 {
      PrefixBound(n, x - 1);
    }
  }

  /** Reading one more bit: the partial remainder never exceeds the part of the dividend read so far. */
  lemma ReadBit(p: nat, q: nat, b: nat, m: nat, bit: nat)
    requires IsQuotient(p, b, q, m) && b >= 2 && bit <= 1
    ensures m < b && 2 * m + bit <= 2 * p + bit && 2 * q <= p
    ensures 2 * m + bit < b ==> IsQuotient(2 * p + bit, b, 2 * q, 2 * m + bit)
    ensures 2 * m + bit >= b ==> IsQuotient(2 * p + bit, b, 2 * q + 1, 2 * m + bit - b) && 2 * q + 1 <= 2 * p + bit
  {
    TimesIs(q, b);
    TimesIs(2 * q, b);
    TimesIs(2 * q + 1, b);
    assert (2 * q) * b == 2 * (q * b);
    assert (2 * q + 1) * b == 2 * (q * b) + b;
    MulMono(2, b, q);
    MulMono(0, q, b);
  }

  /** Dividing by 1, by itself, or by something larger. */
  lemma EasyQuotients(a: nat, b: nat)
    ensures b > 0 && a < b ==> IsQuotient(a, b, 0, a)
    ensures b > 0 && a == b ==> IsQuotient(a, b, 1, 0)
    ensures b == 1 ==> IsQuotient(a, b, a, 0)
  {
    TimesIs(a, 1);
  }

  /** Nothing read yet. */
  lemma NothingRead(n: nat, k: nat, b: nat)
    requires IsBitLength(n, k) && b > 0
    ensures Prefix(n, k) == 0 && IsQuotient(0, b, 0, 0)
  {
    PrefixIs(n, k);
    DivModIs(n, Pow(2, k), 0, n);
  }

  /** Euclidean division, for every divisor but zero. */
  method DivMod(a: U128, b: U128) returns (r: Option<DivResult>)
    ensures r.None? <==> Val(b) == 0
    ensures r.Some? ==> IsQuotient(Val(a), Val(b), Val(r.value.quotient), Val(r.value.remainder))
  {
    EasyQuotients(Val(a), Val(b));
    if IsZero(b) {
      return None;
    } else if Eq(b, Small(1)) {
      return Some(DivResult(a, Small(0)));
    } else if Eq(a, b) {
      return Some(DivResult(Small(1), Small(0)));
    } else if IsZero(a) || Lt(a, b) {
      return Some(DivResult(Small(0), a));
    }
    var d, m := LongDivision(a, b);
    return Some(DivResult(d, m));
  }

  method LongDivision(a: U128, b: U128) returns (d: U128, m: U128)
    requires Val(b) >= 2
    ensures IsQuotient(Val(a), Val(b), Val(d), Val(m))
  {
    d, m := Small(0), Small(0);
    var x := Bits(a);
    NothingRead(Val(a), x, Val(b));
    while x > 0
      invariant IsQuotient(Prefix(Val(a), x), Val(b), Val(d), Val(m))
    {
      d, m := DivStep(a, b, d, m, x);
      x := x - 1;
    }
  }

  method DivStep(a: U128, b: U128, d: U128, m: U128, x: nat) returns (d': U128, m': U128)
    requires x > 0 && Val(b) >= 2 && IsQuotient(Prefix(Val(a), x), Val(b), Val(d), Val(m))
    ensures IsQuotient(Prefix(Val(a), x - 1), Val(b), Val(d'), Val(m'))
  {
    var one := ReadsOne(a, x);
    ghost var bit := Prefix(Val(a), x - 1) % 2;
    ReadBit(Prefix(Val(a), x), Val(d), Val(b), Val(m), bit);
    PrefixBound(Val(a), x - 1);
    d' := Doubled(d);
    m' := Doubled(m);
    if one {
      m' := Add(m', Small(1));
    }
    if Ge(m', b) {
      m' := Minus(m', b);
      d' := Add(d', Small(1));
    }
  }
}
