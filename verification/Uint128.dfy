/**
  128-bit unsigned integers made of two 64-bit words (src/safenumber/safenumber.cpp:31-285).  Words
  wrap around at 2^64, as uint64_t does.
 */
module Uint128 {
  import opened Locks
  import opened Arith

  const B64: nat := 0x1_0000_0000_0000_0000
  const B128: nat := 0x1_0000_0000_0000_0000_0000_0000_0000_0000

  type Word = n: int | 0 <= n < 0x1_0000_0000_0000_0000

  datatype U128 = U128(big: Word, low: Word)

  ghost predicate IsVal(a: U128, n: nat) {
    forall k: nat {:trigger Key(k)} :: Open(k) ==> n == a.big * 0x1_0000_0000_0000_0000 + a.low
  }

  lemma HasVal(a: U128) returns (n: nat)
    ensures n < B128 && IsVal(a, n)
  {
    n := a.big * 0x1_0000_0000_0000_0000 + a.low;
  }

  /** The number a stands for: see ValIs. */
  ghost function Val(a: U128): (n: nat)
    ensures n < B128
  {
    assert exists n: nat :: n < B128 && IsVal(a, n) by { var n := HasVal(a); }
    var n: nat :| n < B128 && IsVal(a, n);
    n
  }

  lemma ValIs(a: U128)
    ensures Val(a) == a.big * 0x1_0000_0000_0000_0000 + a.low
  {
    assert Key(0) && Open(0);
    assert IsVal(a, Val(a));
  }

  /** simple_uint128_create(n / 2^64, n % 2^64) */
  function Of(n: nat): (a: U128)
    requires n < B128
    ensures Val(a) == n
  {
    var a := U128(n / 0x1_0000_0000_0000_0000, n % 0x1_0000_0000_0000_0000);
    ValIs(a);
    a
  }

  lemma ValInj(a: U128, b: U128)
    requires Val(a) == Val(b)
    ensures a == b
  {
    ValIs(a);
    ValIs(b);
  }

  function Small(x: Word): (a: U128)
    ensures Val(a) == x
  {
    ValIs(U128(0, x));
    U128(0, x)
  }

  predicate IsZero(a: U128)
    ensures IsZero(a) <==> Val(a) == 0
  {
    ValIs(a);
    a.big == 0 && a.low == 0
  }

  predicate Gt(a: U128, b: U128)
    ensures Gt(a, b) <==> Val(a) > Val(b)
  {
    ValIs(a);
    ValIs(b);
    if a.big == b.big then a.low > b.low else a.big > b.big
  }

  predicate Lt(a: U128, b: U128)
    ensures Lt(a, b) <==> Val(a) < Val(b)
  {
    Gt(b, a)
  }

  predicate Eq(a: U128, b: U128)
    ensures Eq(a, b) <==> Val(a) == Val(b)
  {
    ValIs(a);
    ValIs(b);
    a.big == b.big && a.low == b.low
  }

  predicate Ge(a: U128, b: U128)
    ensures Ge(a, b) <==> Val(a) >= Val(b)
  {
    Gt(a, b) || Eq(a, b)
  }

  // ---------- words ----------

  function AddWord(x: Word, y: Word): (r: Word) {
    if x + y >= 0x1_0000_0000_0000_0000 then x + y - 0x1_0000_0000_0000_0000 else x + y
  }

  function SubWord(x: Word, y: Word): (r: Word) {
    if x < y then x - y + 0x1_0000_0000_0000_0000 else x - y
  }

  /** Sum, with the carry between the words, modulo 2^128. */
  function Add(a: U128, b: U128): (r: U128)
    ensures Val(r) == if Val(a) + Val(b) >= B128 then Val(a) + Val(b) - B128 else Val(a) + Val(b)
  {
    var r := U128(AddWord(AddWord(a.big, b.big), if AddWord(a.low, b.low) < a.low then 1 else 0),
      AddWord(a.low, b.low));
    ValIs(a);
    ValIs(b);
    ValIs(r);
    r
  }

  /** Difference, with the borrow between the words, modulo 2^128. */
  function Minus(a: U128, b: U128): (r: U128)
    ensures Val(r) == if Val(a) < Val(b) then Val(a) - Val(b) + B128 else Val(a) - Val(b)
  {
    var r := U128(SubWord(SubWord(a.big, b.big), if SubWord(a.low, b.low) > a.low then 1 else 0),
      SubWord(a.low, b.low));
    ValIs(a);
    ValIs(b);
    ValIs(r);
    r
  }

  // ---------- shifts and masks ----------

  /** x << s in 64 bits: the low 64 - s bits, moved up. */
  function Shl(x: Word, s: nat): (r: Word)
    requires s <= 64
  {
    ShlFits(x, s);
    Pow(2, s) * (x % Pow(2, 64 - s))
  }

  lemma ShlFits(x: Word, s: nat)
    requires s <= 64
    ensures Pow(2, 64 - s) > 0 && Pow(2, s) > 0
    ensures 0 <= Pow(2, s) * (x % Pow(2, 64 - s)) <= 0x1_0000_0000_0000_0000 - Pow(2, s)
  {
    Split64(s);
    UpperPart(x, Pow(2, s), Pow(2, 64 - s));
  }

  lemma UpperPart(x: nat, p: nat, q: nat)
    requires p > 0 && q > 0
    ensures 0 <= p * (x % q) <= p * q - p
  {
    MulMono(x % q, q - 1, p);
    MulMono(0, x % q, p);
    assert p * (q - 1) == p * q - p;
  }

  function Shr(x: Word, s: nat): (r: Word)
    ensures r <= x
  {
    PowPos(2, s);
    DivLe(x, Pow(2, s));
    x / Pow(2, s)
  }

  lemma DivLe(x: nat, m: nat)
    requires m > 0
    ensures 0 <= x / m <= x
  {
    MulMono(1, m, x);
    MulCancel(x / m, x + 1, m);
  }

  function ShiftLeft(a: U128, shift: nat): U128 {
    if shift >= 128 then U128(0, 0)
    else if shift == 64 then U128(a.low, 0)
    else if shift == 0 then a
    else if shift < 64 then U128(AddWord(Shl(a.big, shift), Shr(a.low, 64 - shift)), Shl(a.low, shift))
    else U128(Shl(a.low, shift - 64), 0)
  }

  function ShiftRight(a: U128, shift: nat): U128 {
    if shift >= 128 then U128(0, 0)
    else if shift == 64 then U128(0, a.big)
    else if shift == 0 then a
    else if shift < 64 then U128(Shr(a.big, shift), AddWord(Shl(a.big, 64 - shift), Shr(a.low, shift)))
    else U128(0, Shr(a.big, shift - 64))
  }

  function BitAnd(a: U128, b: U128): U128 {
    AndBound(a.big, b.big);
    AndBound(a.low, b.low);
    U128(And(a.big, b.big), And(a.low, b.low))
  }

  lemma Pow64()
    ensures Pow(2, 64) == 0x1_0000_0000_0000_0000 && Pow(2, 32) == 0x1_0000_0000
    ensures Pow(2, 128) == B128
  {
    assert Pow(2, 8) == 256;
    PowAdd(2, 8, 8);
    PowAdd(2, 16, 16);
    PowAdd(2, 32, 32);
    PowAdd(2, 64, 64);
  }

  lemma Split64(s: nat)
    requires s <= 64
    ensures Pow(2, s) > 0 && Pow(2, 64 - s) > 0 && Pow(2, s) * Pow(2, 64 - s) == 0x1_0000_0000_0000_0000
  {
    Pow64();
    PowAdd(2, s, 64 - s);
    PowPos(2, s);
    PowPos(2, 64 - s);
  }

  /** Nothing is lost when x << s is put beside the bits that left the word. */
  lemma ShlSplit(x: Word, s: nat)
    requires s <= 64
    ensures Pow(2, 64 - s) > 0 && Pow(2, s) > 0
    ensures x * Pow(2, s) == 0x1_0000_0000_0000_0000 * (x / Pow(2, 64 - s)) + Shl(x, s)
    ensures 0 <= x / Pow(2, 64 - s) < Pow(2, s)
    ensures Shl(x, s) <= 0x1_0000_0000_0000_0000 - Pow(2, s)
  {
    Split64(s);
    ShlFits(x, s);
    Upper(x, Pow(2, s), Pow(2, 64 - s));
    assert Pow(2, s) * (x % Pow(2, 64 - s)) == Shl(x, s);
    DivLess(x, Pow(2, 64 - s), Pow(2, s));
  }

  lemma Upper(x: nat, p: nat, q: nat)
    requires p > 0 && q > 0
    ensures x * p == (p * q) * (x / q) + p * (x % q)
  {
    assert x == (x / q) * q + x % q;
    assert x * p == ((x / q) * q) * p + (x % q) * p;
    assert ((x / q) * q) * p == (p * q) * (x / q);
  }

  /** The number, shifted, without the bits that leave at the top. */
  lemma ShiftLeftVal(a: U128, s: nat)
    ensures Val(ShiftLeft(a, s)) == (Val(a) * Pow(2, s)) % B128
  {
    if s == 0 {
      ShiftLeaves(a, s, 0);
    } else if s < 64 {
      ShiftLeftLow(a, s);
    } else if s == 64 {
      ShiftLeftWord(a);
    } else if s < 128 {
      ShiftLeftHigh(a, s);
    } else {
      ShiftLeftAll(a, s);
    }
  }

  lemma ShiftLeaves(a: U128, s: nat, over: int)
    requires Val(a) * Pow(2, s) == over * B128 + Val(ShiftLeft(a, s))
    ensures Val(ShiftLeft(a, s)) == (Val(a) * Pow(2, s)) % B128
  {
    DivModIs(Val(a) * Pow(2, s), B128, over, Val(ShiftLeft(a, s)));
  }

  lemma ShiftLeftWord(a: U128)
    ensures Val(ShiftLeft(a, 64)) == (Val(a) * Pow(2, 64)) % B128
  {
    Pow64();
    ValIs(a);
    ValIs(ShiftLeft(a, 64));
    ShiftLeaves(a, 64, a.big);
  }

  lemma ShiftLeftAll(a: U128, s: nat)
    requires 128 <= s
    ensures Val(ShiftLeft(a, s)) == (Val(a) * Pow(2, s)) % B128
  {
    Pow64();
    PowAdd(2, s - 128, 128);
    MulAssoc(Val(a), Pow(2, s - 128), Pow(2, 128));
    ValIs(ShiftLeft(a, s));
    ShiftLeaves(a, s, Val(a) * Pow(2, s - 128));
  }

  lemma ShiftLeftLow(a: U128, s: nat)
    requires 0 < s < 64
    ensures Val(ShiftLeft(a, s)) == (Val(a) * Pow(2, s)) % B128
  {
    ValIs(ShiftLeft(a, s));
    ShlSplit(a.big, s);
    ShlSplit(a.low, s);
    TimesVal(a, Pow(2, s));
    ShiftLeaves(a, s, a.big / Pow(2, 64 - s));
  }

  lemma TimesVal(a: U128, p: nat)
    ensures Val(a) * p == (a.big * p) * 0x1_0000_0000_0000_0000 + a.low * p
  {
    ValIs(a);
  }

  lemma ShiftLeftHigh(a: U128, s: nat)
    requires 64 < s < 128
    ensures Val(ShiftLeft(a, s)) == (Val(a) * Pow(2, s)) % B128
  {
    Pow64();
    ValIs(ShiftLeft(a, s));
    PowAdd(2, s - 64, 64);
    ShlSplit(a.low, s - 64);
    MulAssoc(Val(a), Pow(2, s - 64), Pow(2, 64));
    TimesVal(a, Pow(2, s - 64));
    ShiftLeaves(a, s, a.big * Pow(2, s - 64) + a.low / Pow(2, 128 - s));
  }

  lemma ShiftRightVal(a: U128, s: nat)
    ensures Pow(2, s) > 0 && Val(ShiftRight(a, s)) == Val(a) / Pow(2, s)
  {
    PowPos(2, s);
    ValIs(a);
    ValIs(ShiftRight(a, s));
    if s == 0 {
    } else if s < 64 {
      ShiftRightLow(a, s);
    } else if s == 64 {
      Pow64();
      DivModIs(Val(a), Pow(2, 64), a.big, a.low);
    } else if s < 128 {
      ShiftRightHigh(a, s);
    } else {
      Pow64();
      PowMono(2, 128, s);
      DivModIs(Val(a), Pow(2, s), 0, Val(a));
    }
  }

  lemma ShiftRightHigh(a: U128, s: nat)
    requires 64 < s < 128
    ensures Pow(2, s) > 0 && Val(ShiftRight(a, s)) == Val(a) / Pow(2, s)
  {
    Pow64();
    ValIs(a);
    ValIs(ShiftRight(a, s));
    PowAdd(2, 64, s - 64);
    PowPos(2, s - 64);
    PowPos(2, 64);
    DivDiv(Val(a), Pow(2, 64), Pow(2, s - 64));
    DivModIs(Val(a), Pow(2, 64), a.big, a.low);
  }

  lemma ShiftRightLow(a: U128, s: nat)
    requires 0 < s < 64
    ensures Pow(2, s) > 0 && Val(ShiftRight(a, s)) == Val(a) / Pow(2, s)
  {
    Split64(s);
    ValIs(a);
    ValIs(ShiftRight(a, s));
    var p := Pow(2, s);
    ShlSplit(a.big, 64 - s);
    DivLess(a.low, p, Pow(2, 64 - s));
    ShiftRightSum(a.big, a.low, p, Pow(2, 64 - s), Shl(a.big, 64 - s), 0x1_0000_0000_0000_0000);
    DivModIs(Val(a), p, Val(ShiftRight(a, s)), a.low % p);
  }

  lemma ShiftRightSum(big: nat, low: nat, p: nat, q: nat, top: nat, b: nat)
    requires p > 0 && p * q == b && big * q == b * (big / p) + top
    ensures big * b + low == ((big / p) * b + (top + low / p)) * p + low % p
  {
    assert low == (low / p) * p + low % p;
    assert big * b == (big * q) * p;
    assert ((big / p) * b + (top + low / p)) * p == (b * (big / p) + top) * p + (low / p) * p;
  }

  /** The lowest bit. */
  lemma AndOne(a: U128)
    ensures Val(BitAnd(a, U128(0, 1))) == Val(a) % 2
  {
    AndBit(a.low);
    assert And(a.big, 0) == 0;
    ValIs(a);
    ValIs(BitAnd(a, U128(0, 1)));
    DivModIs(Val(a), 2, a.big * 0x8000_0000_0000_0000 + a.low / 2, a.low % 2);
  }

  lemma AndBit(x: nat)
    ensures And(x, 1) == x % 2
  {
    AndMask(x, 1);
    assert Pow(2, 1) == 2;
  }
}
