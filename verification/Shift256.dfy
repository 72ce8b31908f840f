/**
  What the 256-bit shifts and the low bit mean (src/safenumber/safenumber.cpp:386-430).
 */
module Shift256 {
  import opened Arith
  import opened Uint128
  import opened Uint256

  lemma Split128(s: nat)
    requires s <= 128
    ensures Pow(2, s) > 0 && Pow(2, 128 - s) > 0 && Pow(2, s) * Pow(2, 128 - s) == B128
  {
    Pow64();
    PowAdd(2, s, 128 - s);
    PowPos(2, s);
    PowPos(2, 128 - s);
  }

  /** x << s in 128 bits, beside the bits that left. */
  lemma LeftSplit(x: U128, s: nat)
    requires s <= 128
    ensures Pow(2, 128 - s) > 0 && Pow(2, s) > 0
    ensures Val(x) * Pow(2, s) == B128 * (Val(x) / Pow(2, 128 - s)) + Val(ShiftLeft(x, s))
    ensures Val(x) / Pow(2, 128 - s) < Pow(2, s) && Val(ShiftLeft(x, s)) <= B128 - Pow(2, s)
  {
    Split128(s);
    ShiftLeftVal(x, s);
    LeftSplitNat(Val(x), Pow(2, s), Pow(2, 128 - s), B128, Val(ShiftLeft(x, s)));
  }

  lemma LeftSplitNat(x: nat, p: nat, q: nat, b: nat, y: nat)
    requires p > 0 && q > 0 && p * q == b && b > 0 && x < b && y == (x * p) % b
    ensures x * p == b * (x / q) + y && x / q < p && y <= b - p
  {
    ScaledMod(x, p, q);
    Upper(x, p, q);
    UpperPart(x, p, q);
    DivLess(x, q, p);
  }

  lemma RightIs(x: U128, s: nat)
    ensures Pow(2, s) > 0 && Val(ShiftRight(x, s)) == Val(x) / Pow(2, s)
  {
    ShiftRightVal(x, s);
  }

  /** The number without its s lowest bits. */
  lemma ShiftRightWideVal(a: U256, s: nat)
    ensures Wide(ShiftRightWide(a, s)) == Prefix(Wide(a), s)
  {
    PrefixIs(Wide(a), s);
    WideIs(a);
    WideIs(ShiftRightWide(a, s));
    if s == 0 {
    } else if s < 128 {
      RightLow(a, s);
    } else if s == 128 {
      Pow64();
      DivModIs(Wide(a), Pow(2, 128), Val(a.big), Val(a.low));
    } else if s < 256 {
      RightHigh(a, s);
    } else {
      Pow256();
      PowMono(2, 256, s);
      DivModIs(Wide(a), Pow(2, s), 0, Wide(a));
    }
  }

  lemma Pow256()
    ensures Pow(2, 256) == B256
  {
    Pow64();
    PowAdd(2, 128, 128);
  }

  lemma RightLow(a: U256, s: nat)
    requires 0 < s < 128
    ensures Pow(2, s) > 0 && Wide(ShiftRightWide(a, s)) == Wide(a) / Pow(2, s)
  {
    Split128(s);
    var p, q := Pow(2, s), Pow(2, 128 - s);
    var top := ShiftLeft(a.big, 128 - s);
    LeftSplit(a.big, 128 - s);
    RightIs(a.low, s);
    RightIs(a.big, s);
    DivLess(Val(a.low), p, q);
    WideIs(a);
    WideIs(ShiftRightWide(a, s));
    RightLowNat(Val(a.big), Val(a.low), p, q, Val(top), B128, Wide(a));
  }

  lemma RightLowNat(big: nat, low: nat, p: nat, q: nat, top: nat, b: nat, n: nat)
    requires p > 0 && p * q == b && big * q == b * (big / p) + top && n == big * b + low
    ensures n / p == (big / p) * b + (top + low / p)
  {
    ShiftRightSum(big, low, p, q, top, b);
    DivModIs(n, p, (big / p) * b + (top + low / p), low % p);
  }

  lemma RightHigh(a: U256, s: nat)
    requires 128 < s < 256
    ensures Pow(2, s) > 0 && Wide(ShiftRightWide(a, s)) == Wide(a) / Pow(2, s)
  {
    Pow64();
    PowAdd(2, 128, s - 128);
    PowPos(2, s - 128);
    PowPos(2, s);
    WideIs(a);
    WideIs(ShiftRightWide(a, s));
    RightIs(a.big, s - 128);
    DivModIs(Wide(a), Pow(2, 128), Val(a.big), Val(a.low));
    DivDiv(Wide(a), Pow(2, 128), Pow(2, s - 128));
  }

  /** The number times 2^s, without the bits that leave at the top. */
  lemma ShiftLeftWideVal(a: U256, s: nat) returns (over: nat)
    ensures Wide(a) * Pow(2, s) == over * B256 + Wide(ShiftLeftWide(a, s))
  {
    Pow64();
    WideIs(a);
    WideIs(ShiftLeftWide(a, s));
    if s == 0 {
      over := 0;
    } else if s < 128 {
      over := LeftLow(a, s);
    } else if s == 128 {
      over := Val(a.big);
    } else if s < 256 {
      over := LeftHigh(a, s);
    } else {
      over := Wide(a) * Pow(2, s - 256);
      LeftAll(Wide(a), s);
    }
  }

  lemma LeftLow(a: U256, s: nat) returns (over: nat)
    requires 0 < s < 128
    ensures Wide(a) * Pow(2, s) == over * B256 + Wide(ShiftLeftWide(a, s))
  {
    var high := LeftCarry(a.big, s);
    var low := LeftCarry(a.low, s);
    LeftParts(a, s);
    WideIs(a);
    WideIs(ShiftLeftWide(a, s));
    LeftSum(Val(a.big), Val(a.low), Wide(a), Pow(2, s), B128, B256, high, low, Val(ShiftLeft(a.big, s)),
      Val(ShiftLeft(a.low, s)));
    over := high;
  }

  /** What leaves a half at the top. */
  lemma LeftCarry(x: U128, s: nat) returns (carry: nat)
    requires s <= 128
    ensures Val(x) * Pow(2, s) == B128 * carry + Val(ShiftLeft(x, s))
    ensures Pow(2, 128 - s) > 0 && carry == Val(x) / Pow(2, 128 - s)
  {
    LeftSplit(x, s);
    carry := Val(x) / Pow(2, 128 - s);
  }

  /** The high half takes over what leaves the low half. */
  lemma LeftParts(a: U256, s: nat)
    requires 0 < s < 128
    ensures Pow(2, 128 - s) > 0
    ensures Val(ShiftLeftWide(a, s).big) == Val(ShiftLeft(a.big, s)) + Val(a.low) / Pow(2, 128 - s)
    ensures Val(ShiftLeftWide(a, s).low) == Val(ShiftLeft(a.low, s))
  {
    LeftSplit(a.big, s);
    LeftSplit(a.low, s);
    RightIs(a.low, 128 - s);
  }

  lemma Distribute(x: nat, y: nat, p: nat, b: nat)
    ensures (x * b + y) * p == (x * p) * b + y * p
  {
  }

  lemma LeftSum(x: nat, y: nat, n: nat, p: nat, b: nat, m: nat, cx: nat, cy: nat, x': nat, y': nat)
    requires n == x * b + y && m == b * b && x * p == b * cx + x' && y * p == b * cy + y'
    ensures n * p == cx * m + ((x' + cy) * b + y')
  {
    Distribute(x, y, p, b);
    assert (b * cx + x') * b == cx * (b * b) + x' * b;
  }

  lemma LeftHigh(a: U256, s: nat) returns (over: nat)
    requires 128 < s < 256
    ensures Wide(a) * Pow(2, s) == over * B256 + Wide(ShiftLeftWide(a, s))
  {
    PowPast(s);
    var carry := LeftCarry(a.low, s - 128);
    LeftHighIs(a, s);
    WideIs(a);
    over := Val(a.big) * Pow(2, s - 128) + carry;
    LeftHighNat(Val(a.big), Val(a.low), Wide(a), Pow(2, s - 128), carry, Val(ShiftLeft(a.low, s - 128)), B128, B256,
      Pow(2, s));
  }

  lemma PowPast(s: nat)
    requires s >= 128
    ensures Pow(2, s) == Pow(2, s - 128) * B128 && B128 * B128 == B256
  {
    Pow64();
    PowAdd(2, s - 128, 128);
  }

  lemma LeftHighIs(a: U256, s: nat)
    requires 128 < s < 256
    ensures Wide(ShiftLeftWide(a, s)) == Val(ShiftLeft(a.low, s - 128)) * B128
  {
    WideIs(ShiftLeftWide(a, s));
  }

  lemma LeftHighNat(big: nat, low: nat, n: nat, p: nat, carry: nat, rest: nat, b: nat, m: nat, ps: nat)
    requires n == big * b + low && low * p == b * carry + rest && m == b * b && ps == p * b
    ensures n * ps == (big * p + carry) * m + rest * b
  {
    Distribute(big, low, p, b);
    assert n * (p * b) == (n * p) * b;
    assert n * p == (big * p + carry) * b + rest;
    assert ((big * p + carry) * b + rest) * b == (big * p + carry) * (b * b) + rest * b;
  }

  lemma LeftAll(n: nat, s: nat)
    requires s >= 256
    ensures n * Pow(2, s) == (n * Pow(2, s - 256)) * B256
  {
    Pow256();
    PowAdd(2, s - 256, 256);
    MulAssoc(n, Pow(2, s - 256), B256);
  }

  lemma DoubleWide(a: U256)
    requires 2 * Wide(a) < B256
    ensures Wide(ShiftLeftWide(a, 1)) == 2 * Wide(a)
  {
    var over := ShiftLeftWideVal(a, 1);
    assert Pow(2, 1) == 2;
    OnlyRest(Wide(a) * 2, over, B256, Wide(ShiftLeftWide(a, 1)));
  }

  lemma OnlyRest(x: nat, k: nat, b: nat, r: nat)
    requires x == k * b + r && x < b
    ensures r == x
  {
    MulCancel(k, 1, b);
  }

  /** The lowest bit. */
  lemma AndOneWide(a: U256)
    ensures Wide(BitAndWide(a, U256(Small(0), Small(1)))) == Wide(a) % 2
  {
    var r := BitAndWide(a, U256(Small(0), Small(1)));
    AndOne(a.low);
    AndZero(a.big);
    WideIs(a);
    WideIs(r);
    DivModIs(Wide(a), 2, Val(a.big) * 0x8000_0000_0000_0000_0000_0000_0000_0000 + Val(a.low) / 2, Val(a.low) % 2);
  }

  lemma AndZero(a: U128)
    ensures Val(BitAnd(a, U128(0, 0))) == 0
  {
    assert And(a.big, 0) == 0 && And(a.low, 0) == 0;
    ValIs(BitAnd(a, U128(0, 0)));
  }
}
