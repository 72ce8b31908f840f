/**
  Bit length and bit-serial division of 256-bit integers (src/safenumber/safenumber.cpp:448-498): where
  they are right, and where the 8-bit count and the wrong borrow make them wrong.
 */
module Div256 {
  import opened Options
  import opened Arith
  import opened Uint128
  import opened Uint256
  import opened Shift256
  import opened Div128

  const TWO127: nat := 0x8000_0000_0000_0000_0000_0000_0000_0000
  const TWO255: nat := 0x8000_0000_0000_0000_0000_0000_0000_0000_0000_0000_0000_0000_0000_0000_0000_0000

  datatype WideResult = WideResult(quotient: U256, remainder: U256)

  /** The bit length k of a, in 8 bits: 256 comes out as 0. */
  method BitsWide(a: U256) returns (out: nat, ghost k: nat)
    ensures IsBitLength(Wide(a), k) && k <= 256 && out == k % 256
    ensures exists j: nat :: IsBitLength(Wide(a), j) && j <= 256 && out == j % 256
  {
    WideIs(a);
    if !IsZero(a.big) {
      out, k := HalvingsWide(a.big, 128);
      HighBitsWide(a, k);
      k := k + 128;
    } else {
      out, k := HalvingsWide(a.low, 0);
    }
  }

  /** The loops of simple_uint256_bits, counting up from `start` in 8 bits. */
  method HalvingsWide(x: U128, start: nat) returns (out: nat, ghost k: nat)
    requires start < 256
    ensures IsBitLength(Val(x), k) && k <= 128 && out == (start + k) % 256
  {
    var up := x;
    out, k := start, 0;
    while !IsZero(up)
      invariant Val(up) == Prefix(Val(x), k) && out == (start + k) % 256
      invariant k > 0 ==> Prefix(Val(x), k - 1) > 0
      decreases Val(up)
    {
      ghost var was := Val(up);
      up := ShiftedRight(up, 1);
      assert Prefix(was, 1) == Prefix(was, 0) / 2 == was / 2;
      out := (out + 1) % 256;
      k := k + 1;
    }
    LengthIs(Val(x), k);
    Pow64();
    BoundedLength(Val(x), k, 128);
  }

  lemma HighBitsWide(a: U256, k: nat)
    requires IsBitLength(Val(a.big), k) && Val(a.big) > 0
    ensures IsBitLength(Wide(a), 128 + k)
  {
    WideIs(a);
    assert k > 0;
    PowAdd(2, 128, k);
    PowAdd(2, 128, k - 1);
    Pow64();
    HighBitsNat(Val(a.big), Val(a.low), Wide(a), Pow(2, 128), Pow(2, k), Pow(2, k - 1));
  }

  lemma HighBitsNat(big: nat, low: nat, n: nat, b: nat, p: nat, q: nat)
    requires n == big * b + low && low < b && q <= big < p
    ensures b * q <= n < b * p
  {
    MulMono(big, p - 1, b);
    MulMono(q, big, b);
    assert (p - 1) * b == p * b - b;
  }

  /** Is bit x - 1 of a set? */
  method ReadsOneWide(a: U256, x: nat) returns (one: bool)
    requires x > 0
    ensures one <==> Prefix(Wide(a), x - 1) % 2 == 1
  {
    ShiftRightWideVal(a, x - 1);
    var tmp1 := ShiftRightWide(a, x - 1);
    one := IsOdd(tmp1);
  }

  method IsOdd(a: U256) returns (one: bool)
    ensures one <==> Wide(a) % 2 == 1
  {
    AndOneWide(a);
    one := !IsZeroWide(BitAndWide(a, U256(Small(0), Small(1))));
  }

  method DoubledWide(a: U256) returns (r: U256)
    ensures 2 * Wide(a) < B256 ==> Wide(r) == 2 * Wide(a)
  {
    if 2 * Wide(a) < B256 {
      DoubleWide(a);
    }
    r := ShiftLeftWide(a, 1);
  }

  /** One round of the division loop.  The subtraction is right unless its lower halves borrow. */
  method RoundWide(a: U256, b: U256, d: U256, m: U256, x: nat) returns (d': U256, m': U256)
    requires x > 0
    ensures var n := 2 * Wide(m) + Prefix(Wide(a), x - 1) % 2;
      2 * Wide(m) + 1 < B256 && 2 * Wide(d) + 1 < B256 && Wide(b) < B128 ==>
      && (n < Wide(b) ==> Wide(m') == n && Wide(d') == 2 * Wide(d))
      && (n >= Wide(b) ==> Wide(d') == 2 * Wide(d) + 1)
      && (Wide(b) <= n < B128 ==> Wide(m') == n - Wide(b))
      && (n == B128 && Wide(b) > 0 ==> Wide(m') != n - Wide(b))
  {
    d' := DoubledWide(d);
    m' := DoubledWide(m);
    var one := ReadsOneWide(a, x);
    if one {
      m' := AddWide(m', SmallWide(1));
    }
    if GeWide(m', b) {
      WideIs(m');
      WideIs(b);
      m' := MinusWide(m', b);
      d' := AddWide(d', SmallWide(1));
    }
  }

  /** No partial remainder of the long division of a by b reaches 2^128 before b is subtracted. */
  ghost predicate SmallRemainders(a: nat, b: nat)
    requires b > 0
  {
    forall x: nat {:trigger Prefix(a, x)} :: x > 0 ==> 2 * Rem(Prefix(a, x), b) + Prefix(a, x - 1) % 2 < B128
  }

  ghost predicate InDomain(a: nat, b: nat) {
    a < TWO255 && (b <= TWO127 || (b < B128 && SmallRemainders(a, b)))
  }

  /** A divisor of 128 bits and a dividend of 129: the last subtraction borrows. */
  ghost predicate Borrows(a: nat, b: nat) {
    a == B128 && TWO127 < b < B128
  }

  /** What the loop knows when x bits are left to read. */
  ghost predicate Divided(a: nat, b: nat, d: nat, m: nat, x: nat) {
    && (InDomain(a, b) ==> IsQuotient(Prefix(a, x), b, d, m))
    && (Borrows(a, b) ==> if x > 0 then d == 0 && m == Prefix(a, x) <= TWO127 else !IsQuotient(a, b, d, m))
  }

  lemma RemainderFits(a: nat, b: nat, d: nat, m: nat, x: nat)
    requires InDomain(a, b) && b >= 2 && x > 0 && IsQuotient(Prefix(a, x), b, d, m)
    ensures 2 * m + Prefix(a, x - 1) % 2 < B128
  {
    QuotientIs(Prefix(a, x), b, d, m);
  }

  lemma RoundIs(a: nat, b: nat, d: nat, m: nat, x: nat, d': nat, m': nat)
    requires x > 0 && (InDomain(a, b) || Borrows(a, b)) && Divided(a, b, d, m, x) && b >= 2
    requires var n := 2 * m + Prefix(a, x - 1) % 2;
      && (n < b ==> m' == n && d' == 2 * d)
      && (n >= b ==> d' == 2 * d + 1)
      && (b <= n < B128 ==> m' == n - b)
      && (n == B128 ==> m' != n - b)
    ensures Divided(a, b, d', m', x - 1)
  {
    var bit := Prefix(a, x - 1) % 2;
    if Borrows(a, b) {
      PowersOfTwo(x);
      if x == 1 {
        assert Times(1, b) == b;
      }
    }
    if InDomain(a, b) {
      RemainderFits(a, b, d, m, x);
      RoundExact(Prefix(a, x), b, d, m, bit, d', m');
    }
  }

  lemma RoundExact(p: nat, b: nat, d: nat, m: nat, bit: nat, d': nat, m': nat)
    requires IsQuotient(p, b, d, m) && b >= 2 && bit <= 1
    requires if 2 * m + bit < b then m' == 2 * m + bit && d' == 2 * d else m' == 2 * m + bit - b && d' == 2 * d + 1
    ensures IsQuotient(2 * p + bit, b, d', m')
  {
    ReadBit(p, d, b, m, bit);
  }

  /** 2^128 without its x lowest bits, x > 1, is at most 2^127. */
  lemma {:induction false} PowersOfTwo(x: nat)
    requires x > 0
    ensures x > 1 ==> Prefix(B128, x - 1) <= TWO127
    ensures x == 1 ==> Prefix(B128, x - 1) == B128
  {
    if x > 2 {
      PowersOfTwo(x - 1);
    }
  }

  lemma RoomToDouble(a: nat, b: nat, d: nat, m: nat, x: nat)
    requires Divided(a, b, d, m, x) && (InDomain(a, b) || Borrows(a, b)) && x > 0 && b >= 2
    ensures 2 * m + 1 < B256 && 2 * d + 1 < B256
  {
    PrefixBound(a, x);
    if InDomain(a, b) {
      ReadBit(Prefix(a, x), d, b, m, 0);
    }
  }

  /** Long division: exact in the domain, and wrong when the last subtraction borrows. */
  method LongDivisionWide(a: U256, b: U256) returns (d: U256, m: U256)
    requires 2 <= Wide(b) && Wide(a) > Wide(b)
    ensures InDomain(Wide(a), Wide(b)) ==> IsQuotient(Wide(a), Wide(b), Wide(d), Wide(m))
    ensures Borrows(Wide(a), Wide(b)) ==> !IsQuotient(Wide(a), Wide(b), Wide(d), Wide(m))
    ensures Wide(a) >= TWO255 ==> Wide(d) == Wide(m) == 0
  {
    d, m := SmallWide(0), SmallWide(0);
    ghost var k;
    var x;
    x, k := BitsWide(a);
    BitsLeft(Wide(a), Wide(b), k, x);
    while x > 0
      invariant InDomain(Wide(a), Wide(b)) || Borrows(Wide(a), Wide(b)) ==>
          Divided(Wide(a), Wide(b), Wide(d), Wide(m), x)
      invariant Wide(a) >= TWO255 ==> x == 0 && Wide(d) == Wide(m) == 0
    {
      d, m := GuardedRound(a, b, d, m, x);
      x := x - 1;
    }
  }

  /** The loop body, of which nothing is claimed outside the two cases. */
  method GuardedRound(a: U256, b: U256, d: U256, m: U256, x: nat) returns (d': U256, m': U256)
    requires x > 0 && Wide(b) >= 2
    requires InDomain(Wide(a), Wide(b)) || Borrows(Wide(a), Wide(b)) ==> Divided(Wide(a), Wide(b), Wide(d), Wide(m), x)
    ensures InDomain(Wide(a), Wide(b)) || Borrows(Wide(a), Wide(b)) ==>
        Divided(Wide(a), Wide(b), Wide(d'), Wide(m'), x - 1)
  {
    d', m' := RoundWide(a, b, d, m, x);
    if InDomain(Wide(a), Wide(b)) || Borrows(Wide(a), Wide(b)) {
      RoomToDouble(Wide(a), Wide(b), Wide(d), Wide(m), x);
      RoundIs(Wide(a), Wide(b), Wide(d), Wide(m), x, Wide(d'), Wide(m'));
    }
  }

  lemma BitsLeft(a: nat, b: nat, k: nat, x: nat)
    requires IsBitLength(a, k) && k <= 256 && x == k % 256 && b >= 2 && a > b && a < B256
    ensures a >= TWO255 ==> x == 0
    ensures InDomain(a, b) || Borrows(a, b) ==> Divided(a, b, 0, 0, x)
  {
    Pow255();
    if k <= 255 {
      PowMono(2, k, 255);
    } else {
      assert a >= TWO255;
    }
    if InDomain(a, b) || Borrows(a, b) {
      NothingRead(a, k, b);
    }
  }

  lemma Pow255()
    ensures Pow(2, 255) == TWO255
  {
    Pow256();
    assert Pow(2, 256) == 2 * Pow(2, 255);
  }

  /** 256-bit division.  With a divisor of at most 2^127 it is right exactly for dividends below 2^255
      (and for the divisor 1).  With one between 2^127 and 2^128 it is right for those of them whose partial
      remainders stay below 2^128, and wrong on the dividend 2^128, where the last one reaches it. */
  method DivModWide(a: U256, b: U256) returns (r: Option<WideResult>)
    ensures r.None? <==> Wide(b) == 0
    ensures r.Some? && Wide(b) <= TWO127 ==>
      (IsQuotient(Wide(a), Wide(b), Wide(r.value.quotient), Wide(r.value.remainder)) <==>
        Wide(a) < TWO255 || Wide(b) == 1)
    ensures r.Some? && Wide(a) < TWO255 && Wide(b) < B128 && SmallRemainders(Wide(a), Wide(b)) ==>
      IsQuotient(Wide(a), Wide(b), Wide(r.value.quotient), Wide(r.value.remainder))
    ensures r.Some? && Wide(a) == B128 && TWO127 < Wide(b) < B128 ==>
      !IsQuotient(Wide(a), Wide(b), Wide(r.value.quotient), Wide(r.value.remainder))
  {
    EasyQuotients(Wide(a), Wide(b));
    if IsZeroWide(b) {
      return None;
    } else if EqWide(b, SmallWide(1)) {
      return Some(WideResult(a, SmallWide(0)));
    } else if EqWide(a, b) {
      return Some(WideResult(SmallWide(1), SmallWide(0)));
    } else if IsZeroWide(a) || GtWide(b, a) {
      return Some(WideResult(SmallWide(0), a));
    }
    var d, m := LongDivisionWide(a, b);
    assert Times(0, Wide(b)) == 0;
    return Some(WideResult(d, m));
  }
}
