/**
  Decimal numbers sign * x * 10^-e with a 128-bit x (src/safenumber/safenumber.cpp:532-671, 673-750).
 */
module SafeNumbers {
  import opened Arith
  import opened Decimal
  import opened Uint128
  import opened Div128
  import opened Multi256
  import opened Uint256
  import opened Div256

  type U32 = n: int | 0 <= n < 0x1_0000_0000

  datatype SafeNumber = SafeNumber(valid: bool, sign: bool, x: U128, e: U32)

  /** 10^32, the largest x kept beside a fraction */
  const LARGEST: nat := 100_000_000_000_000_000_000_000_000_000_000

  function LargestX(): (r: U128)
    ensures Val(r) == LARGEST
  {
    Of(LARGEST)
  }

  function ZeroNumber(): (n: SafeNumber)
    ensures n.valid && n.sign && Val(n.x) == 0 && n.e == 0
  {
    SafeNumber(true, true, Small(0), 0)
  }

  function NaN(): SafeNumber {
    SafeNumber(false, true, Small(0), 0)
  }

  /** The form every result is brought into. */
  ghost predicate Canonical(n: SafeNumber) {
    n.valid && n.e <= 16 && (n.e > 0 ==> Val(n.x) <= LARGEST) && (n.e > 0 && Val(n.x) != 0 ==> Val(n.x) % 10 != 0)
  }

  // ---------- compress_number ----------

  /** How many decimal places compress_number keeps of x * 10^-e. */
  function Places(x: nat, e: nat): (k: nat)
    ensures k <= 16 && k <= e
    decreases e
  {
    if x > LARGEST && e > 0 then Places(x / 10, e - 1) else if e > 16 then 16 else e
  }

  /** x' * 10^-e' is x * 10^-e truncated to k places. */
  ghost predicate Truncates(x: nat, e: nat, x': nat, e': nat, k: nat) {
    e' <= k <= e && Scale(x', k - e') == Drop(x, e - k)
  }

  /** r is a in canonical form: a truncated toward zero. */
  ghost predicate IsCompressed(a: SafeNumber, r: SafeNumber) {
    && Canonical(r)
    && Truncates(Val(a.x), a.e, Val(r.x), r.e, Places(Val(a.x), a.e))
    && (Val(r.x) != 0 ==> r.sign == a.sign)
    && (Val(r.x) == 0 ==> r == if Val(a.x) == 0 && a.e <= 16 then a else ZeroNumber())
  }

  /** x / 10 */
  method Tenth(x: U128) returns (r: U128)
    ensures Val(r) == Val(x) / 10
  {
    var qr := DivMod(x, Small(10));
    QuotientMeans(Val(x), 10, Val(qr.value.quotient), Val(qr.value.remainder));
    r := qr.value.quotient;
  }

  /** x * 10 */
  method TenTimes(x: U128) returns (r: U128)
    requires 10 * Val(x) < B128
    ensures Val(r) == 10 * Val(x)
  {
    TimesIs(Val(x), 10);
    r := Product(x, Small(10));
  }

  /** compress_number's first loop: digits are dropped while x is too large. */
  method Shrink(x0: U128, e0: U32) returns (x: U128, e: U32)
    ensures e <= e0 && Val(x) == Drop(Val(x0), e0 - e) && (Val(x) <= LARGEST || e == 0)
    ensures Places(Val(x0), e0) == if e > 16 then 16 else e
    ensures e < e0 ==> Val(x) > 0
  {
    x, e := x0, e0;
    while Gt(x, LargestX())
      invariant e <= e0 && Val(x) == Drop(Val(x0), e0 - e) && Places(Val(x0), e0) == Places(Val(x), e)
      invariant e < e0 ==> Val(x) > 0
      decreases e
    {
      if e == 0 {
        break;
      }
      x := Tenth(x);
      e := e - 1;
    }
  }

  /** Its second and third loop: what is beyond 16 places becomes zeros. */
  method Round16(x0: U128, e: U32) returns (x: U128)
    ensures e <= 16 ==> x == x0
    ensures e > 16 ==> Val(x) == Scale(Drop(Val(x0), e - 16), e - 16)
  {
    x := x0;
    var count := e;
    while count > 16
      invariant count <= e && (e > 16 ==> count >= 16) && (e <= 16 ==> count == e)
      invariant Val(x) == Drop(Val(x0), e - count) && (e <= 16 ==> x == x0)
    {
      x := Tenth(x);
      count := count - 1;
    }
    while count < e
      invariant count <= e && (e <= 16 ==> x == x0 && count == e) && (e > 16 ==> count >= 16)
      invariant e > 16 ==> Val(x) == Scale(Drop(Val(x0), e - 16), count - 16)
    {
      NoOverflow(Val(x0), e - 16, count - 16);
      x := TenTimes(x);
      count := count + 1;
    }
  }

  lemma NoOverflow(x: nat, n: nat, i: nat)
    requires i < n && x < B128
    ensures 10 * Scale(Drop(x, n), i) < B128
  {
    ScaleDrop(x, n);
    ScaleScale(Drop(x, n), i + 1, n - i - 1);
    ScaleIs(Scale(Drop(x, n), i + 1), n - i - 1);
  }

  /** Its last loop: zeros at the end of the fraction are stripped. */
  method Strip(x0: U128, e0: U32) returns (x: U128, e: U32)
    ensures e <= e0 && Scale(Val(x), e0 - e) == Val(x0) && (e > 0 && Val(x) != 0 ==> Val(x) % 10 != 0)
    ensures Val(x0) == 0 ==> x == x0 && e == e0
    ensures Val(x) <= Val(x0)
  {
    x, e := x0, e0;
    var more := EndsInZero(x, e);
    while more
      invariant e <= e0 && Scale(Val(x), e0 - e) == Val(x0) && Val(x) <= Val(x0)
      invariant more <==> Val(x) != 0 && Val(x) % 10 == 0 && e > 0
      invariant Val(x0) == 0 ==> x == x0 && e == e0
      decreases e
    {
      ScaleFirst(Val(x) / 10, e0 - e);
      x := Tenth(x);
      e := e - 1;
      more := EndsInZero(x, e);
    }
  }

  method EndsInZero(x: U128, e: U32) returns (b: bool)
    ensures b <==> Val(x) != 0 && Val(x) % 10 == 0 && e > 0
  {
    if IsZero(x) {
      return false;
    }
    var t := Tenth(x);
    var u := TenTimes(t);
    return Eq(u, x) && e > 0;
  }

  /** compress_number */
  method Compress(a: SafeNumber) returns (r: SafeNumber)
    ensures !a.valid ==> r == a
    ensures a.valid ==> IsCompressed(a, r)
  {
    if !a.valid {
      return a;
    }
    var x, e := Shrink(a.x, a.e);
    var y := Round16(x, e);
    var z, f := Strip(y, e);
    var sign := a.sign;
    CompressIs(Val(a.x), a.e, Val(x), e, Val(y), Val(z), f);
    if f > 16 {
      z := Small(0);
      f := 0;
      sign := true;
    }
    if Val(z) == 0 && Val(a.x) == 0 {
      ValInj(z, a.x);
    }
    r := SafeNumber(true, sign, z, f);
  }

  /** The three stages together: x, e after the first, y after the third, z, f at the end. */
  lemma CompressIs(x0: nat, e0: nat, x: nat, e: nat, y: nat, z: nat, f: nat)
    requires e <= e0 && x == Drop(x0, e0 - e) && (x <= LARGEST || e == 0) &&
        Places(x0, e0) == (if e > 16 then 16 else e)
    requires y == (if e > 16 then Scale(Drop(x, e - 16), e - 16) else x)
    requires f <= e && Scale(z, e - f) == y && (f > 0 && z != 0 ==> z % 10 != 0) && z <= y
    requires (y == 0 ==> z == 0 && f == e) && (e < e0 ==> x > 0)
    ensures f > 16 ==> z == 0 && Truncates(x0, e0, 0, 0, 16) && Places(x0, e0) == 16
    ensures f <= 16 ==> Truncates(x0, e0, z, f, Places(x0, e0)) && (f > 0 ==> z <= LARGEST)
    ensures z == 0 ==> if x0 == 0 && e0 <= 16 then f == e0 else f > 16
  {
    if e > 16 {
      DropDrop(x0, e0 - e, e - 16);
      Kept16(x, e, Drop(x, e - 16), z, f);
    }
    if z == 0 {
      ScaleZero(e - f);
      DropIs(x0, e0 - e);
    }
  }

  lemma Kept16(x: nat, e: nat, d: nat, z: nat, f: nat)
    requires e > 16 && d == Drop(x, e - 16) && f <= e && Scale(z, e - f) == Scale(d, e - 16) &&
        (f > 0 && z != 0 ==> z % 10 != 0)
    ensures f > 16 ==> z == 0 && d == 0 && Scale(0, 16) == 0
    ensures f <= 16 ==> Scale(z, 16 - f) == d && Scale(d, e - 16) <= x
  {
    ScaleZero(16);
    ScaleDrop(x, e - 16);
    if f > 16 {
      KeptLong(e - 16, f - 16, d, z);
    } else {
      KeptShort(e, d, z, f);
    }
  }

  lemma KeptShort(e: nat, d: nat, z: nat, f: nat)
    requires f <= 16 < e && Scale(z, e - f) == Scale(d, e - 16)
    ensures Scale(z, 16 - f) == d
  {
    ScaleScale(z, 16 - f, e - 16);
    ScaleInj(d, Scale(z, 16 - f), e - 16);
  }

  lemma KeptLong(e: nat, f: nat, d: nat, z: nat)
    requires 0 < f <= e && Scale(z, e - f) == Scale(d, e) && (z != 0 ==> z % 10 != 0)
    ensures z == 0 && d == 0
  {
    ScaleScale(d, f, e - f);
    ScaleInj(z, Scale(d, f), e - f);
    ScaleEnds(d, f);
    ScaleIs(d, f);
  }

  // ---------- what compression means ----------

  /** A canonical number is left alone, so compressing twice is compressing once. */
  lemma CompressCanonical(a: SafeNumber, r: SafeNumber)
    requires Canonical(a) && IsCompressed(a, r)
    ensures r == a
  {
    var x, x' := Val(a.x), Val(r.x);
    if x == 0 {
      ScaleZero(a.e);
      ScaleIs(x', a.e - r.e);
    } else {
      ScaleZero(a.e - r.e);
      SameScale(x, 0, x', a.e - r.e);
      ValInj(a.x, r.x);
    }
  }

  lemma ScaledZero(x: nat, m: nat, y: nat, n: nat)
    requires Scale(x, m) == Scale(y, n) && x == 0
    ensures y == 0
  {
    ScaleZero(m);
    ScaleIs(y, n);
  }

  /** Two ways to write a number without needless zeros are one. */
  lemma SameForm(x: nat, e: nat, x': nat, e': nat, k: nat)
    requires e <= k && e' <= k && Scale(x, k - e) == Scale(x', k - e')
    requires (e > 0 && x != 0 ==> x % 10 != 0) && (e' > 0 && x' != 0 ==> x' % 10 != 0)
    ensures (x == 0 <==> x' == 0) && (x != 0 ==> x == x' && e == e')
  {
    if x == 0 {
      ScaledZero(x, k - e, x', k - e');
    } else if x' == 0 {
      ScaledZero(x', k - e', x, k - e);
    } else if e >= e' {
      SameScale(x, k - e, x', k - e');
    } else {
      SameScale(x', k - e', x, k - e);
    }
  }

  /** IsCompressed leaves no choice. */
  lemma CompressUnique(a: SafeNumber, r: SafeNumber, r': SafeNumber)
    requires IsCompressed(a, r) && IsCompressed(a, r')
    ensures r == r'
  {
    SameForm(Val(r.x), r.e, Val(r'.x), r'.e, Places(Val(a.x), a.e));
    if Val(r.x) != 0 {
      ValInj(r.x, r'.x);
    }
  }

  /** Places keeps as many places as it may: no more than 16, and as few as it takes to bring x to at most 10^32. */
  lemma {:induction false} PlacesMost(x: nat, e: nat, k: nat)
    requires k <= e
    ensures k <= Places(x, e) <==> k <= 16 && (k == 0 || Drop(x, e - k) <= 100_000_000_000_000_000_000_000_000_000_000)
    decreases e
  {
    if x > LARGEST && e > 0 {
      if k < e {
        DropFirst(x, e - k - 1);
        PlacesMost(x / 10, e - 1, k);
      }
    } else {
      DropIs(x, e - k);
    }
  }

  /** The value in units of 10^-16, which every canonical number is a whole number of. */
  ghost function Units(n: SafeNumber): int
    requires n.e <= 16
  {
    var m: int := Scale(Val(n.x), 16 - n.e);
    if n.sign then m else -m
  }

  predicate NumEq(a: SafeNumber, b: SafeNumber) {
    a.valid && b.valid && a.sign == b.sign && Eq(a.x, b.x) && a.e == b.e
  }

  /** safe_number_eq is equality of values for canonical numbers other than zero, and equality of form for zeros. */
  lemma EqIsEqual(a: SafeNumber, b: SafeNumber)
    requires (a.valid ==> Canonical(a)) && (b.valid ==> Canonical(b))
    ensures !a.valid || !b.valid ==> !NumEq(a, b)
    ensures a.valid && b.valid ==>
        (NumEq(a, b) <==> Units(a) == Units(b) && (Val(a.x) == 0 ==> a.sign == b.sign && a.e == b.e))
  {
    if a.valid && b.valid {
      SameUnits(a, b);
      if a.x != b.x && Val(a.x) == Val(b.x) {
        ValInj(a.x, b.x);
      }
    }
  }

  lemma SameScaled(x: nat, e: nat, y: nat, f: nat)
    requires e <= 16 && f <= 16 && (e > 0 && x != 0 ==> x % 10 != 0) && (f > 0 && y != 0 ==> y % 10 != 0)
    ensures Scale(x, 16 - e) == Scale(y, 16 - f) <==> if x == 0 then y == 0 else x == y && e == f
    ensures Scale(x, 16 - e) == 0 <==> x == 0
  {
    ScaleIs(x, 16 - e);
    ScaleIs(y, 16 - f);
    ScaleZero(16 - e);
    ScaleZero(16 - f);
    if Scale(x, 16 - e) == Scale(y, 16 - f) {
      SameForm(x, e, y, f, 16);
    }
  }

  lemma SameUnits(a: SafeNumber, b: SafeNumber)
    requires Canonical(a) && Canonical(b)
    ensures Units(a) == Units(b) <==>
        if Val(a.x) == 0 then Val(b.x) == 0 else Val(a.x) == Val(b.x) && a.e == b.e && a.sign == b.sign
  {
    SameScaled(Val(a.x), a.e, Val(b.x), b.e);
    SameScaled(Val(b.x), b.e, Val(a.x), a.e);
  }

  /** Zeros are compared by form, not by value. */
  lemma ZerosDiffer() returns (a: SafeNumber, b: SafeNumber)
    ensures Canonical(a) && Canonical(b) && Units(a) == Units(b) && !NumEq(a, b)
  {
    a, b := ZeroNumber(), SafeNumber(true, true, Small(0), 1);
    ScaleZero(16);
    ScaleZero(15);
  }
}
