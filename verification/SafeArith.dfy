/**
  Multiplying, dividing, adding and comparing decimal numbers, and converting them to 64-bit integers
  (src/safenumber/safenumber.cpp:595-620, 673-785, 871-895, 935-965).
 */
module SafeArith {
  import opened Arith
  import opened Decimal
  import opened Uint128
  import opened Div128
  import opened Uint256
  import opened Multi128
  import opened Multi256
  import opened Div256
  import opened SafeNumbers

  /** safe_number_create(sign, x, e) */
  method Create(sign: bool, x: U128, e: U32) returns (r: SafeNumber)
    ensures IsCompressed(SafeNumber(true, sign, x, e), r)
  {
    r := Compress(SafeNumber(true, sign, x, e));
  }

  // ---------- multiplication ----------

  /** The decimal places kept of p * 10^-e: first p is brought into 128 bits, then compressed. */
  function ProductPlaces(p: nat, e: nat): (k: nat)
    ensures k <= 16 && k <= e
    decreases e
  {
    if p >= B128 && e > 0 then ProductPlaces(p / 10, e - 1) else Places(p, e)
  }

  /** Bringing the product into 128 bits first costs no places. */
  lemma {:induction false} ProductPlacesMost(p: nat, e: nat)
    ensures ProductPlaces(p, e) == Places(p, e)
    decreases e
  {
    if p >= B128 && e > 0 {
      ProductPlacesMost(p / 10, e - 1);
    }
  }

  method WideTenth(x: U256) returns (r: U256)
    requires Wide(x) < TWO255
    ensures Wide(r) == Wide(x) / 10
  {
    WideIs(SmallWide(10));
    var qr := DivModWide(x, SmallWide(10));
    QuotientMeans(Wide(x), 10, Wide(qr.value.quotient), Wide(qr.value.remainder));
    r := qr.value.quotient;
  }

  /** The loop of safe_number_multiply.  The 256-bit division is used only below 2^255, where it is right. */
  method IntoRange(p0: U256, e0: U32) returns (p: U256, e: U32)
    requires e0 > 0 ==> Wide(p0) < TWO255
    ensures e <= e0 && Wide(p) == Drop(Wide(p0), e0 - e) && (Wide(p) < B128 || e == 0)
    ensures Val(p.low) == Wide(p) % B128
    ensures Wide(p) < B128 ==> ProductPlaces(Wide(p0), e0) == Places(Wide(p), e)
    ensures Wide(p0) > 0 && e < e0 ==> Wide(p) > 0
  {
    p, e := p0, e0;
    WideIs(p);
    while !IsZero(p.big)
      invariant e <= e0 && Wide(p) == Drop(Wide(p0), e0 - e) && (e > 0 ==> Wide(p) < TWO255)
      invariant ProductPlaces(Wide(p0), e0) == ProductPlaces(Wide(p), e)
      invariant Wide(p0) > 0 && e < e0 ==> Wide(p) > 0
      invariant Wide(p) == Val(p.big) * B128 + Val(p.low)
      decreases e
    {
      if e == 0 {
        break;
      }
      p := WideTenth(p);
      WideIs(p);
      e := e - 1;
    }
    DivModIs(Wide(p), B128, Val(p.big), Val(p.low));
  }

  lemma ProductBound(a: SafeNumber, b: SafeNumber)
    requires Canonical(a) && Canonical(b)
    ensures Times(Val(a.x), Val(b.x)) < B256
    ensures a.e + b.e > 0 ==> Times(Val(a.x), Val(b.x)) < TWO255
  {
    TimesIs(Val(a.x), Val(b.x));
    ProductOfBounds(Val(a.x), Val(b.x), B128 - 1, B128 - 1);
    if a.e > 0 {
      ProductOfBounds(Val(a.x), Val(b.x), LARGEST, B128 - 1);
    } else if b.e > 0 {
      ProductOfBounds(Val(a.x), Val(b.x), B128 - 1, LARGEST);
    }
  }

  lemma ProductOfBounds(x: nat, y: nat, m: nat, n: nat)
    requires x <= m && y <= n
    ensures x * y <= m * n
  {
    MulMono(x, m, y);
    MulMono(y, n, m);
  }

  /** The exact product of two 128-bit integers. */
  method FullProduct(x: U128, y: U128) returns (r: U256)
    requires Times(Val(x), Val(y)) < B256
    ensures Wide(r) == Times(Val(x), Val(y))
  {
    TimesIs(Val(x), Val(y));
    r := MultiWide(Widened(x), Widened(y));
    DivModIs(Val(x) * Val(y), B256, 0, Val(x) * Val(y));
  }

  /** r is the product of a and b, truncated toward zero. */
  ghost predicate IsProduct(a: SafeNumber, b: SafeNumber, r: SafeNumber) {
    var p := Times(Val(a.x), Val(b.x));
    && Canonical(r)
    && Truncates(p, a.e + b.e, Val(r.x), r.e, ProductPlaces(p, a.e + b.e))
    && (Val(r.x) != 0 ==> r.sign == (a.sign == b.sign))
  }

  /** safe_number_multiply is the exact product truncated toward zero, at some number of places up to 16, if
      and only if the integer part of the product is below 2^128; otherwise its upper bits are lost. */
  method Multiply(a: SafeNumber, b: SafeNumber) returns (r: SafeNumber)
    requires a.valid ==> Canonical(a)
    requires b.valid ==> Canonical(b)
    ensures !a.valid || !b.valid ==> r == a
    ensures a.valid && b.valid ==> Canonical(r)
    ensures a.valid && b.valid ==> (IsProduct(a, b, r) <==> Drop(Times(Val(a.x), Val(b.x)), a.e + b.e) < B128)
    ensures a.valid && b.valid && Drop(Times(Val(a.x), Val(b.x)), a.e + b.e) >= B128 ==>
      r.e == 0 && r.sign == (a.sign == b.sign) && Val(r.x) == Drop(Times(Val(a.x), Val(b.x)), a.e + b.e) % B128
  {
    if !a.valid || !b.valid {
      return a;
    }
    if IsZero(a.x) || IsZero(b.x) {
      r := ZeroNumber();
      ZeroProduct(a, b);
      return;
    }
    ProductBound(a, b);
    var abx := FullProduct(a.x, b.x);
    var p, e := IntoRange(abx, a.e + b.e);
    r := Create(a.sign == b.sign, p.low, e);
    ProductDone(a, b, Wide(p), p.low, e, r);
  }

  lemma ProductDone(a: SafeNumber, b: SafeNumber, p: nat, low: U128, e: U32, r: SafeNumber)
    requires e <= a.e + b.e && p == Drop(Times(Val(a.x), Val(b.x)), a.e + b.e - e) && (p < B128 || e == 0)
    requires p < B128 ==> ProductPlaces(Times(Val(a.x), Val(b.x)), a.e + b.e) == Places(p, e)
    requires Val(low) == p % B128 && IsCompressed(SafeNumber(true, a.sign == b.sign, low, e), r)
    ensures var q := Drop(Times(Val(a.x), Val(b.x)), a.e + b.e);
      && (IsProduct(a, b, r) <==> q < B128)
      && (q >= B128 ==> r.e == 0 && r.sign == (a.sign == b.sign) && Val(r.x) == q % B128)
  {
    var t := Times(Val(a.x), Val(b.x));
    if p < B128 {
      KeptLow(t, a.e + b.e, p, e, Val(low), r);
    } else {
      ProductCut(t, a.e + b.e, a.sign == b.sign, low, r);
    }
  }

  lemma ProductCut(p: nat, e: nat, sign: bool, low: U128, r: SafeNumber)
    requires Drop(p, e) >= B128 && IsCompressed(SafeNumber(true, sign, low, 0), r)
    ensures !Truncates(p, e, Val(r.x), r.e, ProductPlaces(p, e)) && r == SafeNumber(true, sign, low, 0)
  {
    WholeKept(sign, low, r);
    ProductLost(p, e, Val(low), Val(r.x), r.e);
  }

  lemma KeptLow(p0: nat, e0: nat, p: nat, e: nat, low: nat, r: SafeNumber)
    requires e <= e0 && p == Drop(p0, e0 - e) && p < B128 && ProductPlaces(p0, e0) == Places(p, e) && low == p % B128
    requires Truncates(low, e, Val(r.x), r.e, Places(low, e))
    ensures Truncates(p0, e0, Val(r.x), r.e, ProductPlaces(p0, e0)) && Drop(p0, e0) < B128
  {
    DivModIs(p, B128, 0, p);
    ProductKept(p0, e0, p, e, Val(r.x), r.e);
  }

  lemma ZeroProduct(a: SafeNumber, b: SafeNumber)
    requires Canonical(a) && Canonical(b) && (Val(a.x) == 0 || Val(b.x) == 0)
    ensures IsProduct(a, b, ZeroNumber()) && Drop(Times(Val(a.x), Val(b.x)), a.e + b.e) == 0
  {
    TimesZero(Val(a.x), Val(b.x));
    var e := a.e + b.e;
    ScaleZero(e);
    var k := ProductPlaces(0, e);
    ScaleZero(k);
    ScaleZero(e - k);
  }

  lemma TimesZero(x: nat, y: nat)
    requires x == 0 || y == 0
    ensures Times(x, y) == 0
  {
    TimesIs(x, y);
  }

  lemma ProductKept(p0: nat, e0: nat, p: nat, e: nat, x: nat, f: nat)
    requires e <= e0 && p == Drop(p0, e0 - e) && p < B128 && ProductPlaces(p0, e0) == Places(p, e)
    requires Truncates(p, e, x, f, Places(p, e))
    ensures Truncates(p0, e0, x, f, ProductPlaces(p0, e0)) && Drop(p0, e0) < B128
  {
    var k := Places(p, e);
    DropDrop(p0, e0 - e, e - k);
    DropDrop(p0, e0 - e, e);
    DropIs(p, e);
  }

  /** With no fraction left, the bits above 2^128 are gone for good. */
  lemma ProductLost(p0: nat, e0: nat, low: nat, x: nat, f: nat)
    requires Drop(p0, e0) >= B128 > low && Truncates(low, 0, x, f, Places(low, 0))
    ensures !Truncates(p0, e0, x, f, ProductPlaces(p0, e0)) && x == low && f == 0
  {
    KeptNone(p0, e0);
  }

  lemma {:induction false} KeptNone(p: nat, e: nat)
    requires Drop(p, e) >= B128
    ensures ProductPlaces(p, e) == 0
    decreases e
  {
    DropIs(p, e);
    if e > 0 {
      DropFirst(p, e - 1);
      KeptNone(p / 10, e - 1);
    }
  }

  // ---------- division ----------

  /** The digits of a.x / b.x: rx has re of them after the point, and rem is what is left. */
  ghost predicate DigitsSoFar(ax: nat, bx: nat, rx: nat, rem: nat, re: nat) {
    IsQuotient(Scale(ax, re), bx, rx, rem)
  }

  lemma TimesDigit(x: nat, q: nat, b: nat)
    ensures Times(10 * x + q, b) == 10 * Times(x, b) + Times(q, b)
  {
    TimesIs(x, b);
    TimesIs(q, b);
    TimesIs(10 * x + q, b);
  }

  lemma OneDigit(a: nat, b: nat, q: nat, r: nat)
    requires IsQuotient(a, b, q, r) && a < 10 * b
    ensures q < 10
  {
    TimesIs(q, b);
    MulCancel(q, 10, b);
  }

  lemma NextDigit(ax: nat, bx: nat, rx: nat, rem: nat, re: nat, q: nat, rem': nat)
    requires DigitsSoFar(ax, bx, rx, rem, re) && IsQuotient(10 * rem, bx, q, rem')
    ensures DigitsSoFar(ax, bx, 10 * rx + q, rem', re + 1) && q < 10
  {
    TimesDigit(rx, q, bx);
    OneDigit(10 * rem, bx, q, rem');
  }

  method WideDivide(a: U256, b: U256) returns (q: U256, r: U256)
    requires Wide(b) > 0
    ensures InDomain(Wide(a), Wide(b)) ==> IsQuotient(Wide(a), Wide(b), Wide(q), Wide(r))
  {
    var qr := DivModWide(a, b);
    q, r := qr.value.quotient, qr.value.remainder;
  }

  /** The low half of a small number is the number. */
  lemma LowIs(a: U256)
    requires Wide(a) < B128
    ensures Val(a.low) == Wide(a)
  {
    WideIs(a);
  }

  method WideTenTimes(a: U256) returns (r: U256)
    ensures 10 * Wide(a) < B256 ==> Wide(r) == 10 * Wide(a)
  {
    r := MultiWide(a, SmallWide(10));
    if 10 * Wide(a) < B256 {
      DivModIs(Wide(a) * 10, B256, 0, Wide(a) * 10);
    }
  }

  /** How many digits after the point the long division of ax by bx produces, n of them being there: it stops
      at the first number of digits that is 32, or makes the quotient 10^32 or more, or leaves nothing. */
  function DigitsFrom(ax: nat, bx: nat, n: nat): (r: nat)
    requires bx > 0 && n <= 32
    ensures n <= r <= 32
    decreases 32 - n
  {
    if n == 32 || Quot(Scale(ax, n), bx) >= LARGEST || Rem(Scale(ax, n), bx) == 0 then n else DigitsFrom(ax, bx, n + 1)
  }

  function QuotientDigits(ax: nat, bx: nat): nat
    requires bx > 0
  {
    DigitsFrom(ax, bx, 0)
  }

  /** Does the long division stop with n digits after the point? */
  ghost predicate Stops(ax: nat, bx: nat, n: nat)
    requires bx > 0
  {
    var a := ax * Pow(10, n);
    n == 32 || a >= 100_000_000_000_000_000_000_000_000_000_000 * bx || exists q: nat :: a == q * bx
  }

  lemma StopsIs(ax: nat, bx: nat, n: nat)
    requires bx > 0
    ensures Stops(ax, bx, n) <==> n == 32 || Quot(Scale(ax, n), bx) >= LARGEST || Rem(Scale(ax, n), bx) == 0
  {
    var a := ax * Pow(10, n);
    ScaleIs(ax, n);
    QuotIs(a, bx);
    DivModIs(a, bx, a / bx, a % bx);
    if a / bx >= LARGEST {
      MulMono(LARGEST, a / bx, bx);
    } else {
      MulMono(a / bx + 1, LARGEST, bx);
    }
    if q: nat :| a == q * bx {
      DivModIs(a, bx, q, 0);
    }
  }

  lemma {:induction false} DigitsFromLeast(ax: nat, bx: nat, n: nat, k: nat)
    requires bx > 0 && n <= k <= 32 && forall j :: n <= j < k ==> !Stops(ax, bx, j)
    requires Stops(ax, bx, k)
    ensures DigitsFrom(ax, bx, n) == k
    decreases k - n
  {
    StopsIs(ax, bx, n);
    if n < k {
      assert !Stops(ax, bx, n);
      DigitsFromLeast(ax, bx, n + 1, k);
    }
  }

  /** The long division stops at the first of these numbers of digits: 32, or one that makes the quotient 10^32 or
      more, or one that makes it exact. */
  lemma DigitsLeast(ax: nat, bx: nat, k: nat)
    requires bx > 0
    ensures QuotientDigits(ax, bx) == k <==> k <= 32 && Stops(ax, bx, k) && forall j: nat :: j < k ==> !Stops(ax, bx, j)
  {
    var m := LeastStop(ax, bx, 0);
    DigitsFromLeast(ax, bx, 0, m);
  }

  lemma LeastStop(ax: nat, bx: nat, n: nat) returns (k: nat)
    requires bx > 0 && n <= 32 && forall j: nat :: j < n ==> !Stops(ax, bx, j)
    ensures k <= 32 && Stops(ax, bx, k) && forall j: nat :: j < k ==> !Stops(ax, bx, j)
    decreases 32 - n
  {
    if Stops(ax, bx, n) {
      k := n;
    } else {
      k := LeastStop(ax, bx, n + 1);
    }
  }

  lemma DigitsStep(ax: nat, bx: nat, rx: nat, rem: nat, n: nat)
    requires bx > 0 && n <= 32 && DigitsSoFar(ax, bx, rx, rem, n)
    ensures DigitsFrom(ax, bx, n) == if n == 32 || rx >= LARGEST || rem == 0 then n else DigitsFrom(ax, bx, n + 1)
  {
    QuotientIs(Scale(ax, n), bx, rx, rem);
  }

  /** Where the long division stands: `big` is what the next round divides. */
  ghost predicate Underway(ax: nat, bx: nat, big: nat, rx: nat, rem: nat, re: nat)
    requires bx > 0
  {
    big == 10 * rem && rem < bx && re <= 32 && DigitsSoFar(ax, bx, rx, rem, re) &&
      DigitsFrom(ax, bx, re) == QuotientDigits(ax, bx)
  }

  lemma OneMoreDigit(ax: nat, bx: nat, big: nat, rx: nat, rem: nat, re: nat, q: nat, rem': nat)
    requires bx > 0 && Underway(ax, bx, big, rx, rem, re) && re < 32 && rx < LARGEST && rem > 0
    requires IsQuotient(big, bx, q, rem')
    ensures Underway(ax, bx, 10 * rem', 10 * rx + q, rem', re + 1) && q < 10
  {
    NextDigit(ax, bx, rx, rem, re, q, rem');
    SmallRemainder(big, bx, q, rem');
    DigitsStep(ax, bx, rx, rem, re);
  }

  /** What the round for the n-th digit after the point divides. */
  function Dividend(ax: nat, bx: nat, n: nat): nat
    requires bx > 0
  {
    if n == 0 then ax else 10 * Rem(Scale(ax, n - 1), bx)
  }

  /** No round of the long division of ax by bx meets a partial remainder of 2^128 or more: so it is for all
      divisors up to 2^127. */
  ghost predicate Divisible(ax: nat, bx: nat)
    requires bx > 0
  {
    bx <= TWO127 ||
      (bx < B128 && forall n: nat :: n <= QuotientDigits(ax, bx) ==> SmallRemainders(Dividend(ax, bx, n), bx))
  }

  lemma RoundInDomain(ax: nat, bx: nat, big: nat, rx: nat, rem: nat, re: nat)
    requires 0 < bx < B128 && Divisible(ax, bx) && Underway(ax, bx, big, rx, rem, re)
    requires re < 32 && rx < LARGEST && rem > 0
    ensures InDomain(big, bx)
  {
    DigitsStep(ax, bx, rx, rem, re);
    QuotientIs(Scale(ax, re), bx, rx, rem);
    assert big == Dividend(ax, bx, re + 1);
  }

  /** The loop of safe_number_div: long division, one decimal digit a round. */
  method LongQuotient(ax: U128, bx: U128) returns (rx: U128, re: nat)
    requires 0 < Val(bx)
    ensures re <= 32
    ensures Divisible(Val(ax), Val(bx)) ==>
      re == QuotientDigits(Val(ax), Val(bx)) &&
        DigitsSoFar(Val(ax), Val(bx), Val(rx), Rem(Scale(Val(ax), re), Val(bx)), re)
  {
    var bigA, bigB := Widened(ax), Widened(bx);
    assert Divisible(Val(ax), Val(bx)) ==> InDomain(Val(ax), Val(bx)) by {
      assert Dividend(Val(ax), Val(bx), 0) == Val(ax);
    }
    var q, m := WideDivide(bigA, bigB);
    if Divisible(Val(ax), Val(bx)) {
      SmallQuotient(Wide(bigA), Wide(bigB), Wide(q), Wide(m));
      LowIs(q);
    }
    rx := PushDigit(Small(0), q.low);
    bigA := WideTenTimes(m);
    re := 0;
    ghost var rem := Wide(m);
    while re < 32 && Lt(rx, LargestX()) && !IsZeroWide(bigA)
      invariant re <= 32 && Wide(bigB) == Val(bx)
      invariant Divisible(Val(ax), Val(bx)) ==> Underway(Val(ax), Val(bx), Wide(bigA), Val(rx), rem, re)
      decreases 32 - re
    {
      if Divisible(Val(ax), Val(bx)) {
        RoundInDomain(Val(ax), Val(bx), Wide(bigA), Val(rx), rem, re);
      }
      q, m := WideDivide(bigA, bigB);
      if Divisible(Val(ax), Val(bx)) {
        OneMoreDigit(Val(ax), Val(bx), Wide(bigA), Val(rx), rem, re, Wide(q), Wide(m));
        LowIs(q);
      }
      rx := PushDigit(rx, q.low);
      bigA := WideTenTimes(m);
      re, rem := re + 1, Wide(m);
    }
    if Divisible(Val(ax), Val(bx)) {
      DigitsStep(Val(ax), Val(bx), Val(rx), rem, re);
      QuotientIs(Scale(Val(ax), re), Val(bx), Val(rx), rem);
    }
  }

  lemma SmallRemainder(a: nat, b: nat, q: nat, r: nat)
    requires IsQuotient(a, b, q, r)
    ensures r < b
  {
    TimesIs(q, b);
  }

  lemma SmallQuotient(a: nat, b: nat, q: nat, r: nat)
    requires IsQuotient(a, b, q, r) && a < B128
    ensures q < B128 && r < b
  {
    TimesIs(q, b);
    MulMono(1, b, q);
  }

  /** rx * 10 + digit */
  method PushDigit(rx: U128, digit: U128) returns (r: U128)
    ensures 10 * Val(rx) + Val(digit) < B128 ==> Val(r) == 10 * Val(rx) + Val(digit)
  {
    var t := Multi(rx, Small(10));
    if 10 * Val(rx) + Val(digit) < B128 {
      DivModIs(Val(rx) * 10, B128, 0, Val(rx) * 10);
    }
    r := Add(t, digit);
  }

  /** uint64_pow(10, p), exact for the exponents that fit */
  function Pow10(p: nat): (r: Word)
    requires p <= 19
    ensures r == Pow(10, p)
  {
    PowMono(10, p, 19);
    TenTo19();
    Pow(10, p)
  }

  lemma TenTo19()
    ensures Pow(10, 19) == 10_000_000_000_000_000_000 && Pow(10, 16) == 10_000_000_000_000_000
  {
    assert Pow(10, 4) == 10_000;
    PowAdd(10, 4, 4);
    PowAdd(10, 8, 8);
    PowAdd(10, 16, 3);
    assert Pow(10, 3) == 1000;
  }

  /** x * uint64_pow(10, p), modulo 2^128 */
  method ScaledBy(x: U128, p: nat) returns (r: U128)
    requires p <= 19
    ensures Val(r) == Scale(Val(x), p) % B128
    ensures Scale(Val(x), p) < B128 ==> Val(r) == Scale(Val(x), p)
  {
    ScaleIs(Val(x), p);
    r := Multi(x, Small(Pow10(p)));
    if Scale(Val(x), p) < B128 {
      DivModIs(Scale(Val(x), p), B128, 0, Scale(Val(x), p));
    }
  }

  /** The quotient a / b is (a.x * 10^b.e) / (b.x * 10^a.e); this is its value at k places, truncated. */
  function QuotientAt(ax: nat, ae: nat, bx: nat, be: nat, k: nat): nat
    requires bx > 0
  {
    ScaleIs(bx, ae);
    Scale(ax, be + k) / Scale(bx, ae)
  }

  /** r is a / b truncated toward zero to k places. */
  ghost predicate IsQuotientNumber(a: SafeNumber, b: SafeNumber, r: SafeNumber, k: nat)
    requires Val(b.x) > 0
  {
    && Canonical(r) && r.e <= k <= 16
    && Scale(Val(r.x), k - r.e) == QuotientAt(Val(a.x), a.e, Val(b.x), b.e, k)
    && (Val(r.x) != 0 ==> r.sign == (a.sign == b.sign))
  }

  lemma ScaleQuotient(x: nat, y: nat, n: nat)
    requires y > 0
    ensures Scale(y, n) > 0 && Scale(x, n) / Scale(y, n) == x / y
  {
    ScaleIs(x, n);
    ScaleIs(y, n);
    PowPos(10, n);
    QuotientOfScaled(x, y, Pow(10, n));
  }

  lemma QuotientOfScaled(x: nat, y: nat, p: nat)
    requires y > 0 && p > 0
    ensures y * p > 0 && (x * p) / (y * p) == x / y
  {
    ScaledMod(x, p, y);
    Commutes(p, y);
  }

  lemma Commutes(x: nat, y: nat)
    ensures x * y == y * x
  {
  }

  lemma DropQuotient(x: nat, y: nat, n: nat)
    requires y > 0
    ensures Scale(y, n) > 0 && x / y >= 0 && Drop(x / y, n) == x / Scale(y, n)
  {
    DivPos(x, y);
    DropIs(x / y, n);
    ScaleIs(y, n);
    DivDiv(x, y, Pow(10, n));
  }

  lemma DivPos(x: nat, y: nat)
    requires y > 0
    ensures x / y >= 0
  {
    DivLe(x, y);
  }

  /** Dropping digits of the long quotient truncates the exact quotient. */
  lemma QuotientKept(ax: nat, ae: nat, bx: nat, be: nat, rx: nat, rem: nat, re: nat, k: nat)
    requires bx > 0 && DigitsSoFar(ax, bx, rx, rem, re) && be <= ae + re && k <= ae + re - be
    ensures Drop(rx, ae + re - be - k) == QuotientAt(ax, ae, bx, be, k)
  {
    var n := ae + re - be - k;
    QuotientMeans(Scale(ax, re), bx, rx, rem);
    DropQuotient(Scale(ax, re), bx, n);
    ScaleIs(bx, n);
    ScaleIs(bx, ae);
    ScaleQuotient(Scale(ax, re), Scale(bx, n), ae);
    ScaleQuotient(Scale(ax, be + k), Scale(bx, ae), n);
    ScaleScale(ax, re, ae);
    ScaleScale(bx, n, ae);
    ScaleScale(ax, be + k, n);
    ScaleScale(bx, ae, n);
  }

  /** Zeros in place of the digits that the loop did not produce. */
  lemma QuotientPadded(ax: nat, ae: nat, bx: nat, be: nat, rx: nat, rem: nat, re: nat, x: nat)
    requires bx > 0 && DigitsSoFar(ax, bx, rx, rem, re) && ae + re < be && x == Scale(rx, be - ae - re) % B128
    ensures x == QuotientAt(ax, ae, bx, be, 0) <==> Scale(rem, be - ae - re) < bx && Scale(rx, be - ae - re) < B128
  {
    var d := be - ae - re;
    ScaleScale(ax, re + d, ae);
    ScaleQuotient(Scale(ax, re + d), bx, ae);
    ScaleScale(ax, re, d);
    TimesIs(rx, bx);
    ScaleAdd(rx * bx, rem, d);
    ScaleTimes(rx, bx, d);
    ModPlus(Scale(rem, d), Scale(rx, d), bx);
    PaddedExact(Scale(rx, d), Scale(rem, d), bx, x);
  }

  lemma PaddedExact(m: nat, n: nat, b: nat, x: nat)
    requires b > 0 && x == m % B128
    ensures n / b >= 0 && (x == m + n / b <==> n < b && m < B128)
  {
    DivPos(n, b);
    DivModIs(m, B128, m / B128, m % B128);
    if n < b {
      DivModIs(n, b, 0, n);
    } else {
      MulMono(1, n / b, b);
      DivMono(b, n, b);
      DivModIs(b, b, 1, 0);
    }
    if m < B128 {
      DivModIs(m, B128, 0, m);
    }
  }

  /** The digits the long division of a by b produces reach the decimal point, or what is missing is zeros and
      the quotient fits in 128 bits. */
  ghost predicate DigitsSuffice(a: SafeNumber, b: SafeNumber)
    requires Val(b.x) > 0
  {
    var n := QuotientDigits(Val(a.x), Val(b.x));
    var missing := b.e - a.e - n;
    missing > 0 ==>
      Scale(Rem(Scale(Val(a.x), n), Val(b.x)), missing) < Val(b.x) &&
        Scale(Quot(Scale(Val(a.x), n), Val(b.x)), missing) < B128
  }

  /** The places of the quotient that are kept. */
  ghost function QuotientPlaces(a: SafeNumber, b: SafeNumber): nat
    requires Val(b.x) > 0
  {
    var n := QuotientDigits(Val(a.x), Val(b.x));
    if a.e + n >= b.e then Places(Quot(Scale(Val(a.x), n), Val(b.x)), a.e + n - b.e) else 0
  }

  /** safe_number_div, when no partial remainder reaches 2^128, as with all divisors with x up to 2^127, is the
      exact quotient truncated toward zero, at some number of places up to 16, if and only if the digits suffice. */
  method Divide(a: SafeNumber, b: SafeNumber) returns (r: SafeNumber)
    requires a.valid ==> Canonical(a)
    requires b.valid ==> Canonical(b)
    ensures !a.valid || !b.valid ==> r == a
    ensures a.valid && b.valid ==> Canonical(r) || r == NaN()
    ensures a.valid && b.valid && Val(a.x) == 0 ==> r == ZeroNumber()
    ensures a.valid && b.valid && Val(a.x) != 0 && Val(b.x) == 0 ==> r == NaN()
    ensures a.valid && b.valid && Val(a.x) != 0 && Val(b.x) > 0 && Divisible(Val(a.x), Val(b.x)) ==>
      && (DigitsSuffice(a, b) ==> IsQuotientNumber(a, b, r, QuotientPlaces(a, b)))
      && (DigitsSuffice(a, b) <==> exists k: nat :: IsQuotientNumber(a, b, r, k))
  {
    if !a.valid || !b.valid {
      return a;
    }
    if IsZero(a.x) {
      return ZeroNumber();
    }
    if IsZero(b.x) {
      return NaN();
    }
    var sign := a.sign == b.sign;
    var extra := a.e - b.e;
    var x, e := LongQuotient(a.x, b.x);
    ghost var rx := Val(x);
    if extra >= -e {
      r := Create(sign, x, e + extra);
      if Divisible(Val(a.x), Val(b.x)) {
        KeptDone(a, b, x, e, r);
      }
    } else {
      x := ScaledBy(x, -extra - e);
      r := Create(sign, x, 0);
      if Divisible(Val(a.x), Val(b.x)) {
        PaddedDone(a, b, rx, e, x, r);
      }
    }
  }

  /** The long division reaches the decimal point. */
  lemma KeptPlaces(a: SafeNumber, b: SafeNumber, rx: nat, n: nat)
    requires Val(b.x) > 0 && n == QuotientDigits(Val(a.x), Val(b.x)) && a.e + n >= b.e
    requires rx == Quot(Scale(Val(a.x), n), Val(b.x))
    ensures DigitsSuffice(a, b) && QuotientPlaces(a, b) == Places(rx, a.e + n - b.e)
  {
  }

  lemma KeptDone(a: SafeNumber, b: SafeNumber, rx: U128, n: nat, r: SafeNumber)
    requires Canonical(a) && Canonical(b) && Val(b.x) > 0 && n == QuotientDigits(Val(a.x), Val(b.x)) && a.e + n >= b.e
    requires DigitsSoFar(Val(a.x), Val(b.x), Val(rx), Rem(Scale(Val(a.x), n), Val(b.x)), n)
    requires IsCompressed(SafeNumber(true, a.sign == b.sign, rx, a.e + n - b.e), r)
    ensures DigitsSuffice(a, b) && IsQuotientNumber(a, b, r, QuotientPlaces(a, b))
  {
    var rem := Rem(Scale(Val(a.x), n), Val(b.x));
    KeptNumber(a, b, rx, n, rem, r);
    QuotientIs(Scale(Val(a.x), n), Val(b.x), Val(rx), rem);
    KeptPlaces(a, b, Val(rx), n);
  }

  lemma KeptNumber(a: SafeNumber, b: SafeNumber, rx: U128, n: nat, rem: nat, r: SafeNumber)
    requires Canonical(a) && Canonical(b) && Val(b.x) > 0 && a.e + n >= b.e && n <= 32
    requires DigitsSoFar(Val(a.x), Val(b.x), Val(rx), rem, n)
    requires IsCompressed(SafeNumber(true, a.sign == b.sign, rx, a.e + n - b.e), r)
    ensures IsQuotientNumber(a, b, r, Places(Val(rx), a.e + n - b.e))
  {
    QuotientKept(Val(a.x), a.e, Val(b.x), b.e, Val(rx), rem, n, Places(Val(rx), a.e + n - b.e));
  }

  lemma PaddedIs(a: SafeNumber, b: SafeNumber, rx: nat, n: nat, x: nat)
    requires Val(b.x) > 0 && n == QuotientDigits(Val(a.x), Val(b.x)) && a.e + n < b.e
    requires DigitsSoFar(Val(a.x), Val(b.x), rx, Rem(Scale(Val(a.x), n), Val(b.x)), n)
    requires x == Scale(rx, b.e - a.e - n) % B128
    ensures DigitsSuffice(a, b) <==> x == QuotientAt(Val(a.x), a.e, Val(b.x), b.e, 0)
  {
    QuotientIs(Scale(Val(a.x), n), Val(b.x), rx, Rem(Scale(Val(a.x), n), Val(b.x)));
    QuotientPadded(Val(a.x), a.e, Val(b.x), b.e, rx, Rem(Scale(Val(a.x), n), Val(b.x)), n, x);
  }

  /** A whole number is compressed by leaving it alone. */
  lemma WholeKept(sign: bool, x: U128, r: SafeNumber)
    requires IsCompressed(SafeNumber(true, sign, x, 0), r)
    ensures r == SafeNumber(true, sign, x, 0)
  {
    CompressCanonical(SafeNumber(true, sign, x, 0), r);
  }

  lemma PaddedDone(a: SafeNumber, b: SafeNumber, rx: nat, n: nat, x: U128, r: SafeNumber)
    requires Canonical(a) && Canonical(b) && Val(b.x) > 0 && n == QuotientDigits(Val(a.x), Val(b.x)) && a.e + n < b.e
    requires DigitsSoFar(Val(a.x), Val(b.x), rx, Rem(Scale(Val(a.x), n), Val(b.x)), n)
    requires Val(x) == Scale(rx, b.e - a.e - n) % B128
    requires IsCompressed(SafeNumber(true, a.sign == b.sign, x, 0), r)
    ensures QuotientPlaces(a, b) == 0 && (DigitsSuffice(a, b) <==> IsQuotientNumber(a, b, r, 0))
    ensures IsQuotientNumber(a, b, r, 0) <==> exists k: nat :: IsQuotientNumber(a, b, r, k)
  {
    PaddedIs(a, b, rx, n, Val(x));
    WholeKept(a.sign == b.sign, x, r);
    if k: nat :| IsQuotientNumber(a, b, r, k) {
      FewerPlaces(a, b, r, k);
    }
  }

  /** A whole number that is the quotient at some places is the quotient without places. */
  lemma FewerPlaces(a: SafeNumber, b: SafeNumber, r: SafeNumber, k: nat)
    requires Val(b.x) > 0 && r.e == 0 && IsQuotientNumber(a, b, r, k)
    ensures IsQuotientNumber(a, b, r, 0)
  {
    var ax, bx, x := Val(a.x), Val(b.x), Val(r.x);
    ScaleIs(bx, a.e);
    DropScale(x, k);
    DropQuotient(Scale(ax, b.e + k), Scale(bx, a.e), k);
    ScaleScale(ax, b.e, k);
    ScaleQuotient(Scale(ax, b.e), Scale(bx, a.e), k);
  }

  /** 10^33 / 0.3: the division stops at the decimal point of its own quotient with a remainder, and the last
      digit becomes 0. */
  method WrongQuotient() returns (a: SafeNumber, b: SafeNumber, r: SafeNumber)
    ensures Canonical(a) && Canonical(b) && 0 < Val(b.x) <= TWO127 && !DigitsSuffice(a, b)
    ensures forall k: nat :: !IsQuotientNumber(a, b, r, k)
  {
    a := SafeNumber(true, true, Of(10 * LARGEST), 0);
    b := SafeNumber(true, true, Of(3), 1);
    assert Scale(10 * LARGEST, 0) == 10 * LARGEST && Scale(1, 1) == 10;
    QuotIs(10 * LARGEST, 3);
    assert Quot(10 * LARGEST, 3) >= LARGEST && Rem(10 * LARGEST, 3) == 1;
    assert QuotientDigits(10 * LARGEST, 3) == 0;
    r := Divide(a, b);
  }

  function Max(x: nat, y: nat): nat {
    if x > y then x else y
  }

  // ---------- order ----------

  /** x cut before its last e digits */
  method SplitAt(x: U128, e: nat) returns (p: U128, q: U128)
    requires e <= 19
    ensures Val(p) == Drop(Val(x), e) && Val(x) == Scale(Val(p), e) + Val(q) && Val(q) < Scale(1, e)
  {
    DropIs(Val(x), e);
    ScaleIs(1, e);
    var qr := DivMod(x, Small(Pow10(e)));
    p, q := qr.value.quotient, qr.value.remainder;
    QuotientMeans(Val(x), Pow(10, e), Val(p), Val(q));
    ScaleIs(Val(p), e);
    TimesIs(Val(p), Pow(10, e));
  }

  /** x * 10^-e in units of 10^-u, by integer part and fraction. */
  lemma InUnits(x: nat, e: nat, p: nat, q: nat, u: nat)
    requires e <= u && x == Scale(p, e) + q && q < Scale(1, e)
    ensures Scale(x, u - e) == Scale(p, u) + Scale(q, u - e) && Scale(q, u - e) < Scale(1, u)
  {
    ScaleAdd(Scale(p, e), q, u - e);
    ScaleScale(p, e, u - e);
    ScaleMono(q, Scale(1, e), u - e);
    ScaleScale(1, e, u - e);
  }

  lemma LargerInteger(p: nat, f: nat, p': nat, f': nat, u: nat)
    requires p < p' && f < Scale(1, u)
    ensures Scale(p, u) + f < Scale(p', u) + f'
  {
    ScaleMono(p + 1, p', u);
    ScaleAdd(p, 1, u);
  }

  /** Fractions brought to a common number m of places. */
  lemma SameOrder(q: nat, e: nat, q': nat, e': nat, m: nat, u: nat)
    requires e <= m && e' <= m && m <= u
    ensures Scale(q, m - e) < Scale(q', m - e') <==> Scale(q, u - e) < Scale(q', u - e')
    ensures Scale(q, m - e) == Scale(q', m - e') <==> Scale(q, u - e) == Scale(q', u - e')
  {
    var s, s' := Scale(q, m - e), Scale(q', m - e');
    ScaleScale(q, m - e, u - m);
    ScaleScale(q', m - e', u - m);
    if s <= s' {
      ScaleMono(s, s', u - m);
    } else {
      ScaleMono(s', s, u - m);
    }
  }

  /** Integer parts decide, and then fractions. */
  lemma Ordered(x: nat, e: nat, p: nat, q: nat, x': nat, e': nat, p': nat, q': nat, m: nat, u: nat)
    requires e <= m && e' <= m && m <= u && x == Scale(p, e) + q && q < Scale(1, e) && x' == Scale(p', e') + q' &&
        q' < Scale(1, e')
    ensures p < p' ==> Scale(x, u - e) < Scale(x', u - e')
    ensures p > p' ==> Scale(x, u - e) > Scale(x', u - e')
    ensures p == p' ==> (Scale(q, m - e) < Scale(q', m - e') <==> Scale(x, u - e) < Scale(x', u - e'))
    ensures p == p' ==> (Scale(q, m - e) == Scale(q', m - e') <==> Scale(x, u - e) == Scale(x', u - e'))
  {
    InUnits(x, e, p, q, u);
    InUnits(x', e', p', q', u);
    if p < p' {
      LargerInteger(p, Scale(q, u - e), p', Scale(q', u - e'), u);
    } else if p > p' {
      LargerInteger(p', Scale(q', u - e'), p, Scale(q, u - e), u);
    } else {
      SameOrder(q, e, q', e', m, u);
    }
  }

  /** Brings a fraction from e to m places; fractions of canonical numbers never overflow there. */
  method Extend(q: U128, e: nat, m: nat) returns (r: U128)
    requires e <= m <= 16 && Val(q) < Scale(1, e)
    ensures Val(r) == Scale(Val(q), m - e)
  {
    ScaleMono(Val(q), Scale(1, e), m - e);
    ScaleScale(1, e, m - e);
    ScaleIs(1, m);
    PowMono(10, m, 16);
    TenTo19();
    ScaleZero(0);
    if m > e {
      r := ScaledBy(q, m - e);
    } else {
      r := q;
    }
  }

  /** Magnitudes compared as safe_number_gt compares them: -1, 0 or 1. */
  method CompareMagnitudes(a: SafeNumber, b: SafeNumber) returns (c: int)
    requires Canonical(a) && Canonical(b)
    ensures c == (if Scale(Val(a.x), 16 - a.e) < Scale(Val(b.x), 16 - b.e) then -1
                  else if Scale(Val(a.x), 16 - a.e) == Scale(Val(b.x), 16 - b.e) then 0 else 1)
  {
    var pa, qa := SplitAt(a.x, a.e);
    var pb, qb := SplitAt(b.x, b.e);
    var m := Max(a.e, b.e);
    Ordered(Val(a.x), a.e, Val(pa), Val(qa), Val(b.x), b.e, Val(pb), Val(qb), m, 16);
    if Gt(pa, pb) {
      return 1;
    } else if Lt(pa, pb) {
      return -1;
    }
    var ra := Extend(qa, a.e, m);
    var rb := Extend(qb, b.e, m);
    return if Eq(ra, rb) then 0 else if Gt(ra, rb) then 1 else -1;
  }

  /** safe_number_gt is the order of values, except that it puts a positive zero above a negative one. */
  method GreaterThan(a: SafeNumber, b: SafeNumber) returns (g: bool)
    requires a.valid ==> Canonical(a)
    requires b.valid ==> Canonical(b)
    ensures !a.valid || !b.valid ==> !g
    ensures a.valid && b.valid ==>
      ((g <==> Units(a) > Units(b)) <==> !(a.sign && !b.sign && Val(a.x) == 0 && Val(b.x) == 0))
  {
    if !a.valid || !b.valid {
      return false;
    }
    if a.sign != b.sign {
      UnitsSigned(a);
      UnitsSigned(b);
      return a.sign;
    }
    var c := CompareMagnitudes(a, b);
    return if c == 0 then false else if c > 0 then a.sign else !a.sign;
  }

  lemma UnitsSigned(n: SafeNumber)
    requires n.e <= 16
    ensures (Units(n) == 0 <==> Val(n.x) == 0) && (Units(n) > 0 ==> n.sign) && (Units(n) < 0 ==> !n.sign)
  {
    ScaleGrows(Val(n.x), 16 - n.e);
    ScaleZero(16 - n.e);
  }

  // ---------- addition ----------

  /** The signed number of units of 10^-m. */
  ghost function Signed(n: SafeNumber, m: nat): int
    requires n.e <= m
  {
    Sgn(n.sign, Scale(Val(n.x), m - n.e))
  }

  function Sgn(sign: bool, v: int): int {
    if sign then v else -v
  }

  function Abs(x: int): nat {
    if x < 0 then -x else x
  }

  /** The operands, aligned, fit in 128 bits, and so does their sum. */
  ghost predicate Aligned(a: SafeNumber, b: SafeNumber) {
    var m := Max(a.e, b.e);
    && Abs(Signed(a, m)) < B128 && Abs(Signed(b, m)) < B128
    && Abs(Signed(a, m) + Signed(b, m)) < B128
  }

  /** r is the sum, truncated toward zero. */
  ghost predicate IsSum(a: SafeNumber, b: SafeNumber, r: SafeNumber) {
    var m := Max(a.e, b.e);
    var t := Signed(a, m) + Signed(b, m);
    && Canonical(r) && Truncates(Abs(t), m, Val(r.x), r.e, Places(Abs(t), m))
    && (Val(r.x) != 0 ==> r.sign == (t > 0))
  }

  /** An operand at m places, cut to 128 bits as the code cuts it. */
  ghost function Cut(n: SafeNumber, m: nat): int
    requires n.e <= m
  {
    Sgn(n.sign, Scale(Val(n.x), m - n.e) % B128)
  }

  /** r is the sum of the operands as they were cut, cut once more and compressed. */
  ghost predicate IsCutSum(a: SafeNumber, b: SafeNumber, r: SafeNumber)
    requires a.e <= 16 && b.e <= 16
  {
    var m := Max(a.e, b.e);
    var t := Cut(a, m) + Cut(b, m);
    exists sign: bool, x: U128 ::
      Val(x) == Abs(t) % B128 && (t != 0 ==> sign == (t > 0)) && IsCompressed(SafeNumber(true, sign, x, m), r)
  }

  /** safe_number_add: a zero operand gives the other one.  The aligned operands and their sum are cut to 128
      bits; so the sum is exact, up to the truncation of the canonical form, if and only if they fit. */
  method Sum(a: SafeNumber, b: SafeNumber) returns (r: SafeNumber)
    requires a.valid ==> Canonical(a)
    requires b.valid ==> Canonical(b)
    ensures !a.valid || !b.valid ==> r == a
    ensures a.valid && b.valid && Val(b.x) == 0 ==> r == a
    ensures a.valid && b.valid && Val(a.x) == 0 && Val(b.x) != 0 ==> r == b
    ensures a.valid && b.valid && Val(a.x) != 0 && Val(b.x) != 0 ==>
      IsCutSum(a, b, r) && (IsSum(a, b, r) <==> Aligned(a, b))
  {
    if !a.valid || !b.valid {
      return a;
    }
    if IsZero(b.x) {
      return a;
    }
    if IsZero(a.x) {
      return b;
    }
    var m := Max(a.e, b.e);
    var ax := ScaledBy(a.x, m - a.e);
    var bx := ScaledBy(b.x, m - b.e);
    var sign, x := SignedSum(a.sign, ax, b.sign, bx);
    r := Create(sign, x, m);
    CutDone(a, b, Val(ax), Val(bx), sign, x, m, r);
  }

  /** 10^38 + 0.1: brought to one place, the first operand passes 2^128. */
  method WrongSum() returns (a: SafeNumber, b: SafeNumber, r: SafeNumber)
    ensures Canonical(a) && Canonical(b) && Val(a.x) == 1_000_000 * LARGEST && a.e == 0 && Val(b.x) == 1 && b.e == 1
    ensures !Aligned(a, b) && !IsSum(a, b, r)
  {
    a := SafeNumber(true, true, Of(1_000_000 * LARGEST), 0);
    b := SafeNumber(true, true, Of(1), 1);
    assert Scale(1_000_000 * LARGEST, 1) == 10 * Scale(1_000_000 * LARGEST, 0) == 10_000_000 * LARGEST;
    assert Abs(Signed(a, 1)) >= B128;
    r := Sum(a, b);
  }

  lemma CutDone(a: SafeNumber, b: SafeNumber, ax: nat, bx: nat, sign: bool, x: U128, m: U32, r: SafeNumber)
    requires a.e <= 16 && b.e <= 16 && m == Max(a.e, b.e) && IsCompressed(SafeNumber(true, sign, x, m), r)
    requires ax == Scale(Val(a.x), m - a.e) % B128 && bx == Scale(Val(b.x), m - b.e) % B128
    requires var t := Sgn(a.sign, ax) + Sgn(b.sign, bx); Val(x) == Abs(t) % B128 && (t != 0 ==> sign == (t > 0))
    requires Canonical(a) && Canonical(b)
    ensures IsCutSum(a, b, r) && (IsSum(a, b, r) <==> Aligned(a, b))
  {
    assert IsCutSum(a, b, r);
    if !Aligned(a, b) {
      CutLost(a, b, r);
    } else {
      CutKept(a, b, Cut(a, m) + Cut(b, m), sign, x, m, r);
    }
  }

  lemma CutKept(a: SafeNumber, b: SafeNumber, t: int, sign: bool, x: U128, m: U32, r: SafeNumber)
    requires a.e <= 16 && b.e <= 16 && m == Max(a.e, b.e) && IsCompressed(SafeNumber(true, sign, x, m), r)
    requires t == Cut(a, m) + Cut(b, m) && Val(x) == Abs(t) % B128 && (t != 0 ==> sign == (t > 0))
    requires Canonical(a) && Canonical(b) && Aligned(a, b)
    ensures IsSum(a, b, r)
  {
    Uncut(a, m);
    Uncut(b, m);
    DivModIs(Abs(t), B128, 0, Abs(t));
    SumDone(a, b, sign, x, m, r);
  }

  lemma Uncut(n: SafeNumber, m: nat)
    requires n.e <= m && Abs(Signed(n, m)) < B128
    ensures Cut(n, m) == Signed(n, m)
  {
    DivModIs(Scale(Val(n.x), m - n.e), B128, 0, Scale(Val(n.x), m - n.e));
  }

  // What is cut is at least 2^128, and what is truncated is less than 10^16.

  const SMALL: nat := 10_000_000_000_000_000

  /** A number and its truncation, in units of 10^-m. */
  lemma Truncated(v: nat, m: nat, x: nat, e: nat, k: nat)
    requires Truncates(v, m, x, e, k) && m <= 16
    ensures Scale(x, m - e) <= v < Scale(x, m - e) + SMALL
  {
    DropIs(v, m - k);
    ScaleIs(Drop(v, m - k), m - k);
    ScaleScale(x, k - e, m - k);
    PowMono(10, m - k, 16);
    TenTo19();
    DropRange(v, Pow(10, m - k), Drop(v, m - k));
  }

  lemma DropRange(v: nat, p: nat, q: nat)
    requires p > 0 && q == v / p
    ensures q * p <= v < q * p + p
  {
    DivModIs(v, p, q, v % p);
  }

  /** b' is b without its bits from 2^128 on. */
  predicate IsCutTo(b: int, b': int, q: nat) {
    if b >= 0 then b == b' + q * B128 && 0 <= b' < B128 else b == b' - q * B128 && 0 <= -b' < B128
  }

  /** Two magnitudes less than 10^16 apart. */
  predicate Near(x: nat, y: nat) {
    x < y + SMALL && y < x + SMALL
  }

  /** When an operand was cut, the exact sum a + b and the magnitude x of what is computed are not near, or are
      not both small and differ in sign. */
  lemma OperandLost(a: int, b: int, b': int, q: nat, x: nat)
    requires Abs(a) < B128 && IsCutTo(b, b', q) && q > 0
    requires x < B128 && (Abs(a + b') == x || Abs(a + b') == x + B128)
    ensures Near(Abs(a + b), x) ==> (a + b > 0) != (a + b' > 0) && (Abs(a + b) >= SMALL || x >= SMALL)
  {
  }

  lemma Remainder(v: nat, x: nat)
    requires v < 2 * B128 && x == v % B128
    ensures v == x || v == x + B128
  {
    DivModIs(v, B128, v / B128, x);
  }

  /** The same for the sum. */
  lemma Lost(a: int, a': int, qa: nat, b: int, b': int, qb: nat, x: nat)
    requires IsCutTo(a, a', qa) && IsCutTo(b, b', qb) && (qa == 0 || qb == 0)
    requires qa > 0 || qb > 0 || Abs(a + b) >= B128
    requires x == Abs(a' + b') % B128
    ensures Near(Abs(a + b), x) ==> (a + b > 0) != (a' + b' > 0) && (Abs(a + b) >= SMALL || x >= SMALL)
  {
    Remainder(Abs(a' + b'), x);
    if qa > 0 {
      OperandLost(b, a, a', qa, x);
    } else if qb > 0 {
      OperandLost(a, b, b', qb, x);
    }
  }

  lemma CutIs(n: SafeNumber, m: nat) returns (q: nat)
    requires n.e <= m
    ensures IsCutTo(Signed(n, m), Cut(n, m), q) && (q > 0 <==> Abs(Signed(n, m)) >= B128)
  {
    var v := Scale(Val(n.x), m - n.e);
    q := v / B128;
    DivModIs(v, B128, q, v % B128);
  }

  /** What a number that is compressed to r tells of the number. */
  lemma NearResult(v: nat, m: nat, r: SafeNumber)
    requires r.e <= m <= 16 && Truncates(v, m, Val(r.x), r.e, Places(v, m))
    ensures Scale(Val(r.x), m - r.e) <= v < Scale(Val(r.x), m - r.e) + SMALL
    ensures if Val(r.x) == 0 then v < SMALL else v > 0
  {
    Truncated(v, m, Val(r.x), r.e, Places(v, m));
    ScaleZero(m - r.e);
    ScaleGrows(Val(r.x), m - r.e);
  }

  lemma CutFar(a: SafeNumber, b: SafeNumber, m: nat, x: nat)
    requires a.e <= m && b.e <= m && m == Max(a.e, b.e) && !Aligned(a, b) && x == Abs(Cut(a, m) + Cut(b, m)) % B128
    ensures var t, c := Signed(a, m) + Signed(b, m), Cut(a, m) + Cut(b, m);
      Near(Abs(t), x) ==> (t > 0) != (c > 0) && (Abs(t) >= SMALL || x >= SMALL)
  {
    var qa := CutIs(a, m);
    var qb := CutIs(b, m);
    UncutOne(a, m);
    UncutOne(b, m);
    Lost(Signed(a, m), Cut(a, m), qa, Signed(b, m), Cut(b, m), qb, x);
  }

  /** An operand that has all the places fits. */
  lemma UncutOne(n: SafeNumber, m: nat)
    requires n.e <= m
    ensures n.e == m ==> Abs(Signed(n, m)) < B128
  {
  }

  lemma CutLost(a: SafeNumber, b: SafeNumber, r: SafeNumber)
    requires Canonical(a) && Canonical(b) && IsCutSum(a, b, r) && !Aligned(a, b)
    ensures !IsSum(a, b, r)
  {
    var m := Max(a.e, b.e);
    var sign: bool, x: U128 :|
      var c := Cut(a, m) + Cut(b, m);
      Val(x) == Abs(c) % B128 && (c != 0 ==> sign == (c > 0)) && IsCompressed(SafeNumber(true, sign, x, m), r);
    CutFar(a, b, m, Val(x));
    CutFails(Signed(a, m) + Signed(b, m), Cut(a, m) + Cut(b, m), m, sign, x, r);
  }

  lemma CutFails(t: int, c: int, m: U32, sign: bool, x: U128, r: SafeNumber)
    requires m <= 16 && IsCompressed(SafeNumber(true, sign, x, m), r)
    requires Val(x) == Abs(c) % B128 && (c != 0 ==> sign == (c > 0))
    requires Near(Abs(t), Val(x)) ==> (t > 0) != (c > 0) && (Abs(t) >= SMALL || Val(x) >= SMALL)
    ensures !(Truncates(Abs(t), m, Val(r.x), r.e, Places(Abs(t), m)) && (Val(r.x) != 0 ==> r.sign == (t > 0)))
  {
    NearResult(Val(x), m, r);
    if Truncates(Abs(t), m, Val(r.x), r.e, Places(Abs(t), m)) {
      NearResult(Abs(t), m, r);
    }
  }

  lemma SumDone(a: SafeNumber, b: SafeNumber, sign: bool, x: U128, m: U32, r: SafeNumber)
    requires m == Max(a.e, b.e) && IsCompressed(SafeNumber(true, sign, x, m), r)
    requires var t := Signed(a, m) + Signed(b, m); Val(x) == Abs(t) && (t != 0 ==> sign == (t > 0))
    ensures IsSum(a, b, r)
  {
    var k := Places(Val(x), m);
    ScaleZero(m - k);
    ScaleIs(Val(r.x), k - r.e);
  }

  lemma SmallMod(x: nat, y: nat)
    requires x < B128 && y < B128
    ensures x >= y ==> (x - y) % B128 == x - y
    ensures x <= y ==> (y - x) % B128 == y - x
    ensures x + y < B128 ==> (x + y) % B128 == x + y
  {
    if x >= y {
      DivModIs(x - y, B128, 0, x - y);
    }
    if x <= y {
      DivModIs(y - x, B128, 0, y - x);
    }
    if x + y < B128 {
      DivModIs(x + y, B128, 0, x + y);
    }
  }

  /** Sum of two signed magnitudes, modulo 2^128. */
  method SignedSum(s: bool, x: U128, s': bool, x': U128) returns (sign: bool, r: U128)
    ensures var t := Sgn(s, Val(x)) + Sgn(s', Val(x'));
      && (Abs(t) < B128 ==> Val(r) == Abs(t))
      && Val(r) == Abs(t) % B128 && (t != 0 ==> sign == (t > 0))
  {
    SmallMod(Val(x), Val(x'));
    if s != s' {
      if Gt(x, x') {
        return s, Minus(x, x');
      } else if Eq(x, x') {
        return true, Small(0);
      } else {
        return s', Minus(x', x);
      }
    } else {
      return s, Add(x, x');
    }
  }

  // ---------- 64-bit integers ----------

  /** (int64_t)w << 1 >> 1: the low 63 bits, the highest of them taken as a sign. */
  function Narrow(w: Word): int {
    var m := w % 0x8000_0000_0000_0000;
    if m >= 0x4000_0000_0000_0000 then m - 0x8000_0000_0000_0000 else m
  }

  /** safe_number_create(int64_t) */
  method OfInt(v: int) returns (r: SafeNumber)
    requires -0x8000_0000_0000_0000 <= v < 0x8000_0000_0000_0000
    ensures Canonical(r) && r.e == 0 && Val(r.x) == Abs(v) && r.sign == (v >= 0)
  {
    var n := SafeNumber(true, v >= 0, Small(Abs(v)), 0);
    r := Compress(n);
    CompressCanonical(n, r);
  }

  /** safe_number_to_int64 is the integer part, exactly when that is below 2^62. */
  method ToInt64(a: SafeNumber) returns (r: int)
    requires a.valid ==> Canonical(a)
    ensures !a.valid ==> r == 0
    ensures a.valid ==>
      (r == (if a.sign then Drop(Val(a.x), a.e) as int else -(Drop(Val(a.x), a.e) as int)) <==>
        Drop(Val(a.x), a.e) < 0x4000_0000_0000_0000)
    ensures a.valid ==> r == Sgn(a.sign, Narrow(Drop(Val(a.x), a.e) % B64))
  {
    if !a.valid {
      return 0;
    }
    DropIs(Val(a.x), a.e);
    ScaleZero(a.e);
    if IsZero(a.x) {
      return 0;
    }
    var p := a.x;
    if a.e > 0 {
      var q;
      p, q := SplitAt(a.x, a.e);
    }
    NarrowIs(p);
    LowWord(p);
    var tmp := Narrow(p.low);
    return if a.sign then tmp else -tmp;
  }

  lemma LowWord(p: U128)
    ensures Val(p) % B64 == p.low
  {
    ValIs(p);
    DivModIs(Val(p), B64, p.big, p.low);
  }

  lemma NarrowIs(p: U128)
    ensures Narrow(p.low) == Val(p) <==> Val(p) < 0x4000_0000_0000_0000
  {
    ValIs(p);
    if p.big == 0 && p.low < 0x4000_0000_0000_0000 {
      DivModIs(p.low, 0x8000_0000_0000_0000, 0, p.low);
    }
  }
}
