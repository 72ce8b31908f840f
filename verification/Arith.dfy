/**
  Facts about powers, division and bits of natural numbers.
 */
module Arith {
  function Pow(b: nat, k: nat): nat {
    if k == 0 then 1 else b * Pow(b, k - 1)
  }

  lemma MulMono(x: int, y: int, m: int)
    requires x <= y && m >= 0
    ensures x * m <= y * m
  {
    assert (y - x) * m >= 0;
  }

  lemma MulCancel(x: int, y: int, m: int)
    requires x * m < y * m && m >= 0
    ensures x < y
  {
    assert x >= y ==> (x - y) * m >= 0;
  }

  lemma {:induction false} PowPos(b: nat, k: nat)
    requires b >= 1
    ensures Pow(b, k) >= 1
  {
    if k > 0 {
      PowPos(b, k - 1);
      MulMono(1, b, Pow(b, k - 1));
    }
  }

  lemma {:induction false} PowAdd(b: nat, j: nat, k: nat)
    ensures Pow(b, j + k) == Pow(b, j) * Pow(b, k)
  {
    if j > 0 {
      PowAdd(b, j - 1, k);
      MulAssoc(b, Pow(b, j - 1), Pow(b, k));
    }
  }

  lemma MulAssoc(x: int, y: int, z: int)
    ensures x * (y * z) == (x * y) * z
  {
  }

  lemma {:induction false} PowMono(b: nat, j: nat, k: nat)
    requires b >= 1 && j <= k
    ensures 1 <= Pow(b, j) <= Pow(b, k)
  {
    if j < k {
      PowMono(b, j, k - 1);
      MulMono(1, b, Pow(b, k - 1));
    } else {
      PowPos(b, j);
    }
  }

  lemma DivModIs(a: int, m: int, q: int, r: int)
    requires m > 0 && a == q * m + r && 0 <= r < m
    ensures a / m == q && a % m == r
  {
    var d := a / m - q;
    assert a == (a / m) * m + a % m;
    assert (a / m) * m - q * m == d * m;
    assert -m < d * m < m;
    MulCancel(d, 1, m);
    MulCancel(-1, d, m);
  }

  /** A multiple of m added changes no remainder. */
  lemma ModPlus(a: int, k: int, m: int)
    requires m > 0
    ensures (a + k * m) % m == a % m && (a + k * m) / m == a / m + k
  {
    assert a == (a / m) * m + a % m;
    assert a + k * m == (a / m + k) * m + a % m by {
      assert (a / m + k) * m == (a / m) * m + k * m;
    }
    DivModIs(a + k * m, m, a / m + k, a % m);
  }

  lemma {:induction false} DivDiv(a: nat, m: nat, n: nat)
    requires m > 0 && n > 0
    ensures m * n > 0 && (a / m) / n == a / (m * n)
  {
    var q := a / m;
    assert a == q * m + a % m;
    assert q == (q / n) * n + q % n;
    var r := (q % n) * m + a % m;
    assert (q % n) * m <= (n - 1) * m;
    assert r < n * m by { assert (n - 1) * m == n * m - m; }
    assert a == (q / n) * (m * n) + r by {
      assert q * m == ((q / n) * n) * m + (q % n) * m by { assert q * m == ((q / n) * n + q % n) * m; }
      assert ((q / n) * n) * m == (q / n) * (m * n);
    }
    assert m * n > 0;
    DivModIs(a, m * n, q / n, r);
  }

  lemma DivMono(a: nat, b: nat, m: nat)
    requires a <= b && m > 0
    ensures a / m <= b / m
  {
    assert (b / m + 1) * m == (b / m) * m + m;
    MulCancel(a / m, b / m + 1, m);
  }

  lemma DivLess(a: nat, m: nat, n: nat)
    requires m > 0 && a < m * n
    ensures a / m < n
  {
    MulCancel(a / m, n, m);
  }

  /** The low part of a multiple of p. */
  lemma ScaledMod(a: nat, p: nat, q: nat)
    requires p > 0 && q > 0
    ensures p * q > 0 && (a * p) % (p * q) == p * (a % q) && (a * p) / (p * q) == a / q
  {
    assert a == (a / q) * q + a % q;
    assert a * p == (a / q) * (p * q) + p * (a % q) by {
      assert a * p == ((a / q) * q) * p + (a % q) * p by { assert a * p == ((a / q) * q + a % q) * p; }
      assert ((a / q) * q) * p == (a / q) * (p * q);
    }
    assert p * q > 0;
    assert p * (a % q) <= p * (q - 1);
    assert p * (q - 1) == p * q - p;
    assert 0 <= p * (a % q);
    DivModIs(a * p, p * q, a / q, p * (a % q));
  }

  // ---------- quotients ----------

  /** x * y, by repeated addition.  Where products of variables are only carried along, this form keeps the
      solver from doing algebra on them. */
  function Times(x: nat, y: nat): nat {
    if x == 0 then 0 else Times(x - 1, y) + y
  }

  lemma {:induction false} TimesIs(x: nat, y: nat)
    ensures Times(x, y) == x * y
  {
    if x > 0 {
      TimesIs(x - 1, y);
      assert (x - 1) * y == x * y - y;
    }
  }

  /** q and r are quotient and remainder of a by b. */
  predicate IsQuotient(a: nat, b: nat, q: nat, r: nat) {
    a == Times(q, b) + r && r < b
  }

  lemma QuotientMeans(a: nat, b: nat, q: nat, r: nat)
    ensures IsQuotient(a, b, q, r) <==> b > 0 && q == a / b && r == a % b
  {
    TimesIs(q, b);
    if a == q * b + r && 0 <= r < b {
      DivModIs(a, b, q, r);
    } else if b > 0 {
      assert a == (a / b) * b + a % b;
    }
  }

  /** x / y and x % y by subtracting: recursive, so that proofs see through it only where they say so. */
  function Quot(x: nat, y: nat): nat
    requires y > 0
  {
    if x < y then 0 else Quot(x - y, y) + 1
  }

  function Rem(x: nat, y: nat): nat
    requires y > 0
  {
    if x < y then x else Rem(x - y, y)
  }

  lemma {:induction false} QuotIs(x: nat, y: nat)
    requires y > 0
    ensures Quot(x, y) == x / y && Rem(x, y) == x % y
  {
    if x < y {
      DivModIs(x, y, 0, x);
    } else {
      QuotIs(x - y, y);
      ModPlus(x - y, 1, y);
    }
  }

  lemma QuotientIs(a: nat, b: nat, q: nat, r: nat)
    requires b > 0
    ensures IsQuotient(a, b, q, r) <==> q == Quot(a, b) && r == Rem(a, b)
  {
    QuotientMeans(a, b, q, r);
    QuotIs(a, b);
  }


  /** n without its x lowest bits. */
  function Prefix(n: nat, x: nat): nat {
    if x == 0 then n else Prefix(n, x - 1) / 2
  }

  lemma {:induction false} PrefixIs(n: nat, x: nat)
    ensures Pow(2, x) > 0 && Prefix(n, x) == n / Pow(2, x) && Prefix(n, x) <= n
  {
    PowPos(2, x);
    if x > 0 {
      PrefixIs(n, x - 1);
      DivDiv(n, Pow(2, x - 1), 2);
    }
  }

  // ---------- bits ----------

  function And(x: nat, y: nat): nat {
    if x == 0 || y == 0 then 0 else 2 * And(x / 2, y / 2) + (if x % 2 == 1 && y % 2 == 1 then 1 else 0)
  }

  function Or(x: nat, y: nat): nat {
    if x == 0 && y == 0 then 0 else 2 * Or(x / 2, y / 2) + (if x % 2 == 1 || y % 2 == 1 then 1 else 0)
  }

  lemma {:induction false} AndBound(x: nat, y: nat)
    ensures And(x, y) <= x && And(x, y) <= y
  {
    if x != 0 && y != 0 {
      AndBound(x / 2, y / 2);
    }
  }

  lemma HalfMod(x: nat, m: nat)
    requires m > 0
    ensures 2 * ((x / 2) % m) + x % 2 == x % (2 * m)
  {
    var h := x / 2;
    assert h == (h / m) * m + h % m;
    assert x == (h / m) * (2 * m) + (2 * (h % m) + x % 2) by {
      assert (h / m) * (2 * m) == 2 * ((h / m) * m);
    }
    DivModIs(x, 2 * m, h / m, 2 * (h % m) + x % 2);
  }

  /** Masking with k ones keeps the low k bits. */
  lemma {:induction false} AndMask(x: nat, k: nat)
    ensures Pow(2, k) >= 1 && And(x, Pow(2, k) - 1) == x % Pow(2, k)
  {
    PowPos(2, k);
    if k == 0 {
    } else if x == 0 {
    } else {
      var p := Pow(2, k - 1);
      PowPos(2, k - 1);
      AndMask(x / 2, k - 1);
      AndStep(x, p);
    }
  }

  lemma AndStep(x: nat, p: nat)
    requires x > 0 && p > 0 && And(x / 2, p - 1) == (x / 2) % p
    ensures And(x, 2 * p - 1) == x % (2 * p)
  {
    HalfMod(x, p);
    AndHalf(x, p);
  }

  lemma AndHalf(x: nat, p: nat)
    requires x > 0 && p > 0
    ensures And(x, 2 * p - 1) == 2 * And(x / 2, p - 1) + x % 2
  {
    var y := 2 * p - 1;
    assert y / 2 == p - 1 && y % 2 == 1;
  }

  lemma {:induction false} OrZero(x: nat)
    ensures Or(x, 0) == x
  {
    if x > 0 {
      OrZero(x / 2);
    }
  }

  /** Bits that do not overlap add up. */
  lemma {:induction false} OrDisjoint(h: nat, l: nat, k: nat)
    requires l < Pow(2, k)
    ensures Or(h * Pow(2, k), l) == h * Pow(2, k) + l
  {
    if k == 0 {
      OrZero(h);
    } else {
      var x := h * Pow(2, k);
      var p := Pow(2, k - 1);
      assert x == 2 * (h * p) by { assert h * (2 * p) == 2 * (h * p); }
      assert x / 2 == h * p && x % 2 == 0;
      OrDisjoint(h, l / 2, k - 1);
      if x == 0 && l == 0 {
      } else {
        assert Or(x, l) == 2 * Or(h * p, l / 2) + l % 2;
      }
    }
  }
}
