/**
  Decimal scaling of natural numbers: dropping digits and appending zeros.
 */
module Decimal {
  import opened Arith

  /** x without its n last decimal digits. */
  function Drop(x: nat, n: nat): nat {
    if n == 0 then x else Drop(x, n - 1) / 10
  }

  /** x with n zeros after it. */
  function Scale(x: nat, n: nat): nat {
    if n == 0 then x else 10 * Scale(x, n - 1)
  }

  lemma {:induction false} DropIs(x: nat, n: nat)
    ensures Pow(10, n) > 0 && Drop(x, n) == x / Pow(10, n) && Drop(x, n) <= x
  {
    PowPos(10, n);
    if n > 0 {
      DropIs(x, n - 1);
      DivDiv(x, Pow(10, n - 1), 10);
    }
  }

  lemma {:induction false} ScaleIs(x: nat, n: nat)
    ensures Scale(x, n) == x * Pow(10, n) && Scale(x, n) >= x
  {
    if n > 0 {
      ScaleIs(x, n - 1);
    }
  }

  lemma ScaleGrows(x: nat, n: nat)
    ensures Scale(x, n) >= x
  {
    ScaleIs(x, n);
  }

  lemma {:induction false} DropDrop(x: nat, m: nat, n: nat)
    ensures Drop(Drop(x, m), n) == Drop(x, m + n)
  {
    if n > 0 {
      DropDrop(x, m, n - 1);
    }
  }

  lemma {:induction false} ScaleScale(x: nat, m: nat, n: nat)
    ensures Scale(Scale(x, m), n) == Scale(x, m + n)
  {
    if n > 0 {
      ScaleScale(x, m, n - 1);
    }
  }

  /** The first digit dropped, or the first zero appended, may be taken on the inside. */
  lemma {:induction false} DropFirst(x: nat, n: nat)
    ensures Drop(x, n + 1) == Drop(x / 10, n)
  {
    if n > 0 {
      DropFirst(x, n - 1);
    }
  }

  lemma {:induction false} ScaleFirst(x: nat, n: nat)
    ensures Scale(x, n + 1) == Scale(10 * x, n)
  {
    if n > 0 {
      ScaleFirst(x, n - 1);
    }
  }

  lemma {:induction false} DropScale(x: nat, n: nat)
    ensures Drop(Scale(x, n), n) == x
  {
    if n > 0 {
      ScaleFirst(x, n - 1);
      DropFirst(Scale(x, n), n - 1);
      DropScale(x, n - 1);
    }
  }

  lemma {:induction false} ScaleDrop(x: nat, n: nat)
    ensures Scale(Drop(x, n), n) <= x
  {
    if n > 0 {
      ScaleFirst(Drop(x, n), n - 1);
      ScaleMono(10 * Drop(x, n), Drop(x, n - 1), n - 1);
      ScaleDrop(x, n - 1);
    }
  }

  lemma {:induction false} ScaleMono(x: nat, y: nat, n: nat)
    requires x <= y
    ensures Scale(x, n) <= Scale(y, n)
    ensures x < y ==> Scale(x, n) < Scale(y, n)
  {
    if n > 0 {
      ScaleMono(x, y, n - 1);
    }
  }

  lemma {:induction false} DropMono(x: nat, y: nat, n: nat)
    requires x <= y
    ensures Drop(x, n) <= Drop(y, n)
  {
    if n > 0 {
      DropMono(x, y, n - 1);
    }
  }

  lemma {:induction false} ScaleInj(x: nat, y: nat, n: nat)
    requires Scale(x, n) == Scale(y, n)
    ensures x == y
  {
    if n > 0 {
      ScaleInj(x, y, n - 1);
    }
  }

  /** Two ways of writing the same number, neither ending in a needless zero, are the same. */
  lemma SameScale(x: nat, m: nat, y: nat, n: nat)
    requires Scale(x, m) == Scale(y, n) && m <= n
    requires m < n ==> x % 10 != 0
    ensures m == n && x == y
  {
    ScaleScale(y, n - m, m);
    ScaleInj(x, Scale(y, n - m), m);
    if m < n {
      ScaleEnds(y, n - m);
    }
  }

  lemma ScaleEnds(x: nat, n: nat)
    requires n > 0
    ensures Scale(x, n) % 10 == 0
  {
    TenfoldEnds(Scale(x, n - 1));
  }

  lemma TenfoldEnds(x: nat)
    ensures (10 * x) % 10 == 0
  {
  }

  lemma {:induction false} ScaleTimes(x: nat, y: nat, n: nat)
    ensures Scale(x * y, n) == Scale(x, n) * y
  {
    ScaleIs(x * y, n);
    ScaleIs(x, n);
    assert (x * y) * Pow(10, n) == (x * Pow(10, n)) * y;
  }

  lemma {:induction false} ScaleAdd(x: nat, y: nat, n: nat)
    ensures Scale(x + y, n) == Scale(x, n) + Scale(y, n)
  {
    if n > 0 {
      ScaleAdd(x, y, n - 1);
    }
  }

  lemma {:induction false} ScaleZero(n: nat)
    ensures Scale(0, n) == 0 && Drop(0, n) == 0
  {
    if n > 0 {
      ScaleZero(n - 1);
    }
  }
}
