/**
  The contracts' int64_t: sums that pass 64 bits wrap around, as two's complement does.
 */
module Signed64 {
  const TWO64: int := 0x1_0000_0000_0000_0000

  predicate Fits64(x: int) {
    -0x8000_0000_0000_0000 <= x < 0x8000_0000_0000_0000
  }

  type Int64 = x: int | Fits64(x)

  /** The 64-bit integer that is x modulo 2^64. */
  function Wrap64(x: int): (r: int)
    ensures Fits64(r) && (Fits64(x) <==> r == x)
    decreases if x < 0 then -x - 1 else x
  {
    if Fits64(x) then x else if x < 0 then Wrap64(x + TWO64) else Wrap64(x - TWO64)
  }

  lemma {:induction false} WrapIsMod(x: int)
    ensures Wrap64(x) == (x + 0x8000_0000_0000_0000) % TWO64 - 0x8000_0000_0000_0000
    decreases if x < 0 then -x - 1 else x
  {
    if !Fits64(x) {
      WrapIsMod(if x < 0 then x + TWO64 else x - TWO64);
    }
  }

  /** How often x wraps around. */
  lemma {:induction false} Wraps(x: int) returns (w: int)
    ensures Wrap64(x) == x + TWO64 * w
    decreases if x < 0 then -x - 1 else x
  {
    if Fits64(x) {
      w := 0;
    } else if x < 0 {
      w := Wraps(x + TWO64);
      w := w + 1;
    } else {
      w := Wraps(x - TWO64);
      w := w - 1;
    }
  }

  /** Numbers that differ by a multiple of 2^64 are one in 64 bits. */
  lemma WrapSame(x: int, y: int, w: int)
    requires x == y + TWO64 * w
    ensures Wrap64(x) == Wrap64(y)
  {
    var u := Wraps(x);
    var v := Wraps(y);
    assert Wrap64(x) == Wrap64(y) + TWO64 * (w + u - v);
  }

  /** A sum may be cut at every step or once at the end. */
  lemma WrapSum(x: int, y: int)
    ensures Wrap64(Wrap64(x) + y) == Wrap64(x + y)
  {
    var w := Wraps(x);
    WrapSame(Wrap64(x) + y, x + y, w);
  }

  lemma WrapNegated(x: int)
    ensures Wrap64(-Wrap64(x)) == Wrap64(-x)
  {
    var w := Wraps(x);
    WrapSame(-Wrap64(x), -x, -w);
  }
}
