/**
  256-bit unsigned integers made of two 128-bit ones (src/safenumber/safenumber.cpp:287-430, 480-498).
 */
module Uint256 {
  import opened Locks
  import opened Arith
  import opened Uint128
  import opened Limbs
  import opened Multi128

  /** 2^256 */
  const B256: nat := 0x1_0000_0000_0000_0000_0000_0000_0000_0000_0000_0000_0000_0000_0000_0000_0000_0000

  datatype U256 = U256(big: U128, low: U128)

  ghost predicate IsWide(a: U256, n: nat) {
    forall k: nat {:trigger Key(k)} :: Open(k) ==> n == Val(a.big) * B128 + Val(a.low)
  }

  lemma HasWide(a: U256) returns (n: nat)
    ensures n < B256 && IsWide(a, n)
  {
    n := Val(a.big) * B128 + Val(a.low);
  }

  /** The number a stands for: see WideIs. */
  ghost function Wide(a: U256): (n: nat)
    ensures n < B256
  {
    assert exists n: nat :: n < B256 && IsWide(a, n) by { var n := HasWide(a); }
    var n: nat :| n < B256 && IsWide(a, n);
    n
  }

  lemma WideIs(a: U256)
    ensures Wide(a) == Val(a.big) * B128 + Val(a.low)
  {
    assert Key(0) && Open(0);
    assert IsWide(a, Wide(a));
  }

  function SmallWide(x: Word): (a: U256)
    ensures Wide(a) == x
  {
    WideIs(U256(Small(0), Small(x)));
    U256(Small(0), Small(x))
  }

  function Widened(x: U128): (a: U256)
    ensures Wide(a) == Val(x)
  {
    WideIs(U256(Small(0), x));
    U256(Small(0), x)
  }

  predicate IsZeroWide(a: U256)
    ensures IsZeroWide(a) <==> Wide(a) == 0
  {
    WideIs(a);
    IsZero(a.big) && IsZero(a.low)
  }

  predicate GtWide(a: U256, b: U256)
    ensures GtWide(a, b) <==> Wide(a) > Wide(b)
  {
    WideIs(a);
    WideIs(b);
    if Eq(a.big, b.big) then Gt(a.low, b.low) else Gt(a.big, b.big)
  }

  predicate EqWide(a: U256, b: U256)
    ensures EqWide(a, b) <==> Wide(a) == Wide(b)
  {
    WideIs(a);
    WideIs(b);
    Eq(a.big, b.big) && Eq(a.low, b.low)
  }

  predicate GeWide(a: U256, b: U256)
    ensures GeWide(a, b) <==> Wide(a) >= Wide(b)
  {
    GtWide(a, b) || EqWide(a, b)
  }

  /** Sum modulo 2^256. */
  function AddWide(a: U256, b: U256): (r: U256)
    ensures Wide(r) == if Wide(a) + Wide(b) >= B256 then Wide(a) + Wide(b) - B256 else Wide(a) + Wide(b)
  {
    var low := Add(a.low, b.low);
    var r := U256(Add(Add(a.big, b.big), Small(if Lt(low, a.low) then 1 else 0)), low);
    WideIs(a);
    WideIs(b);
    WideIs(r);
    r
  }

  /** The difference is exact as long as the lower halves do not borrow: the borrow is passed up as the
      64-bit word -1, that is 2^64 - 1, instead of being subtracted. */
  function MinusWide(a: U256, b: U256): (r: U256)
    ensures Wide(a) >= Wide(b) && Val(a.low) >= Val(b.low) ==> Wide(r) == Wide(a) - Wide(b)
    ensures Wide(a) >= Wide(b) && Val(a.low) < Val(b.low) ==> Wide(r) != Wide(a) - Wide(b)
  {
    var low := Minus(a.low, b.low);
    var r := U256(Add(Minus(a.big, b.big), Small(if Gt(low, a.low) then 0xffff_ffff_ffff_ffff else 0)), low);
    WideIs(a);
    WideIs(b);
    WideIs(r);
    r
  }

  /** For any operands, a borrow of the lower halves leaves 2^192 too much, modulo 2^256. */
  lemma MinusWideIs(a: U256, b: U256)
    ensures Wide(MinusWide(a, b)) == (Wide(a) - Wide(b) + (if Val(a.low) < Val(b.low) then B64 * B128 else 0)) % B256
  {
    var r := MinusWide(a, b);
    var borrow := Val(a.low) < Val(b.low);
    var h := Val(a.big) - Val(b.big);
    var h1 := if h < 0 then h + B128 else h;
    var h2 := if borrow then h1 + B64 - 1 else h1;
    var k := (if h < 0 then 1 else 0) - (if h2 >= B128 then 1 else 0);
    WideIs(a);
    WideIs(b);
    WideIs(r);
    DivModIs(Wide(a) - Wide(b) + (if borrow then B64 * B128 else 0), B256, -k, Wide(r));
  }

  function ShiftLeftWide(a: U256, shift: nat): U256 {
    if shift >= 256 then U256(Small(0), Small(0))
    else if shift == 128 then U256(a.low, Small(0))
    else if shift == 0 then a
    else if shift < 128 then U256(Add(ShiftLeft(a.big, shift), ShiftRight(a.low, 128 - shift)), ShiftLeft(a.low, shift))
    else U256(ShiftLeft(a.low, shift - 128), Small(0))
  }

  function ShiftRightWide(a: U256, shift: nat): U256 {
    if shift >= 256 then U256(Small(0), Small(0))
    else if shift == 128 then U256(Small(0), a.big)
    else if shift == 0 then a
    else if shift < 128 then U256(ShiftRight(a.big, shift),
      Add(ShiftLeft(a.big, 128 - shift), ShiftRight(a.low, shift)))
    else U256(Small(0), ShiftRight(a.big, shift - 128))
  }

  function BitAndWide(a: U256, b: U256): U256 {
    U256(BitAnd(a.big, b.big), BitAnd(a.low, b.low))
  }
}
