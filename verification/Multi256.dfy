/**
  The 256-bit product modulo 2^256 (src/safenumber/safenumber.cpp:337-384).
 */
module Multi256 {
  import opened Arith
  import opened Uint128
  import opened Uint256
  import opened Limbs
  import opened Multi128

  /** Exact 128-bit product. */
  method Product(a: U128, b: U128) returns (r: U128)
    requires Times(Val(a), Val(b)) < B128
    ensures Val(r) == Times(Val(a), Val(b))
  {
    TimesIs(Val(a), Val(b));
    r := Multi(a, b);
    DivModIs(Val(a) * Val(b), B128, 0, Val(a) * Val(b));
  }

  /** x >> 64 */
  function High(x: U128): (r: U128)
    ensures Val(r) == x.big
  {
    ValIs(Small(x.big));
    ShiftRight(x, 64)
  }

  /** x & (2^64 - 1) */
  function Low(x: U128): (r: U128)
    ensures Val(r) == x.low
  {
    MaskWord(x.low);
    var r := BitAnd(x, U128(0, 0xffff_ffff_ffff_ffff));
    ValIs(r);
    assert And(x.big, 0) == 0;
    r
  }

  lemma MaskWord(x: Word)
    ensures And(x, 0xffff_ffff_ffff_ffff) == x
  {
    Pow64();
    AndMask(x, 64);
    DivModIs(x, Pow(2, 64), 0, x);
  }

  /** (x << 64) | y */
  function Join(x: U128, y: U128): (r: U128)
    requires Val(x) < B64 && Val(y) < B64
    ensures Val(r) == Val(x) * B64 + Val(y)
  {
    ValIs(x);
    ValIs(y);
    OrZero(x.low);
    OrIsZero(y.low);
    var l := ShiftLeft(x, 64);
    var r := U128(Or(l.big, y.big), Or(l.low, y.low));
    ValIs(r);
    r
  }

  lemma {:induction false} OrIsZero(x: nat)
    ensures Or(0, x) == x
  {
    if x > 0 {
      OrIsZero(x / 2);
    }
  }

  function CutWide(x: U128): (c: Cut)
    ensures c.Of(0x1_0000_0000_0000_0000) == Val(x) && c.h == x.big && c.l == x.low
  {
    ValIs(x);
    Cut(x.big, x.low)
  }

  function WideParts(a: U256): seq<U128> {
    [High(a.big), Low(a.big), High(a.low), Low(a.low)]
  }

  lemma WidePartsVal(a: U256)
    ensures forall i :: 0 <= i < 4 ==> Val(WideParts(a)[i]) < B64
    ensures var t := WideParts(a);
      Four(0x1_0000_0000_0000_0000, Val(t[0]), Val(t[1]), Val(t[2]), Val(t[3])) == Wide(a)
  {
    WideIs(a);
    ValIs(a.big);
    ValIs(a.low);
  }

  lemma SmallWords(x: nat, y: nat)
    requires x < B64 && y < B64
    ensures Times(x, y) < B128
  {
    TimesIs(x, y);
    MulMono(x, 0xffff_ffff_ffff_ffff, y);
  }

  method MultiWide(a: U256, b: U256) returns (r: U256)
    ensures Wide(r) == (Wide(a) * Wide(b)) % B256
  {
    var top := WideParts(a);
    var bottom := WideParts(b);
    WidePartsVal(a);
    WidePartsVal(b);
    var products := WideProducts(top, bottom);
    ghost var k;
    r, k := WideColumns(products, top, bottom);
    DivModIs(Wide(a) * Wide(b), B256, k, Wide(r));
  }

  /** Each part times each part. */
  method WideProducts(top: seq<U128>, bottom: seq<U128>) returns (products: array2<U128>)
    requires |top| == |bottom| == 4 && forall i :: 0 <= i < 4 ==> Val(top[i]) < B64 && Val(bottom[i]) < B64
    ensures fresh(products) && products.Length0 == products.Length1 == 4
    ensures forall i, j :: 0 <= i < 4 && 0 <= j < 4 ==> Val(products[i, j]) == Times(Val(top[3 - i]), Val(bottom[j]))
  {
    products := new U128[4, 4]((_, _) => U128(0, 0));
    var y := 3;
    while y > -1
      invariant -1 <= y <= 3
      invariant forall i, j :: 0 <= i < 4 && y < j < 4 ==> Val(products[i, j]) == Times(Val(top[3 - i]), Val(bottom[j]))
    {
      var x := 3;
      while x > -1
        invariant -1 <= x <= 3
        invariant forall i, j :: 0 <= i < 4 && y < j < 4 ==>
            Val(products[i, j]) == Times(Val(top[3 - i]), Val(bottom[j]))
        invariant forall i :: 0 <= i < 3 - x ==> Val(products[i, y]) == Times(Val(top[3 - i]), Val(bottom[y]))
      {
        SmallWords(Val(top[x]), Val(bottom[y]));
        var p := Product(top[x], bottom[y]);
        products[3 - x, y] := p;
        x := x - 1;
      }
      y := y - 1;
    }
  }

  /** The products added up by columns, each cut into 64-bit halves, and the carries. */
  method WideColumns(products: array2<U128>, ghost t: seq<U128>, ghost n: seq<U128>) returns (r: U256, ghost k: nat)
    requires products.Length0 == products.Length1 == 4 && |t| == |n| == 4
    requires forall i, j :: 0 <= i < 4 && 0 <= j < 4 ==> Val(products[i, j]) == Times(Val(t[3 - i]), Val(n[j]))
    ensures Four(0x1_0000_0000_0000_0000, Val(t[0]), Val(t[1]), Val(t[2]), Val(t[3]))
      * Four(0x1_0000_0000_0000_0000, Val(n[0]), Val(n[1]), Val(n[2]), Val(n[3])) == k * B256 + Wide(r)
  {
    var p00, p01, p02, p03 := products[0, 0], products[0, 1], products[0, 2], products[0, 3];
    var p11, p12, p13 := products[1, 1], products[1, 2], products[1, 3];
    var p22, p23, p33 := products[2, 2], products[2, 3], products[3, 3];
    var first, second, third, fourth := WideColumnSums(p00, p01, p02, p03, p11, p12, p13, p22, p23, p33);
    ValIs(fourth);
    third := Add(third, High(fourth));
    ValIs(third);
    second := Add(second, High(third));
    ValIs(second);
    first := Add(first, High(second));
    RowIs(Val(t[0]), Val(n[0]), Val(n[1]), Val(n[2]), Val(n[3]));
    RowIs(Val(t[1]), Val(n[0]), Val(n[1]), Val(n[2]), Val(n[3]));
    RowIs(Val(t[2]), Val(n[0]), Val(n[1]), Val(n[2]), Val(n[3]));
    RowIs(Val(t[3]), Val(n[0]), Val(n[1]), Val(n[2]), Val(n[3]));
    k := Schoolbook(0x1_0000_0000_0000_0000, Val(t[0]), Val(t[1]), Val(t[2]), Val(t[3]), Val(n[0]), Val(n[1]),
      Val(n[2]), Val(n[3]),
                    CutWide(p00), CutWide(p01), CutWide(p02), CutWide(p03), CutWide(p11), CutWide(p12), CutWide(p13),
                    CutWide(p22), CutWide(p23), CutWide(p33), CutWide(first), CutWide(second), CutWide(third),
                      CutWide(fourth));
    r := U256(Join(Low(first), Low(second)), Join(Low(third), Low(fourth)));
    WideIs(r);
  }

  lemma RowIs(x: nat, n0: nat, n1: nat, n2: nat, n3: nat)
    ensures Times(x, n0) == x * n0 && Times(x, n1) == x * n1 && Times(x, n2) == x * n2 && Times(x, n3) == x * n3
  {
    TimesIs(x, n0);
    TimesIs(x, n1);
    TimesIs(x, n2);
    TimesIs(x, n3);
  }

  method WideColumnSums(p00: U128, p01: U128, p02: U128, p03: U128, p11: U128, p12: U128, p13: U128, p22: U128,
          p23: U128, p33: U128)
    returns (first: U128, second: U128, third: U128, fourth: U128)
    ensures Val(fourth) == p03.low < B64
    ensures Val(third) == p02.low + p03.big + p13.low < 3 * B64
    ensures Val(second) == p01.low + p02.big + p12.low + p13.big + p23.low < 5 * B64
    ensures Val(first) == p00.low + p01.big + p11.low + p12.big + p22.low + p23.big + p33.low < 7 * B64
  {
    fourth := Low(p03);
    third := Add(Low(p02), High(p03));
    second := Add(Low(p01), High(p02));
    first := Add(Low(p00), High(p01));

    third := Add(third, Low(p13));
    second := Add(second, Add(Low(p12), High(p13)));
    first := Add(first, Add(Low(p11), High(p12)));

    second := Add(second, Low(p23));
    first := Add(first, Add(Low(p22), High(p23)));

    first := Add(first, Low(p33));
  }
}
