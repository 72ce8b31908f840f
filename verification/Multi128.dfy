/**
  The 128-bit product modulo 2^128 (src/safenumber/safenumber.cpp:86-148).
 */
module Multi128 {
  import opened Arith
  import opened Uint128
  import opened Limbs

  /** uint64_t multiplication. */
  function MulWord(x: Word, y: Word): Word {
    (x * y) % 0x1_0000_0000_0000_0000
  }

  function Hi(x: Word): Word {
    Shr(x, 32)
  }

  function Lo(x: Word): Word {
    AndBound(x, 0xffff_ffff);
    And(x, 0xffff_ffff)
  }

  lemma Halves(x: Word)
    ensures x == Hi(x) * 0x1_0000_0000 + Lo(x) && Hi(x) < 0x1_0000_0000 && Lo(x) < 0x1_0000_0000
  {
    Pow64();
    AndMask(x, 32);
    DivLess(x, Pow(2, 32), 0x1_0000_0000);
  }

  function CutWord(x: Word): (c: Cut)
    ensures c.Of(0x1_0000_0000) == x && c.h < 0x1_0000_0000 && c.l < 0x1_0000_0000
  {
    Halves(x);
    Cut(Hi(x), Lo(x))
  }

  function Prod(x: nat, y: nat): nat {
    x * y
  }

  lemma SmallProduct(x: Word, y: Word)
    requires x < 0x1_0000_0000 && y < 0x1_0000_0000
    ensures MulWord(x, y) == Prod(x, y)
  {
    MulMono(x, 0xffff_ffff, y);
    MulMono(0, x, y);
    DivModIs(x * y, 0x1_0000_0000_0000_0000, 0, x * y);
  }

  /** (x << 32) | y */
  function Glue(x: Word, y: Word): (r: Word)
    requires x < 0x1_0000_0000 && y < 0x1_0000_0000
    ensures r == x * 0x1_0000_0000 + y
  {
    GlueIs(x, y);
    Or(Shl(x, 32), y)
  }

  lemma GlueIs(x: Word, y: Word)
    requires x < 0x1_0000_0000 && y < 0x1_0000_0000
    ensures Or(Shl(x, 32), y) == x * 0x1_0000_0000 + y
  {
    Pow64();
    DivModIs(x, Pow(2, 32), 0, x);
    OrDisjoint(x, y, 32);
  }

  function Parts(a: U128): seq<Word> {
    [Hi(a.big), Lo(a.big), Hi(a.low), Lo(a.low)]
  }

  lemma PartsVal(a: U128)
    ensures forall i :: 0 <= i < 4 ==> Parts(a)[i] < 0x1_0000_0000
    ensures Four(0x1_0000_0000, Parts(a)[0], Parts(a)[1], Parts(a)[2], Parts(a)[3]) == Val(a)
  {
    Halves(a.big);
    Halves(a.low);
    ValIs(a);
  }

  method Multi(a: U128, b: U128) returns (r: U128)
    ensures Val(r) == (Val(a) * Val(b)) % B128
  {
    var top := Parts(a);
    var bottom := Parts(b);
    PartsVal(a);
    PartsVal(b);
    var products := Products(top, bottom);
    ghost var k;
    r, k := Columns(products, top, bottom);
    DivModIs(Val(a) * Val(b), B128, k, Val(r));
  }

  /** Each part times each part. */
  method Products(top: seq<Word>, bottom: seq<Word>) returns (products: array2<Word>)
    requires |top| == |bottom| == 4 && forall i :: 0 <= i < 4 ==> top[i] < 0x1_0000_0000 && bottom[i] < 0x1_0000_0000
    ensures fresh(products) && products.Length0 == products.Length1 == 4
    ensures forall i, j :: 0 <= i < 4 && 0 <= j < 4 ==> products[i, j] == Prod(top[3 - i], bottom[j])
  {
    products := new Word[4, 4];
    var y := 3;
    while y > -1
      invariant -1 <= y <= 3
      invariant forall i, j :: 0 <= i < 4 && y < j < 4 ==> products[i, j] == Prod(top[3 - i], bottom[j])
    {
      var x := 3;
      while x > -1
        invariant -1 <= x <= 3
        invariant forall i, j :: 0 <= i < 4 && y < j < 4 ==> products[i, j] == Prod(top[3 - i], bottom[j])
        invariant forall i :: 0 <= i < 3 - x ==> products[i, y] == Prod(top[3 - i], bottom[y])
      {
        SmallProduct(top[x], bottom[y]);
        products[3 - x, y] := MulWord(top[x], bottom[y]);
        x := x - 1;
      }
      y := y - 1;
    }
  }

  /** The products added up by columns, each cut into 32-bit halves, and the carries. */
  method Columns(products: array2<Word>, ghost t: seq<Word>, ghost n: seq<Word>) returns (r: U128, ghost k: nat)
    requires products.Length0 == products.Length1 == 4 && |t| == |n| == 4
    requires forall i, j :: 0 <= i < 4 && 0 <= j < 4 ==> products[i, j] == Prod(t[3 - i], n[j])
    ensures Four(0x1_0000_0000, t[0], t[1], t[2], t[3]) * Four(0x1_0000_0000, n[0], n[1], n[2], n[3]) == k * B128 +
        Val(r)
  {
    var p00, p01, p02, p03 := products[0, 0], products[0, 1], products[0, 2], products[0, 3];
    var p11, p12, p13 := products[1, 1], products[1, 2], products[1, 3];
    var p22, p23, p33 := products[2, 2], products[2, 3], products[3, 3];
    var first, second, third, fourth := ColumnSums(p00, p01, p02, p03, p11, p12, p13, p22, p23, p33);
    third := AddWord(third, Hi(fourth));
    second := AddWord(second, Hi(third));
    first := AddWord(first, Hi(second));
    Halves(fourth);
    Halves(third);
    Halves(second);
    Halves(first);
    k := Schoolbook(0x1_0000_0000, t[0], t[1], t[2], t[3], n[0], n[1], n[2], n[3],
                    CutWord(p00), CutWord(p01), CutWord(p02), CutWord(p03), CutWord(p11), CutWord(p12), CutWord(p13),
                    CutWord(p22), CutWord(p23), CutWord(p33), CutWord(first), CutWord(second), CutWord(third),
                      CutWord(fourth));
    r := U128(Glue(Lo(first), Lo(second)), Glue(Lo(third), Lo(fourth)));
    ValIs(r);
  }

  method ColumnSums(p00: Word, p01: Word, p02: Word, p03: Word, p11: Word, p12: Word, p13: Word, p22: Word, p23: Word,
          p33: Word)
    returns (first: Word, second: Word, third: Word, fourth: Word)
    ensures fourth == Lo(p03) < 0x1_0000_0000
    ensures third == Lo(p02) + Hi(p03) + Lo(p13) < 3 * 0x1_0000_0000
    ensures second == Lo(p01) + Hi(p02) + Lo(p12) + Hi(p13) + Lo(p23) < 5 * 0x1_0000_0000
    ensures first == Lo(p00) + Hi(p01) + Lo(p11) + Hi(p12) + Lo(p22) + Hi(p23) + Lo(p33) < 7 * 0x1_0000_0000
  {
    Halves(p00);
    Halves(p01);
    Halves(p02);
    Halves(p03);
    Halves(p11);
    Halves(p12);
    Halves(p13);
    Halves(p22);
    Halves(p23);
    Halves(p33);
    fourth := Lo(p03);
    third := AddWord(Lo(p02), Hi(p03));
    second := AddWord(Lo(p01), Hi(p02));
    first := AddWord(Lo(p00), Hi(p01));

    third := AddWord(third, Lo(p13));
    second := AddWord(second, AddWord(Lo(p12), Hi(p13)));
    first := AddWord(first, AddWord(Lo(p11), Hi(p12)));

    second := AddWord(second, Lo(p23));
    first := AddWord(first, AddWord(Lo(p22), Hi(p23)));

    first := AddWord(first, Lo(p33));
  }

  /** a^p by p multiplications, modulo 2^128. */
  method Power(a: U128, p: nat) returns (r: U128)
    ensures Val(r) == Pow(Val(a), p) % B128
  {
    r := Small(1);
    DivModIs(1, B128, 0, 1);
    var i := 0;
    while i < p
      invariant 0 <= i <= p && Val(r) == Pow(Val(a), i) % B128
    {
      ModTimes(Pow(Val(a), i), Val(a), B128);
      r := Multi(r, a);
      i := i + 1;
    }
  }

  lemma ModTimes(x: nat, y: nat, m: nat)
    requires m > 0
    ensures ((x % m) * y) % m == (y * x) % m
  {
    assert x == (x / m) * m + x % m;
    assert y * x == (x % m) * y + ((x / m) * y) * m;
    ModPlus((x % m) * y, (x / m) * y, m);
  }
}
