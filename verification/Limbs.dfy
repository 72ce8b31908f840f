/**
  Schoolbook multiplication of two four-digit numbers in any base b, keeping four digits
  (src/safenumber/safenumber.cpp:86-132 with b = 2^32, 337-384 with b = 2^64).
 */
module Limbs {
  import opened Arith

  /** A number cut into its low digit and the rest. */
  datatype Cut = Cut(h: nat, l: nat) {
    function Of(b: nat): nat { h * b + l }
  }

  /** The value of four digits, the most significant first. */
  function Four(b: nat, d0: nat, d1: nat, d2: nat, d3: nat): nat {
    ((d0 * b + d1) * b + d2) * b + d3
  }

  lemma RowProduct(b: nat, t: nat, d0: nat, d1: nat, d2: nat, d3: nat)
    ensures t * Four(b, d0, d1, d2, d3) == Four(b, t * d0, t * d1, t * d2, t * d3)
  {
    assert t * ((d0 * b + d1) * b) == (t * d0 * b + t * d1) * b;
    assert t * (((d0 * b + d1) * b + d2) * b) == ((t * d0 * b + t * d1) * b + t * d2) * b;
  }

  /** The product, by rows: digit t_i of the first number times the whole second number n. */
  lemma ByRows(b: nat, t0: nat, t1: nat, t2: nat, t3: nat, n: nat)
    ensures Four(b, t0, t1, t2, t3) * n == ((t0 * n * b + t1 * n) * b + t2 * n) * b + t3 * n
  {
    RowProduct(b, n, t0, t1, t2, t3);
  }

  lemma AddHorner(b: nat, x: nat, p: nat, y: nat, q: nat)
    ensures (x * b + p) + (y * b + q) == (x + y) * b + (p + q)
  {
  }

  /** A fifth digit in front. */
  lemma Lead(b: nat, h: nat, d0: nat, d1: nat, d2: nat, d3: nat)
    ensures (((h * b + d0) * b + d1) * b + d2) * b + d3 == h * (b * b * b * b) + Four(b, d0, d1, d2, d3)
  {
    assert (h * b + d0) * b == h * (b * b) + d0 * b;
    assert (h * (b * b) + (d0 * b + d1)) * b == h * (b * b * b) + (d0 * b + d1) * b;
    assert (h * (b * b * b) + ((d0 * b + d1) * b + d2)) * b == h * (b * b * b * b) + ((d0 * b + d1) * b + d2) * b;
  }

  /** Adding the next row to a number that has one digit less. */
  lemma AddRow(b: nat, u: nat, p: nat, v: nat, q: nat, r: nat, w: nat)
    requires w == u + v
    ensures (u * b + p) * b + ((v * b + q) * b + r) == (w * b + (p + q)) * b + r
  {
    AddHorner(b, u * b + p, 0, v * b + q, r);
    AddHorner(b, u, p, v, q);
  }

  /** Four rows of four products: those of weight b^4 and more, and the rest by columns. */
  lemma ByColumns(b: nat, r00: nat, r01: nat, r02: nat, r03: nat, r10: nat, r11: nat, r12: nat, r13: nat,
                  r20: nat, r21: nat, r22: nat, r23: nat, r30: nat, r31: nat, r32: nat, r33: nat) returns (top: nat)
    ensures ((Four(b, r00, r01, r02, r03) * b + Four(b, r10, r11, r12, r13)) * b + Four(b, r20, r21, r22, r23)) * b +
        Four(b, r30, r31, r32, r33)
      == top * (b * b * b * b) + Four(b, r03 + r12 + r21 + r30, r13 + r22 + r31, r23 + r32, r33)
  {
    var u0, u1 := (r00 * b + r01) * b + r02, r10 * b + r11;
    top := u0 + u1 + r20;
    var c0 := r03 + r12;
    AddRow(b, u0, r03, u1, r12, r13, u0 + u1);
    AddHorner(b, u0 + u1, c0, r20, r21);
    var x := top * b + (c0 + r21);
    AddRow(b, (u0 + u1) * b + c0, r13, r20 * b + r21, r22, r23, x);
    AddHorner(b, top, c0 + r21, 0, r30);
    AddRows(b, top, c0 + r21, r13 + r22, r23, r30, r31, r32, r33);
    Lead(b, top, c0 + r21 + r30, r13 + r22 + r31, r23 + r32, r33);
  }

  lemma AddRows(b: nat, u: nat, p: nat, q: nat, r: nat, v0: nat, v1: nat, v2: nat, v3: nat)
    ensures (((u * b + p) * b + q) * b + r) * b + (((v0 * b + v1) * b + v2) * b + v3)
      == (((u * b + (p + v0)) * b + (q + v1)) * b + (r + v2)) * b + v3
  {
    AddHorner(b, u * b + p, q, v0, v1);
    AddRow(b, (u * b + p) * b + q, r, v0 * b + v1, v2, v3, (u * b + (p + v0)) * b + (q + v1));
  }

  /** The high part of each column belongs to the next column. */
  lemma CutSum(b: nat, h0: nat, h1: nat, h2: nat, h3: nat, l0: nat, l1: nat, l2: nat, l3: nat)
    ensures Four(b, h0 * b + l0, h1 * b + l1, h2 * b + l2, h3 * b + l3) == h0 * (b * b * b * b) +
        Four(b, l0 + h1, l1 + h2, l2 + h3, l3)
  {
    AddHorner(b, h0 * b + l0, 0, h1, l1);
    var e0 := h0 * b + (l0 + h1);
    AddHorner(b, e0 * b + l1, 0, h2, l2);
    var e1 := e0 * b + (l1 + h2);
    AddHorner(b, e1 * b + l2, 0, h3, l3);
    Lead(b, h0, l0 + h1, l1 + h2, l2 + h3, l3);
  }

  lemma CutFour(b: nat, p: Cut, q: Cut, r: Cut, s: Cut)
    ensures p.Of(b) + q.Of(b) + r.Of(b) + s.Of(b) == (p.h + q.h + r.h + s.h) * b + (p.l + q.l + r.l + s.l)
  {
    AddHorner(b, p.h, p.l, q.h, q.l);
    AddHorner(b, p.h + q.h, p.l + q.l, r.h, r.l);
    AddHorner(b, p.h + q.h + r.h, p.l + q.l + r.l, s.h, s.l);
  }

  lemma CutColumns(b: nat, p00: Cut, p01: Cut, p02: Cut, p03: Cut, p11: Cut, p12: Cut, p13: Cut, p22: Cut, p23: Cut,
          p33: Cut)
    ensures Four(b, p00.Of(b) + p11.Of(b) + p22.Of(b) + p33.Of(b), p01.Of(b) + p12.Of(b) + p23.Of(b),
        p02.Of(b) + p13.Of(b), p03.Of(b))
      == (p00.h + p11.h + p22.h + p33.h) * (b * b * b * b)
         + Four(b, p00.l + p01.h + p11.l + p12.h + p22.l + p23.h + p33.l, p01.l + p02.h + p12.l + p13.h + p23.l,
           p02.l + p03.h + p13.l, p03.l)
  {
    var z := Cut(0, 0);
    CutFour(b, p00, p11, p22, p33);
    CutFour(b, p01, p12, p23, z);
    CutFour(b, p02, p13, z, z);
    CutSum(b, p00.h + p11.h + p22.h + p33.h, p01.h + p12.h + p23.h, p02.h + p13.h, p03.h,
           p00.l + p11.l + p22.l + p33.l, p01.l + p12.l + p23.l, p02.l + p13.l, p03.l);
  }

  /** Carrying from column to column. */
  lemma Carry(b: nat, first: Cut, second: Cut, third: Cut, fourth: Cut, s0: nat, s1: nat, s2: nat, s3: nat)
    requires fourth.Of(b) == s3 && third.Of(b) == s2 + fourth.h && second.Of(b) == s1 + third.h &&
        first.Of(b) == s0 + second.h
    ensures Four(b, s0, s1, s2, s3) == first.h * (b * b * b * b) + Four(b, first.l, second.l, third.l, fourth.l)
  {
    Carry3(b, s0, s1, s2, fourth);
    Carry2(b, s0, s1, third, fourth.l);
    Carry1(b, s0, second, third.l, fourth.l);
    Carry0(b, first, second.l, third.l, fourth.l);
  }

  lemma Carry3(b: nat, s0: nat, s1: nat, s2: nat, c: Cut)
    ensures Four(b, s0, s1, s2, c.Of(b)) == Four(b, s0, s1, s2 + c.h, c.l)
  {
    AddHorner(b, (s0 * b + s1) * b + s2, 0, c.h, c.l);
  }

  lemma Carry2(b: nat, s0: nat, s1: nat, c: Cut, l: nat)
    ensures Four(b, s0, s1, c.Of(b), l) == Four(b, s0, s1 + c.h, c.l, l)
  {
    AddHorner(b, s0 * b + s1, 0, c.h, c.l);
  }

  lemma Carry1(b: nat, s0: nat, c: Cut, l: nat, m: nat)
    ensures Four(b, s0, c.Of(b), l, m) == Four(b, s0 + c.h, c.l, l, m)
  {
    AddHorner(b, s0, 0, c.h, c.l);
  }

  lemma Carry0(b: nat, c: Cut, l: nat, m: nat, k: nat)
    ensures Four(b, c.Of(b), l, m, k) == c.h * (b * b * b * b) + Four(b, c.l, l, m, k)
  {
    Lead(b, c.h, c.l, l, m, k);
  }

  /** The whole computation: cutting the ten products that matter, adding them up by columns and carrying
      gives the product's last four digits. */
  lemma Schoolbook(b: nat, t0: nat, t1: nat, t2: nat, t3: nat, n0: nat, n1: nat, n2: nat, n3: nat,
                   p00: Cut, p01: Cut, p02: Cut, p03: Cut, p11: Cut, p12: Cut, p13: Cut, p22: Cut, p23: Cut, p33: Cut,
                   first: Cut, second: Cut, third: Cut, fourth: Cut) returns (k: nat)
    requires p00.Of(b) == t3 * n0 && p01.Of(b) == t3 * n1 && p02.Of(b) == t3 * n2 && p03.Of(b) == t3 * n3
    requires p11.Of(b) == t2 * n1 && p12.Of(b) == t2 * n2 && p13.Of(b) == t2 * n3
    requires p22.Of(b) == t1 * n2 && p23.Of(b) == t1 * n3 && p33.Of(b) == t0 * n3
    requires fourth.Of(b) == p03.l && third.Of(b) == p02.l + p03.h + p13.l + fourth.h
    requires second.Of(b) == p01.l + p02.h + p12.l + p13.h + p23.l + third.h
    requires first.Of(b) == p00.l + p01.h + p11.l + p12.h + p22.l + p23.h + p33.l + second.h
    ensures Four(b, t0, t1, t2, t3) * Four(b, n0, n1, n2, n3) == k * (b * b * b * b) + Four(b, first.l, second.l,
        third.l, fourth.l)
  {
    var top := Columns(b, t0, t1, t2, t3, n0, n1, n2, n3);
    CutColumns(b, p00, p01, p02, p03, p11, p12, p13, p22, p23, p33);
    Carry(b, first, second, third, fourth, p00.l + p01.h + p11.l + p12.h + p22.l + p23.h + p33.l,
          p01.l + p02.h + p12.l + p13.h + p23.l, p02.l + p03.h + p13.l, p03.l);
    k := top + (p00.h + p11.h + p22.h + p33.h) + first.h;
    ThreeTops(top, p00.h + p11.h + p22.h + p33.h, first.h, b * b * b * b);
  }

  /** The product by columns of digit products. */
  lemma Columns(b: nat, t0: nat, t1: nat, t2: nat, t3: nat, n0: nat, n1: nat, n2: nat, n3: nat) returns (top: nat)
    ensures Four(b, t0, t1, t2, t3) * Four(b, n0, n1, n2, n3)
      == top * (b * b * b * b) + Four(b, t0 * n3 + t1 * n2 + t2 * n1 + t3 * n0, t1 * n3 + t2 * n2 + t3 * n1,
        t2 * n3 + t3 * n2, t3 * n3)
  {
    ByRows(b, t0, t1, t2, t3, Four(b, n0, n1, n2, n3));
    RowProduct(b, t0, n0, n1, n2, n3);
    RowProduct(b, t1, n0, n1, n2, n3);
    RowProduct(b, t2, n0, n1, n2, n3);
    RowProduct(b, t3, n0, n1, n2, n3);
    top := ByColumns(b, t0 * n0, t0 * n1, t0 * n2, t0 * n3, t1 * n0, t1 * n1, t1 * n2, t1 * n3,
                     t2 * n0, t2 * n1, t2 * n2, t2 * n3, t3 * n0, t3 * n1, t3 * n2, t3 * n3);
  }

  lemma ThreeTops(x: nat, y: nat, z: nat, m: nat)
    ensures (x + y + z) * m == x * m + y * m + z * m
  {
  }
}
