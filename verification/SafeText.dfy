/**
  Printing decimal numbers and reading them back (src/safenumber/safenumber.cpp:631-671, 845-869).
 */
module SafeText {
  import opened Options
  import opened Arith
  import opened Decimal
  import opened Uint128
  import opened Div128
  import opened Multi128
  import opened Multi256
  import opened Digits
  import opened SafeNumbers
  import opened SafeArith

  // ---------- printing ----------

  /** The text of a canonical number. */
  ghost function Text(n: SafeNumber): string
    requires n.valid ==> Canonical(n)
  {
    if !n.valid then "NaN"
    else if Val(n.x) == 0 then "0"
    else
      (if n.sign then "" else "-") + Magnitude(Val(n.x), n.e)
  }

  function Fraction(x: nat, e: nat): (q: nat)
    ensures x == Scale(Drop(x, e), e) + q && q < Scale(1, e)
  {
    FractionIs(x, e);
    x - Scale(Drop(x, e), e)
  }

  lemma FractionIs(x: nat, e: nat)
    ensures Scale(Drop(x, e), e) <= x < Scale(Drop(x, e), e) + Scale(1, e)
  {
    DropIs(x, e);
    ScaleIs(Drop(x, e), e);
    ScaleIs(1, e);
    assert x == (x / Pow(10, e)) * Pow(10, e) + x % Pow(10, e);
  }

  function Magnitude(x: nat, e: nat): string {
    Printed(Drop(x, e), 10, 0) + if Fraction(x, e) != 0 then "." + Printed(Fraction(x, e), 10, e) else ""
  }

  /** safe_number_to_string */
  method NumberToString(n: SafeNumber) returns (s: string)
    requires n.valid ==> Canonical(n)
    ensures s == Text(n)
  {
    var v := Compress(n);
    if n.valid {
      CompressCanonical(n, v);
    }
    if !v.valid {
      return "NaN";
    }
    if IsZero(v.x) {
      return "0";
    }
    s := "";
    if !v.sign {
      s := s + "-";
    }
    var m := MagnitudeToString(v.x, v.e);
    s := s + m;
  }

  /** The integer part, and the fraction if there is one. */
  method MagnitudeToString(x: U128, e: nat) returns (m: string)
    requires e <= 16
    ensures m == Magnitude(Val(x), e)
  {
    var p, q := SplitAt(x, e);
    FractionUnique(Val(x), e, Val(q));
    var t := ToString(p, 10, 0);
    m := t.value;
    if !IsZero(q) {
      t := ToString(q, 10, e);
      m := m + ("." + t.value);
    } else {
      assert m + "" == m;
    }
  }

  lemma FractionUnique(x: nat, e: nat, q: nat)
    requires x == Scale(Drop(x, e), e) + q
    ensures q == Fraction(x, e)
  {
  }

  // ---------- parsing ----------

  /** x after reading the character c: 10 x + (c - '0'), with the difference as an unsigned 64-bit word. */
  function NextX(x: nat, c: char): nat {
    (10 * x % B128 + DigitWord(c)) % B128
  }

  /** c - '0', as the unsigned 64-bit word it is passed on as. */
  function DigitWord(c: char): Word {
    if c >= '0' then c as int - '0' as int else c as int - '0' as int + 0x1_0000_0000_0000_0000
  }

  datatype Read = Read(x: nat, e: nat)

  /** What the loop of safe_number_create(string) makes of the rest of the text. */
  function Eat(s: string, afterDot: bool, x: nat, e: nat): Option<Read> {
    if s == "" then Some(Read(x, e))
    else if s[0] == '.' then if afterDot then None else Eat(s[1..], true, x, e)
    else Eat(s[1..], afterDot, NextX(x, s[0]), if afterDot then e + 1 else e)
  }

  function Unsigned(s: string): string
    requires s != ""
  {
    if s[0] == '+' || s[0] == '-' then s[1..] else s
  }

  /** The number before compression; None is NaN. */
  function Parsed(s: string): Option<Read> {
    if s == "" || |s| > 40 || s == "NaN" then None else Eat(Unsigned(s), false, 0, 0)
  }

  lemma {:induction false} EatBound(s: string, afterDot: bool, x: nat, e: nat)
    requires x < B128
    ensures Eat(s, afterDot, x, e).Some? ==>
        Eat(s, afterDot, x, e).value.x < B128 && Eat(s, afterDot, x, e).value.e <= e + |s|
    decreases |s|
  {
    if s != "" {
      EatBound(s[1..], if s[0] == '.' then true else afterDot, if s[0] == '.' then x else NextX(x, s[0]),
               if s[0] != '.' && afterDot then e + 1 else e);
    }
  }

  /** safe_number_create(string) */
  method OfString(s: string) returns (r: SafeNumber)
    ensures Parsed(s).None? ==> r == NaN()
    ensures Parsed(s).Some? ==> Parsed(s).value.x < B128 && Parsed(s).value.e <= 40
    ensures Parsed(s).Some? ==> IsCompressed(SafeNumber(true, s[0] != '-', Of(Parsed(s).value.x), Parsed(s).value.e), r)
  {
    r := NaN();
    if s == "" || |s| > 40 || s == "NaN" {
      return;
    }
    EatBound(Unsigned(s), false, 0, 0);
    var sign := s[0] != '-';
    var ok, x, e := ReadFrom(s, if s[0] == '+' || s[0] == '-' then 1 else 0);
    if !ok {
      return;
    }
    ValInj(x, Of(Val(x)));
    r := Create(sign, x, e);
  }

  /** The loop of safe_number_create(string); it stops at a second dot. */
  method ReadFrom(s: string, start: nat) returns (ok: bool, x: U128, e: nat)
    requires start <= |s| <= 40
    ensures Eat(s[start..], false, 0, 0) == if ok then Some(Read(Val(x), e)) else None
    ensures e <= 40
  {
    ok := false;
    var pos, afterDot := start, false;
    x, e := Small(0), 0;
    while pos < |s|
      invariant start <= pos <= |s| && e <= pos
      invariant Eat(s[pos..], afterDot, Val(x), e) == Eat(s[start..], false, 0, 0)
    {
      var c := s[pos];
      EatNext(s, pos, afterDot, Val(x), e);
      if c == '.' {
        if afterDot {
          return;
        }
        afterDot := true;
      } else {
        x := PushChar(x, c);
        if afterDot {
          e := e + 1;
        }
      }
      pos := pos + 1;
    }
    ok := true;
  }

  /** One turn of the loop. */
  lemma EatNext(s: string, pos: nat, afterDot: bool, x: nat, e: nat)
    requires pos < |s|
    ensures Eat(s[pos..], afterDot, x, e) ==
      if s[pos] != '.' then Eat(s[pos + 1..], afterDot, NextX(x, s[pos]), if afterDot then e + 1 else e)
      else if afterDot then None else Eat(s[pos + 1..], true, x, e)
  {
    assert s[pos..][1..] == s[pos + 1..];
  }

  method PushChar(x: U128, c: char) returns (r: U128)
    ensures Val(r) == NextX(Val(x), c)
  {
    var t := Multi(x, Small(10));
    r := Add(t, Small(DigitWord(c)));
    AddIsMod(Val(t), DigitWord(c));
  }

  lemma AddIsMod(x: nat, y: nat)
    requires x < B128 && y < B128
    ensures (x + y) % B128 == if x + y >= B128 then x + y - B128 else x + y
  {
    if x + y >= B128 {
      DivModIs(x + y, B128, 1, x + y - B128);
    } else {
      DivModIs(x + y, B128, 0, x + y);
    }
  }

  // ---------- parsing undoes printing ----------

  /** Nothing but digits. */
  predicate OnlyDigits(s: string) {
    forall i :: 0 <= i < |s| ==> '0' <= s[i] <= '9'
  }

  /** Reading decimal digits after x. */
  function Accum(x: nat, s: string): nat
    requires OnlyDigits(s)
    decreases |s|
  {
    if s == "" then x else Accum(10 * x + (s[0] as int - '0' as int), s[1..])
  }

  lemma {:induction false} AccumGrows(x: nat, s: string)
    requires OnlyDigits(s)
    ensures Accum(x, s) >= x
    decreases |s|
  {
    if s != "" {
      AccumGrows(10 * x + (s[0] as int - '0' as int), s[1..]);
    }
  }

  lemma {:induction false} AccumIs(x: nat, s: string)
    requires OnlyDigits(s)
    ensures Accum(x, s) == Scale(x, |s|) + NumberOf(s, 10)
    decreases |s|
  {
    if s != "" {
      var t, c := s[..|s| - 1], s[|s| - 1];
      AccumIs(x, t);
      AccumLast(x, t, c);
      assert s == t + [c];
    }
  }

  lemma {:induction false} AccumLast(x: nat, t: string, c: char)
    requires OnlyDigits(t) && '0' <= c <= '9'
    ensures Accum(x, t + [c]) == 10 * Accum(x, t) + (c as int - '0' as int)
    decreases |t|
  {
    if t == "" {
      assert t + [c] == [c] && [c][1..] == "";
    } else {
      assert (t + [c])[1..] == t[1..] + [c];
      AccumLast(10 * x + (t[0] as int - '0' as int), t[1..], c);
    }
  }

  lemma NextMod(x: nat, d: nat)
    ensures (10 * x + d) % B128 == (10 * (x % B128) + d) % B128
  {
    DivModIs(x, B128, x / B128, x % B128);
    ModPlus(10 * (x % B128) + d, 10 * (x / B128), B128);
  }

  lemma {:induction false} AccumMod(x: nat, s: string)
    requires OnlyDigits(s)
    ensures Accum(x, s) % B128 == Accum(x % B128, s) % B128
    decreases |s|
  {
    if s == "" {
      ModIdle(x);
    } else {
      var d := s[0] as int - '0' as int;
      AccumMod(10 * x + d, s[1..]);
      AccumMod(10 * (x % B128) + d, s[1..]);
      NextMod(x, d);
    }
  }

  lemma ModIdle(x: nat)
    ensures (x % B128) % B128 == x % B128
  {
    DivModIs(x % B128, B128, 0, x % B128);
  }

  /** A run of digits is read as the number it denotes, modulo 2^128. */
  lemma {:induction false} EatDigits(s: string, rest: string, afterDot: bool, x: nat, e: nat)
    requires OnlyDigits(s) && x < B128
    ensures Eat(s + rest, afterDot, x, e) == Eat(rest, afterDot, Accum(x, s) % B128, if afterDot then e + |s| else e)
    decreases |s|
  {
    if s == "" {
      assert s + rest == rest;
      DivModIs(x, B128, 0, x);
    } else {
      var d := s[0] as int - '0' as int;
      NextIs(x, s[0]);
      AccumMod(10 * x + d, s[1..]);
      assert (s + rest)[1..] == s[1..] + rest;
      EatDigits(s[1..], rest, afterDot, NextX(x, s[0]), if afterDot then e + 1 else e);
    }
  }

  lemma NextIs(x: nat, c: char)
    requires '0' <= c <= '9'
    ensures NextX(x, c) == (10 * x + (c as int - '0' as int)) % B128 < B128
  {
    var d := c as int - '0' as int;
    DivModIs(10 * x, B128, 10 * x / B128, 10 * x % B128);
    ModPlus(10 * x % B128 + d, 10 * x / B128, B128);
  }

  /** A printed number: decimal digits, as many as asked for, denoting the number. */
  lemma PrintedIs(n: nat, len: nat)
    ensures var s := Printed(n, 10, len);
      OnlyDigits(s) && NumberOf(s, 10) == n && |s| >= 1
  {
    var d := if n == 0 then "0" else DigitsOf(n, 10);
    DecimalDigits(n);
    SomeDigits(n);
    if |d| < len {
      NumberOfPadded(len - |d|, d, 10);
    }
  }

  lemma SomeDigits(n: nat)
    ensures var d := if n == 0 then "0" else DigitsOf(n, 10);
      NumberOf(d, 10) == n && |d| >= 1
  {
    NumberOfDigits(n, 10);
    if n == 0 {
      assert "0"[..0] == "";
    }
  }

  lemma PrintedLength(n: nat, len: nat, k: nat)
    requires k >= 1 && k >= len && n < Pow(10, k)
    ensures |Printed(n, 10, len)| <= k
  {
    DigitsLength(n, 10, k);
  }

  /** Reading the text of a magnitude gives back x and e: a canonical fraction has no needless zeros. */
  lemma EatMagnitude(x: nat, e: nat)
    requires 0 < x < B128 && e <= 16 && (e > 0 ==> x <= LARGEST && x % 10 != 0)
    ensures Eat(Magnitude(x, e), false, 0, 0) == Some(Read(x, e))
    ensures 1 <= |Magnitude(x, e)| <= 39 && '0' <= Magnitude(x, e)[0] <= '9'
  {
    FractionNonzero(x, e);
    MagnitudeLength(x, e);
    PrintedIs(Drop(x, e), 0);
    if e == 0 {
      EatInteger(x, "");
      assert Magnitude(x, e) == Printed(x, 10, 0) + "";
    } else {
      EatDecimal(x, e, Drop(x, e), Fraction(x, e));
    }
  }

  lemma EatInteger(p: nat, rest: string)
    requires p < B128
    ensures Eat(Printed(p, 10, 0) + rest, false, 0, 0) == Eat(rest, false, p, 0)
  {
    var s := Printed(p, 10, 0);
    PrintedIs(p, 0);
    AccumIs(0, s);
    ScaleZero(|s|);
    EatDigits(s, rest, false, 0, 0);
    DivModIs(p, B128, 0, p);
  }

  lemma EatDecimal(x: nat, e: nat, p: nat, q: nat)
    requires x < B128 && x == Scale(p, e) + q && q < Scale(1, e) && e > 0
    ensures Eat(Printed(p, 10, 0) + ("." + Printed(q, 10, e)), false, 0, 0) == Some(Read(x, e))
  {
    ScaleGrows(p, e);
    FractionEaten(p, q, e);
    EatInteger(p, "." + Printed(q, 10, e));
  }

  lemma FractionEaten(p: nat, q: nat, e: nat)
    requires Scale(p, e) + q < B128 && q < Scale(1, e) && e > 0
    ensures Eat("." + Printed(q, 10, e), false, p, 0) == Some(Read(Scale(p, e) + q, e))
  {
    FractionDigits(q, e);
    ScaleGrows(p, e);
    EatFraction(p, q, Printed(q, 10, e));
  }

  lemma EatFraction(p: nat, q: nat, f: string)
    requires OnlyDigits(f)
    requires NumberOf(f, 10) == q && Scale(p, |f|) + q < B128 && p < B128
    ensures Eat("." + f, false, p, 0) == Some(Read(Scale(p, |f|) + q, |f|))
  {
    assert ("." + f)[1..] == f;
    AccumIs(p, f);
    EatPlaces(f, p, Accum(p, f));
  }

  lemma EatPlaces(f: string, p: nat, n: nat)
    requires OnlyDigits(f) && p < B128 && Accum(p, f) == n < B128
    ensures Eat(f, true, p, 0) == Some(Read(n, |f|))
  {
    assert f == f + "";
    EatDigits(f, "", true, p, 0);
    DivModIs(n, B128, 0, n);
  }

  lemma FractionNonzero(x: nat, e: nat)
    requires e > 0 ==> x % 10 != 0
    ensures Fraction(x, e) == 0 <==> e == 0
    ensures e == 0 ==> Drop(x, e) == x
  {
    FractionIs(x, e);
    if e > 0 {
      NotTenfold(x, Scale(Drop(x, e), e - 1), Fraction(x, e));
    }
  }

  lemma NotTenfold(x: nat, d: nat, f: nat)
    requires x == 10 * d + f && x % 10 != 0
    ensures f != 0
  {
  }

  /** A fraction of e places is printed with exactly e digits. */
  lemma FractionDigits(q: nat, e: nat)
    requires q < Scale(1, e) && e > 0
    ensures var f := Printed(q, 10, e);
      |f| == e && NumberOf(f, 10) == q && OnlyDigits(f)
  {
    PrintedIs(q, e);
    ScaleIs(1, e);
    PrintedLength(q, e, e);
  }

  lemma MagnitudeLength(x: nat, e: nat)
    requires 0 < x < B128 && e <= 16 && (e > 0 ==> x <= LARGEST && x % 10 != 0)
    ensures |Magnitude(x, e)| <= 39
  {
    var p := Drop(x, e);
    Pow10Bounds();
    FractionNonzero(x, e);
    if e == 0 {
      IntegerDigits(x, e, 39);
    } else {
      FractionDigits(Fraction(x, e), e);
      IntegerDigits(x, e, 33);
    }
  }

  lemma Pow10Bounds()
    ensures Pow(10, 39) >= B128 && Pow(10, 32) == LARGEST && Pow(10, 33) > LARGEST
  {
    TenTo19();
    PowAdd(10, 16, 16);
    PowAdd(10, 32, 7);
    PowAdd(10, 32, 1);
    assert Pow(10, 7) == 10_000_000 && Pow(10, 1) == 10;
  }

  /** The integer part of a number of w digits, e of them after the point. */
  lemma IntegerDigits(x: nat, e: nat, w: nat)
    requires x < Pow(10, w) && e < w
    ensures |Printed(Drop(x, e), 10, 0)| <= w - e
  {
    PowAdd(10, e, w - e);
    DropIs(x, e);
    DropBelow(x, Drop(x, e), Pow(10, e), Pow(10, w - e));
    PrintedLength(Drop(x, e), 0, w - e);
  }

  lemma DropBelow(x: nat, y: nat, p: nat, q: nat)
    requires p > 0 && y == x / p && x < p * q
    ensures y < q
  {
    DivLess(x, p, q);
  }

  /** Printing and parsing a number gives it back, and any zero as the positive one without places. */
  method RoundTrip(n: SafeNumber) returns (r: SafeNumber)
    requires n.valid ==> Canonical(n)
    ensures r == if !n.valid then NaN() else if Val(n.x) == 0 then ZeroNumber() else n
  {
    var s := NumberToString(n);
    ReadBack(n);
    r := OfString(s);
    if n.valid {
      if Val(n.x) == 0 {
        ZeroKept(SafeNumber(true, true, Of(0), 0), r);
      } else {
        ValInj(n.x, Of(Val(n.x)));
        CompressCanonical(n, r);
      }
    }
  }

  lemma ZeroKept(a: SafeNumber, r: SafeNumber)
    requires a.valid && a.sign && a.e == 0 && Val(a.x) == 0 && IsCompressed(a, r)
    ensures r == ZeroNumber()
  {
    CompressCanonical(a, r);
    ValInj(a.x, ZeroNumber().x);
  }

  /** The text of a number is read back as it was, that of a zero as 0, and fits in 40 characters; an invalid
      number's text, and no other, is read as NaN. */
  lemma ReadBack(n: SafeNumber)
    requires n.valid ==> Canonical(n)
    ensures Parsed(Text(n)) == if !n.valid then None
                               else Some(if Val(n.x) == 0 then Read(0, 0) else Read(Val(n.x), n.e))
    ensures 1 <= |Text(n)| <= 40 && (n.valid ==> (Text(n)[0] != '-' <==> n.sign || Val(n.x) == 0))
  {
    if n.valid {
      if Val(n.x) == 0 {
        ParsedDigits("", "0", "", false);
        assert "0"[..0] == "" && "" + "0" + "" == "0" && "0" + "" == "0";
        DivModIs(0, B128, 0, 0);
      } else {
        ReadNonzero(n);
      }
    }
  }

  lemma ReadNonzero(n: SafeNumber)
    requires Canonical(n) && Val(n.x) != 0
    ensures Parsed(Text(n)) == Some(Read(Val(n.x), n.e)) && 1 <= |Text(n)| <= 40 && (Text(n)[0] != '-' <==> n.sign)
  {
    var m := Magnitude(Val(n.x), n.e);
    EatMagnitude(Val(n.x), n.e);
    assert Text(n) == (if n.sign then "" else "-") + m;
    if n.sign {
      assert Text(n) == m;
    } else {
      assert Text(n)[1..] == m;
    }
  }

  // ---------- the form of a text ----------

  lemma {:induction false} LeadingDigit(n: nat)
    requires n > 0
    ensures DigitsOf(n, 10) != "" && DigitsOf(n, 10)[0] != '0'
    decreases n
  {
    HexDigit(n % 10);
    if n >= 10 {
      LeadingDigit(n / 10);
    }
  }

  lemma IntegerForm(x: nat)
    ensures var p := Printed(x, 10, 0); OnlyDigits(p) && |p| >= 1 && (|p| > 1 ==> p[0] != '0')
  {
    PrintedIs(x, 0);
    if x > 0 {
      LeadingDigit(x);
    }
  }

  lemma MagnitudeForm(x: nat, e: nat) returns (p: string, q: string)
    requires e > 0 ==> x % 10 != 0
    ensures Magnitude(x, e) == p + (if e == 0 then "" else "." + q)
    ensures OnlyDigits(p) && OnlyDigits(q) && |q| == e && |p| >= 1 && (|p| > 1 ==> p[0] != '0')
  {
    p, q := Printed(Drop(x, e), 10, 0), "";
    IntegerForm(Drop(x, e));
    FractionNonzero(x, e);
    if e > 0 {
      q := Printed(Fraction(x, e), 10, e);
      FractionDigits(Fraction(x, e), e);
    }
  }

  /** A minus sign for a negative number, the integer part without needless zeros, and as many digits after a point
      as the number has places; "0" for every zero, and "NaN" for what is invalid. */
  lemma TextForm(n: SafeNumber) returns (p: string, q: string)
    requires n.valid ==> Canonical(n)
    ensures !n.valid ==> Text(n) == "NaN"
    ensures n.valid && Val(n.x) == 0 ==> Text(n) == "0"
    ensures n.valid && Val(n.x) != 0 ==>
        && Text(n) == (if n.sign then "" else "-") + (p + (if n.e == 0 then "" else "." + q))
        && OnlyDigits(p) && OnlyDigits(q) && |q| == n.e && |p| >= 1 && (|p| > 1 ==> p[0] != '0')
  {
    p, q := "", "";
    if n.valid && Val(n.x) != 0 {
      p, q := MagnitudeForm(Val(n.x), n.e);
    }
  }

  // ---------- what a text is read as ----------

  /** An optional sign, digits, and optionally a point and digits: the number that the digits denote, modulo 2^128,
      with as many places as there are digits after the point. */
  lemma ParsedDigits(sign: string, a: string, b: string, dot: bool)
    requires sign in ["", "+", "-"] && (dot || b == "")
    requires OnlyDigits(a) && OnlyDigits(b)
    requires 1 <= |sign + a + (if dot then "." + b else "")| <= 40
    ensures Parsed(sign + a + (if dot then "." + b else "")) == Some(Read(NumberOf(a + b, 10) % B128, |b|))
  {
    var t := if dot then "." + b else "";
    SignIs(sign, a, t);
    EatDecimals(a, b, dot);
  }

  lemma SignIs(sign: string, a: string, t: string)
    requires sign in ["", "+", "-"] && 1 <= |sign + a + t| <= 40 && OnlyDigits(a) && (t == "" || t[0] == '.')
    ensures Parsed(sign + a + t) == Eat(a + t, false, 0, 0)
  {
    var s := sign + a + t;
    assert s == sign + (a + t);
    if sign == "" {
      assert s == a + t;
    }
    assert Unsigned(s) == a + t;
  }

  lemma EatDecimals(a: string, b: string, dot: bool)
    requires dot || b == ""
    requires OnlyDigits(a) && OnlyDigits(b)
    ensures Eat(a + (if dot then "." + b else ""), false, 0, 0) == Some(Read(NumberOf(a + b, 10) % B128, |b|))
  {
    EatDigits(a, if dot then "." + b else "", false, 0, 0);
    AccumJoin(a, b);
    ModIdle(Accum(0, a));
    if dot {
      EatPoint(b, Accum(0, a) % B128);
      AccumMod(Accum(0, a), b);
    } else {
      assert a + b == a;
    }
  }

  lemma EatPoint(b: string, x: nat)
    requires OnlyDigits(b) && x < B128
    ensures Eat("." + b, false, x, 0) == Some(Read(Accum(x, b) % B128, |b|))
  {
    assert ("." + b)[1..] == b == b + "";
    EatDigits(b, "", true, x, 0);
  }

  lemma AccumJoin(a: string, b: string)
    requires OnlyDigits(a) && OnlyDigits(b)
    ensures NumberOf(a + b, 10) == Accum(Accum(0, a), b) && Accum(0, a) == NumberOf(a, 10)
  {
    AccumThen(0, a, b);
    AccumIs(0, a + b);
    AccumIs(0, a);
    ScaleZero(|a + b|);
    ScaleZero(|a|);
  }

  lemma {:induction false} AccumThen(x: nat, a: string, b: string)
    requires OnlyDigits(a) && OnlyDigits(b)
    ensures Accum(x, a + b) == Accum(Accum(x, a), b)
    decreases |a|
  {
    if a == "" {
      assert a + b == b;
    } else {
      assert (a + b)[1..] == a[1..] + b;
      AccumThen(10 * x + (a[0] as int - '0' as int), a[1..], b);
    }
  }

  lemma {:induction false} EatNone(s: string, afterDot: bool, x: nat, e: nat)
    ensures Eat(s, afterDot, x, e).None? <==> multiset(s)['.'] > if afterDot then 0 else 1
    decreases |s|
  {
    if s != "" {
      assert s == [s[0]] + s[1..];
      EatNone(s[1..], if s[0] == '.' then true else afterDot, if s[0] == '.' then x else NextX(x, s[0]),
              if s[0] != '.' && afterDot then e + 1 else e);
    }
  }

  /** Only an empty text, one of more than 40 characters, "NaN" and a text with two points are read as NaN. */
  lemma ParsedNone(s: string)
    ensures Parsed(s).None? <==> s == "" || |s| > 40 || s == "NaN" || multiset(s)['.'] >= 2
  {
    if s != "" {
      assert s == [s[0]] + s[1..];
      EatNone(Unsigned(s), false, 0, 0);
    }
  }
}
