/**
  The exchange contract as it runs: each call reads and writes the storage step by step, and a call that
  throws is rolled back (src/native_contract/native_exchange_contract.cpp:160-397, 413-503, 560-747).
  Prices and fees go through the decimal arithmetic of SafeArith.
 */
module ExchangeContract {
  import opened Options
  import opened Signed64
  import opened Arith
  import opened Decimal
  import opened Uint128
  import opened SafeNumbers
  import opened SafeArith
  import opened SafeText
  import L = ExchangeLedger

  // ---------- prices and fees ----------

  predicate Positive64(x: int) {
    0 < x < 0x8000_0000_0000_0000
  }

  /** The product of two 64-bit amounts as a decimal number: exact. */
  method Amounts(x: int, y: int) returns (r: SafeNumber)
    requires Positive64(x) && Positive64(y)
    ensures Canonical(r) && r.sign && r.e == 0 && Val(r.x) == Times(x, y) > 0
  {
    var a := OfInt(x);
    var b := OfInt(y);
    r := Multiply(a, b);
    SmallProduct(x, y);
    assert Drop(Times(x, y), 0) == Times(x, y);
  }

  lemma SmallProduct(x: nat, y: nat)
    requires x < 0x8000_0000_0000_0000 && y < 0x8000_0000_0000_0000
    ensures Times(x, y) < B128 && (x > 0 && y > 0 ==> Times(x, y) > 0)
  {
    TimesIs(x, y);
    MulMono(x, 0x8000_0000_0000_0000, y);
    if x > 0 {
      MulMono(1, x, y);
    }
  }

  /** The price check of checkOrder is the comparison of integers spentNum * purchaseNum > getNum * payNum. */
  method PriceTooHigh(spentNum: int, purchaseNum: int, getNum: int, payNum: int) returns (b: bool)
    requires Positive64(spentNum) && Positive64(purchaseNum) && Positive64(getNum) && Positive64(payNum)
    ensures b <==> spentNum * purchaseNum > getNum * payNum
  {
    var x := Amounts(spentNum, purchaseNum);
    var y := Amounts(getNum, payNum);
    TimesIs(spentNum, purchaseNum);
    TimesIs(getNum, payNum);
    b := GreaterThan(x, y);
    ScaleIs(Val(x.x), 16);
    ScaleIs(Val(y.x), 16);
    if Val(x.x) <= Val(y.x) {
      ScaleMono(Val(x.x), Val(y.x), 16);
    } else {
      ScaleMono(Val(y.x), Val(x.x), 16);
    }
  }

  /** The fee that the text of a percentage asks for: spentNum times the number the text denotes, cut to the
      places that are kept of it, without its fraction and its bits from 2^64 on, and then cut to a 64-bit
      integer; a text that is read as NaN asks for all of spentNum. */
  function FeeShare(spentNum: int, fee: string): int {
    if spentNum <= 0 then 0
    else if Parsed(fee).None? then Narrow(spentNum % B64)
    else
      var x, e := Parsed(fee).value.x, Parsed(fee).value.e;
      Sgn(fee[0] != '-', Narrow(WholeShare(spentNum, x, e) % B64))
  }

  /** The integer part of spentNum times x * 10^-e. */
  function WholeShare(spentNum: nat, x: nat, e: nat): nat {
    Drop(Times(spentNum, Drop(x, e - Places(x, e))), Places(x, e))
  }

  method RawFee(spentNum: int, fee: string) returns (r: int)
    requires Positive64(spentNum)
    ensures r == FeeShare(spentNum, fee)
  {
    var a := OfInt(spentNum);
    var b := OfString(fee);
    var m := Multiply(a, b);
    r := ToInt64(m);
    if Parsed(fee).Some? {
      ShareIs(spentNum, Parsed(fee).value.x, Parsed(fee).value.e, fee[0] != '-', b);
      ProductShare(a, b, m, WholeShare(spentNum, Parsed(fee).value.x, Parsed(fee).value.e), fee[0] != '-');
    } else {
      assert Drop(Val(a.x), 0) == Val(a.x);
    }
  }

  /** The fee asked for is the number's share of spentNum rounded toward zero, and all of spentNum for a text that
      is read as NaN, if and only if that is below 2^62 in magnitude. */
  lemma FeeShareIs(spentNum: int, fee: string)
    requires Positive64(spentNum)
    ensures match Parsed(fee)
      case None => FeeShare(spentNum, fee) == spentNum <==> spentNum < 0x4000_0000_0000_0000
      case Some(r) =>
        var share: int := WholeShare(spentNum, r.x, r.e);
        FeeShare(spentNum, fee) == (if fee[0] == '-' then -share else share) <==> share < 0x4000_0000_0000_0000
  {
    var v := if Parsed(fee).None? then spentNum else WholeShare(spentNum, Parsed(fee).value.x, Parsed(fee).value.e);
    NarrowIs(v);
  }

  lemma NarrowIs(v: int)
    requires v >= 0
    ensures Narrow(v % B64) == v <==> v < 0x4000_0000_0000_0000
    ensures -Narrow(v % B64) == -v <==> v < 0x4000_0000_0000_0000
  {
    if v < 0x4000_0000_0000_0000 {
      DivModIs(v, B64, 0, v);
      DivModIs(v, 0x8000_0000_0000_0000, 0, v);
    }
  }

  /** For a number of up to 32 digits, 16 of them after the point: spentNum * x / 10^e, rounded down. */
  lemma WholeShareIs(spentNum: nat, x: nat, e: nat)
    requires e <= 16 && x <= 100_000_000_000_000_000_000_000_000_000_000
    ensures Pow(10, e) > 0 && WholeShare(spentNum, x, e) == spentNum * x / Pow(10, e)
  {
    TimesIs(spentNum, x);
    DropIs(spentNum * x, e);
  }

  /** The share may be taken of the compressed number. */
  lemma ShareIs(spentNum: nat, x: nat, e: nat, sign: bool, n: SafeNumber)
    requires x < B128 && e <= 40 && IsCompressed(SafeNumber(true, sign, Of(x), e), n)
    ensures WholeShare(spentNum, x, e) == Drop(Times(spentNum, Val(n.x)), n.e)
    ensures Val(n.x) != 0 ==> n.sign == sign
  {
    var k := Places(x, e);
    var t := Times(spentNum, Val(n.x));
    TimesScale(spentNum, Val(n.x), k - n.e);
    DropDrop(Scale(t, k - n.e), k - n.e, n.e);
    DropScale(t, k - n.e);
  }

  lemma {:induction false} TimesScale(x: nat, y: nat, n: nat)
    ensures Times(x, Scale(y, n)) == Scale(Times(x, y), n)
  {
    if x == 0 {
      ScaleZero(n);
    } else {
      TimesScale(x - 1, y, n);
      ScaleAdd(Times(x - 1, y), y, n);
    }
  }

  /** The 64 low bits of the integer part of a product, whether or not it fits in 128 bits. */
  lemma ProductShare(a: SafeNumber, b: SafeNumber, m: SafeNumber, q: nat, sign: bool)
    requires Canonical(a) && Canonical(b) && Canonical(m) && a.sign && a.e == 0
    requires q == Drop(Times(Val(a.x), Val(b.x)), b.e) && (Val(b.x) != 0 ==> b.sign == sign)
    requires q < B128 ==> IsProduct(a, b, m)
    requires q >= B128 ==> m.e == 0 && m.sign == b.sign && Val(m.x) == q % B128
    ensures Sgn(m.sign, Narrow(Drop(Val(m.x), m.e) % B64)) == Sgn(sign, Narrow(q % B64))
  {
    if Val(b.x) == 0 {
      TimesZero(Val(a.x), Val(b.x));
      ScaleZero(b.e);
      DropIs(0, b.e);
    }
    if q < B128 {
      ProductInteger(a, b, m);
    } else {
      ModMod(q);
    }
  }

  lemma ModMod(q: nat)
    ensures (q % B128) % B64 == q % B64
  {
    DivModIs(q, B128, q / B128, q % B128);
    ModPlus(q % B128, (q / B128) * B64, B64);
  }

  /** The integer part of a truncated product is that of the exact product. */
  lemma ProductInteger(a: SafeNumber, b: SafeNumber, m: SafeNumber)
    requires Canonical(a) && Canonical(b) && IsProduct(a, b, m)
    ensures Drop(Val(m.x), m.e) == Drop(Times(Val(a.x), Val(b.x)), a.e + b.e)
    ensures Val(m.x) != 0 ==> m.sign == (a.sign == b.sign)
    ensures Val(m.x) == 0 ==> Drop(Val(m.x), m.e) == 0
  {
    var p, e := Times(Val(a.x), Val(b.x)), a.e + b.e;
    var k := ProductPlaces(p, e);
    DropDrop(p, e - k, k);
    DropDrop(Scale(Val(m.x), k - m.e), k - m.e, m.e);
    DropScale(Val(m.x), k - m.e);
    ScaleZero(m.e);
    DropIs(Val(m.x), m.e);
  }

  // ---------- the contract ----------

  /** The fees the maker orders ask for. */
  function Fees(book: L.Id -> L.Order, makers: seq<L.Fill>): (r: seq<int>)
    ensures |r| == |makers|
  {
    seq(|makers|, k requires 0 <= k < |makers| => FeeShare(makers[k].spentNum, book(makers[k].id).fee))
  }

  /** A call of fillOrder, with the fees that its orders ask for. */
  function FillOrderCall(book: L.Id -> L.Order, taker: L.Fill, makers: seq<L.Fill>, now: int): L.Call {
    L.FillCall(taker, makers, now, FeeShare(taker.spentNum, book(taker.id).fee), Fees(book, makers))
  }

  class Exchange {
    var balances: L.Balances
    var orders: map<L.Id, L.Stored>
    var minFees: map<L.Asset, int>
    var feeReceiver: L.Address
    var events: seq<L.Change>

    ghost function Now(): L.Ledger reads this {
      L.Ledger(balances, orders, minFees, feeReceiver, events)
    }

    /** init and init_config */
    constructor (receiver: L.Address)
      ensures Now() == L.Empty(receiver)
    {
      balances, orders, minFees, feeReceiver, events := map[], map[], map[], receiver, [];
    }

    method Add(k: L.Account, amount: int)
      modifies this`balances
      ensures balances == L.Credit(old(balances), k, amount)
    {
      var bal := if k in balances then balances[k] else 0;
      balances := balances[k := Wrap64(bal + amount)];
    }

    method OnDepositAsset(k: L.Account, amount: Int64) returns (ok: bool)
      modifies this`balances, this`events
      ensures ok == L.Deposit(old(Now()), k, amount).Some?
      ensures Now() == L.OrElse(L.Deposit(old(Now()), k, amount), old(Now()))
    {
      if amount <= 0 {
        return false;
      }
      Add(k, amount);
      events := events + [L.Change(k, amount)];
      return true;
    }

    method Withdraw(k: L.Account, amount: Int64) returns (ok: bool)
      modifies this`balances, this`events
      ensures ok == L.Withdraw(old(Now()), k, amount).Some?
      ensures Now() == L.OrElse(L.Withdraw(old(Now()), k, amount), old(Now()))
    {
      if amount <= 0 || k.asset == "" || k !in balances {
        return false;
      }
      var bal := balances[k];
      if amount > bal {
        return false;
      }
      var newBalance := bal - amount;
      if newBalance == 0 {
        balances := balances - {k};
      } else {
        balances := balances[k := newBalance];
      }
      events := events + [L.Change(k, -(amount as int))];
      return true;
    }

    method SetMinFee(asset: L.Asset, amount: Int64) returns (ok: bool)
      modifies this`minFees
      ensures ok <==> asset != "" && amount >= 0
      ensures Now() == old(Now()).(minFees := if ok then old(minFees)[asset := amount] else old(minFees))
    {
      if asset == "" || amount < 0 {
        return false;
      }
      minFees := minFees[asset := amount];
      return true;
    }

    /** The fee that is charged; false where checkOrder throws. */
    method ChargedFee(o: L.Order, spentNum: int) returns (ok: bool, fee: int)
      requires Positive64(spentNum)
      ensures ok == L.Fee(FeeShare(spentNum, o.fee), L.MinFee(Now(), o.payAsset), spentNum).Some?
      ensures ok ==> fee == L.Fee(FeeShare(spentNum, o.fee), L.MinFee(Now(), o.payAsset), spentNum).value
    {
      fee := RawFee(spentNum, o.fee);
      var minFee := if o.payAsset in minFees then minFees[o.payAsset] else 0;
      if fee < 0 {
        return false, 0;
      } else if fee < minFee {
        fee := minFee;
      } else if fee >= spentNum {
        return false, 0;
      }
      return true, fee;
    }

    /** The stored record of the order brought up to date; false where checkOrder throws. */
    method UpdateStored(o: L.Order, f: L.Fill) returns (ok: bool)
      modifies this`orders
      ensures ok == L.StoreFill(old(Now()), o, f).Some?
      ensures orders == if ok then old(orders)[f.id := L.StoreFill(old(Now()), o, f).value] else old(orders)
    {
      var spent, got := f.spentNum, f.getNum;
      if f.id in orders {
        var s := orders[f.id];
        if s.state.Some? {
          return false;
        }
        if s.spent.Some? {
          var remain := Wrap64(o.payNum - s.spent.value);
          if remain < f.spentNum || s.got.None? {
            return false;
          }
          spent, got := Wrap64(s.spent.value + f.spentNum), Wrap64(s.got.value + f.getNum);
        }
      }
      orders := orders[f.id := L.Stored(None, Some(spent), Some(got))];
      return true;
    }

    /** Price and fee leave the payer's balance. */
    method Pay(o: L.Order, f: L.Fill, fee: int)
      requires L.Account(o.owner, o.payAsset) in balances
      modifies this`balances
      ensures balances == L.Paid(old(balances), o, f, fee)
    {
      var pay := L.Account(o.owner, o.payAsset);
      WrapSum(balances[pay] - f.spentNum, -fee);
      balances := balances[pay := Wrap64(Wrap64(balances[pay] - f.spentNum) - fee)];
    }

    /** The amounts move: payment and fee out, purchase in, fee to its receiver. */
    method MoveAmounts(o: L.Order, f: L.Fill, fee: int, receiver: L.Address)
      requires L.Account(o.owner, o.payAsset) in balances
      modifies this`balances
      ensures balances == L.Settle(old(balances), o, f, fee, receiver)
    {
      Pay(o, f, fee);
      Add(L.Account(o.owner, o.purchaseAsset), f.getNum);
      if fee > 0 {
        Add(L.Account(receiver, o.payAsset), fee);
      }
    }

    /** And are told. */
    method TellAmounts(o: L.Order, f: L.Fill, fee: int, receiver: L.Address)
      modifies this`events
      ensures events == old(events) + L.FillEvents(o, f, fee, receiver)
    {
      WrapNegated(f.spentNum + fee);
      events := events + [L.Change(L.Account(o.owner, o.payAsset), Wrap64(-Wrap64(f.spentNum + fee)))];
      if fee > 0 {
        events := events + [L.Change(L.Account(receiver, o.payAsset), fee)];
      }
      events := events + [L.Change(L.Account(o.owner, o.purchaseAsset), f.getNum)];
    }

    /** The fee charged for a fill, if it is not refused. */
    ghost function AskedFee(o: L.Order, f: L.Fill): Option<int>
      reads this
    {
      L.Fee(FeeShare(f.spentNum, o.fee), L.MinFee(Now(), o.payAsset), f.spentNum)
    }

    /** checkOrder up to the price: false where it throws. */
    method Acceptable(o: L.Order, f: L.Fill, now: int) returns (ok: bool, receiver: L.Address, fee: int)
      ensures ok <==> L.WellFormed(o, f, now) && L.Receiver(Now(), o).Some? && AskedFee(o, f).Some? && L.PriceOk(o, f)
      ensures ok ==> receiver == L.Receiver(Now(), o).value && fee == AskedFee(o, f).value
    {
      ok, receiver, fee := false, "", 0;
      if !o.signed || o.expiredAt <= now {
        return;
      }
      if o.purchaseNum <= 0 || o.payNum <= 0 || f.getNum <= 0 || f.spentNum <= 0 || f.spentNum > o.payNum {
        return;
      }
      if o.relayer == "" {
        receiver := feeReceiver;
      } else if !o.relayerValid {
        return;
      } else {
        receiver := o.relayer;
      }
      if !o.feeNumeric {
        return;
      }
      ok, fee := ChargedFee(o, f.spentNum);
      if !ok {
        return;
      }
      if o.kind.OtherKind? {
        ok := false;
        return;
      }
      var tooHigh := PriceTooHigh(f.spentNum, o.purchaseNum, f.getNum, o.payNum);
      ok := !tooHigh;
    }

    /** checkOrder */
    method CheckOrder(o: L.Order, f: L.Fill, now: int) returns (ok: bool)
      modifies this`balances, this`orders, this`events
      ensures ok == L.CheckOrder(old(Now()), o, f, now, FeeShare(f.spentNum, o.fee)).Some?
      ensures Now() == L.OrElse(L.CheckOrder(old(Now()), o, f, now, FeeShare(f.spentNum, o.fee)), old(Now()))
    {
      var receiver, fee;
      ok, receiver, fee := Acceptable(o, f, now);
      if !ok {
        return;
      }
      var pay := L.Account(o.owner, o.payAsset);
      if pay !in balances || balances[pay] < Wrap64(f.spentNum + fee) {
        ok := false;
        return;
      }
      ok := UpdateStored(o, f);
      if ok {
        MoveAmounts(o, f, fee, receiver);
        TellAmounts(o, f, fee, receiver);
      }
    }

    /** checkMatchedOrders; when it throws, the caller rolls back what has been done. */
    method CheckMatchedOrders(book: L.Id -> L.Order, taker: L.Fill, makers: seq<L.Fill>, now: int)
      returns (ok: bool)
      modifies this`balances, this`orders, this`events
      ensures var r := L.Match(old(Now()), book, taker, makers, now, FeeShare(taker.spentNum, book(taker.id).fee),
          Fees(book, makers));
        ok == r.Some? && (ok ==> Now() == r.value)
    {
      ok := CheckOrder(book(taker.id), taker, now);
      if !ok {
        return;
      }
      var takerOrder := book(taker.id);
      ok := CheckMakerOrders(book, takerOrder, makers, now);
      if !ok {
        return;
      }
      var totalGet, totalSpent := Totals(makers);
      ok := totalGet == taker.spentNum && totalSpent == taker.getNum;
    }

    method Totals(makers: seq<L.Fill>) returns (get: int, spent: int)
      ensures get == Wrap64(L.TotalGet(makers)) && spent == Wrap64(L.TotalSpent(makers))
    {
      get, spent := 0, 0;
      var i := 0;
      while i < |makers|
        invariant 0 <= i <= |makers|
        invariant get == Wrap64(L.TotalGet(makers[..i])) && spent == Wrap64(L.TotalSpent(makers[..i]))
      {
        assert makers[..i + 1][..i] == makers[..i];
        WrapSum(L.TotalGet(makers[..i]), makers[i].getNum);
        WrapSum(L.TotalSpent(makers[..i]), makers[i].spentNum);
        get := Wrap64(makers[i].getNum + get);
        spent := Wrap64(makers[i].spentNum + spent);
        i := i + 1;
      }
      assert makers[..|makers|] == makers;
    }

    method CheckMakerOrders(book: L.Id -> L.Order, taker: L.Order, makers: seq<L.Fill>, now: int) returns (ok: bool)
      modifies this`balances, this`orders, this`events
      ensures var r := L.CheckMakers(old(Now()), book, taker, makers, now, Fees(book, makers));
        ok == r.Some? && (ok ==> Now() == r.value)
    {
      ghost var fees, before := Fees(book, makers), Now();
      var i := 0;
      while i < |makers|
        invariant 0 <= i <= |makers|
        invariant L.CheckMakers(before, book, taker, makers[..i], now, fees[..i]) == Some(Now())
      {
        MakersNext(before, book, taker, makers, now, fees, i, Now());
        ok := CheckOrder(book(makers[i].id), makers[i], now);
        ok := ok && L.Matches(taker, book(makers[i].id));
        if !ok {
          MakersFail(before, book, taker, makers, now, fees, i + 1);
          return;
        }
        i := i + 1;
      }
      assert makers[..|makers|] == makers && fees[..|makers|] == fees;
      ok := true;
    }

    /** fillOrder: all or nothing. */
    method FillOrder(book: L.Id -> L.Order, taker: L.Fill, makers: seq<L.Fill>, now: int)
      returns (ok: bool)
      modifies this`balances, this`orders, this`events
      ensures Now() == L.Exec(old(Now()), book, FillOrderCall(book, taker, makers, now))
      ensures !ok ==> Now() == old(Now())
    {
      var balances0, orders0, events0 := balances, orders, events;
      ok := CheckMatchedOrders(book, taker, makers, now);
      if !ok {
        balances, orders, events := balances0, orders0, events0;
      }
    }

    /** One order of cancelOrders; is it reported? */
    method CancelOrder(o: L.Order, id: L.Id, caller: L.Address) returns (cancelled: bool)
      modifies this`orders
      ensures Now() == L.CancelOne(old(Now()), o, id, caller)
      ensures cancelled == L.IsReported(old(Now()), o, id, caller)
    {
      if !o.signed || o.owner != caller {
        return false;
      }
      if id in orders {
        var s := orders[id];
        if s.state == Some(0) {
          return false;
        }
        // the changed copy is dropped and the record written back as it was
        ghost var before := orders;
        orders := orders[id := s];
        assert orders == before;
      } else {
        orders := orders[id := L.Stored(Some(0), None, None)];
      }
      return true;
    }

    /** cancelOrders */
    method CancelOrders(book: L.Id -> L.Order, ids: seq<L.Id>, caller: L.Address) returns (cancelled: seq<L.Id>)
      modifies this`orders
      ensures Now() == L.Cancel(old(Now()), book, ids, caller)
      ensures cancelled == L.Reported(old(Now()), book, ids, caller)
    {
      cancelled := [];
      var i := 0;
      while i < |ids|
        invariant 0 <= i <= |ids|
        invariant L.Cancel(Now(), book, ids[i..], caller) == L.Cancel(old(Now()), book, ids, caller)
        invariant cancelled + L.Reported(Now(), book, ids[i..], caller) == L.Reported(old(Now()), book, ids, caller)
      {
        CancelRest(Now(), book, ids, caller, i);
        ghost var was := cancelled;
        var reported := CancelOrder(book(ids[i]), ids[i], caller);
        if reported {
          cancelled := cancelled + [ids[i]];
        }
        Appended(was, if reported then [ids[i]] else [], L.Reported(Now(), book, ids[i + 1..], caller));
        i := i + 1;
      }
    }
  }

  /** The first of the orders left, and the others. */
  lemma CancelRest(l: L.Ledger, book: L.Id -> L.Order, ids: seq<L.Id>, caller: L.Address, i: nat)
    requires i < |ids|
    ensures var l1 := L.CancelOne(l, book(ids[i]), ids[i], caller);
      && L.Cancel(l, book, ids[i..], caller) == L.Cancel(l1, book, ids[i + 1..], caller)
      && L.Reported(l, book, ids[i..], caller)
        == (if L.IsReported(l, book(ids[i]), ids[i], caller) then [ids[i]] else [])
           + L.Reported(l1, book, ids[i + 1..], caller)
  {
    var rest := ids[i..];
    assert rest[0] == ids[i] && rest[1..] == ids[i + 1..];
  }

  lemma Appended(done: seq<L.Id>, here: seq<L.Id>, rest: seq<L.Id>)
    ensures done + (here + rest) == (done + here) + rest
  {
  }

  /** The makers' orders and one more. */
  lemma OneMoreMaker(l: L.Ledger, book: L.Id -> L.Order, taker: L.Order, before: seq<L.Fill>, f: L.Fill, now: int,
          fees: seq<int>, fee: int, l1: L.Ledger)
    requires |fees| == |before| && L.CheckMakers(l, book, taker, before, now, fees) == Some(l1)
    ensures |before + [f]| == |fees + [fee]|
    ensures L.CheckMakers(l, book, taker, before + [f], now, fees + [fee])
         == if L.Matches(taker, book(f.id)) then L.CheckOrder(l1, book(f.id), f, now, fee) else None
  {
    var ms, fs := before + [f], fees + [fee];
    assert ms[..|before|] == before && fs[..|before|] == fees;
  }

  lemma MakersNext(l: L.Ledger, book: L.Id -> L.Order, taker: L.Order, makers: seq<L.Fill>, now: int,
          rawFees: seq<int>, i: nat, l1: L.Ledger)
    requires i < |makers| == |rawFees| && L.CheckMakers(l, book, taker, makers[..i], now, rawFees[..i]) == Some(l1)
    ensures L.CheckMakers(l, book, taker, makers[..i + 1], now, rawFees[..i + 1])
         == if L.Matches(taker, book(makers[i].id))
            then L.CheckOrder(l1, book(makers[i].id), makers[i], now, rawFees[i]) else None
  {
    OneMoreMaker(l, book, taker, makers[..i], makers[i], now, rawFees[..i], rawFees[i], l1);
    assert makers[..i] + [makers[i]] == makers[..i + 1] && rawFees[..i] + [rawFees[i]] == rawFees[..i + 1];
  }

  /** When the makers before the last fail, the last does not matter. */
  lemma LastFails(l: L.Ledger, book: L.Id -> L.Order, taker: L.Order, makers: seq<L.Fill>, now: int,
          rawFees: seq<int>)
    requires |rawFees| == |makers| > 0 &&
        L.CheckMakers(l, book, taker, makers[..|makers| - 1], now, rawFees[..|makers| - 1]).None?
    ensures L.CheckMakers(l, book, taker, makers, now, rawFees).None?
  {
  }

  /** Once one maker order fails, the rest does not matter. */
  lemma {:induction false} MakersFail(l: L.Ledger, book: L.Id -> L.Order, taker: L.Order, makers: seq<L.Fill>,
          now: int, rawFees: seq<int>, i: nat)
    requires |rawFees| == |makers| && i <= |makers| &&
        L.CheckMakers(l, book, taker, makers[..i], now, rawFees[..i]).None?
    ensures L.CheckMakers(l, book, taker, makers, now, rawFees).None?
    decreases |makers|
  {
    var n := |makers| - 1;
    if i == |makers| {
      assert makers[..i] == makers && rawFees[..i] == rawFees;
    } else {
      assert makers[..n][..i] == makers[..i] && rawFees[..n][..i] == rawFees[..i];
      MakersFail(l, book, taker, makers[..n], now, rawFees[..n], i);
      LastFails(l, book, taker, makers, now, rawFees);
    }
  }
}
