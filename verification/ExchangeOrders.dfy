/**
  What is recorded of an order in every run of the exchange, whatever sums wrap around: the fills that went
  through add up to it, exactly for what it has spent and in 64 bits for what it has got.  So no order is filled
  beyond payNum, and its price holds as long as what it has got is below 2^63, and no longer
  (src/native_contract/native_exchange_contract.cpp:233-310).
 */
module ExchangeOrders {
  import opened Options
  import opened Signed64
  import opened ExchangeLedger

  // ---------- the fills that went through ----------

  /** The fills a call makes: all of those it names, or none. */
  function CallFills(l: Ledger, book: Id -> Order, c: Call): seq<Fill> {
    if c.FillCall? && |c.rawFees| == |c.makers| && Match(l, book, c.taker, c.makers, c.now, c.rawFee, c.rawFees).Some?
    then [c.taker] + c.makers
    else []
  }

  function RunFills(l: Ledger, book: Id -> Order, calls: seq<Call>): seq<Fill>
    decreases |calls|
  {
    var n := |calls| - 1;
    if calls == [] then [] else RunFills(l, book, calls[..n]) + CallFills(Run(l, book, calls[..n]), book, calls[n])
  }

  /** What the fills of one order spend. */
  function SpentOf(fills: seq<Fill>, id: Id): int
    decreases |fills|
  {
    var n := |fills| - 1;
    if fills == [] then 0 else SpentOf(fills[..n], id) + if fills[n].id == id then fills[n].spentNum else 0
  }

  /** What the fills of one order get. */
  function GotOf(fills: seq<Fill>, id: Id): int
    decreases |fills|
  {
    var n := |fills| - 1;
    if fills == [] then 0 else GotOf(fills[..n], id) + if fills[n].id == id then fills[n].getNum else 0
  }

  lemma OneMoreFill(fills: seq<Fill>, f: Fill, id: Id)
    ensures SpentOf(fills + [f], id) == SpentOf(fills, id) + if f.id == id then f.spentNum else 0
    ensures GotOf(fills + [f], id) == GotOf(fills, id) + if f.id == id then f.getNum else 0
  {
    assert (fills + [f])[..|fills|] == fills;
  }

  lemma {:induction false} GotJoined(fills: seq<Fill>, more: seq<Fill>, id: Id)
    ensures GotOf(fills + more, id) == GotOf(fills, id) + GotOf(more, id)
    decreases |more|
  {
    if more == [] {
      assert fills + more == fills;
    } else {
      assert (fills + more)[..|fills + more| - 1] == fills + more[..|more| - 1];
      GotJoined(fills, more[..|more| - 1], id);
    }
  }

  /** Every fill that goes through is of positive amounts, and at the order's price. */
  predicate FillOk(o: Order, f: Fill) {
    o.purchaseNum > 0 && o.payNum > 0 && f.getNum > 0 && f.spentNum > 0 && PriceOk(o, f)
  }

  ghost predicate FillsOk(book: Id -> Order, fills: seq<Fill>) {
    forall k :: 0 <= k < |fills| ==> FillOk(book(fills[k].id), fills[k])
  }

  lemma OneMoreOk(book: Id -> Order, fills: seq<Fill>, f: Fill)
    requires FillsOk(book, fills) && FillOk(book(f.id), f)
    ensures FillsOk(book, fills + [f])
  {
  }

  lemma SumOfPrices(s: int, g: int, s': int, g': int, p: int, q: int)
    requires s * p <= g * q && s' * p <= g' * q
    ensures (s + s') * p <= (g + g') * q
  {
  }

  /** So the exact sums are at the order's price too. */
  lemma {:induction false} ExactPrice(book: Id -> Order, fills: seq<Fill>, id: Id)
    requires FillsOk(book, fills)
    ensures var s, g := SpentOf(fills, id), GotOf(fills, id);
      0 <= s && 0 <= g && (s > 0 <==> g > 0) && s * book(id).purchaseNum <= g * book(id).payNum
    decreases |fills|
  {
    if fills != [] {
      var n := |fills| - 1;
      var before, f := fills[..n], fills[n];
      ExactPrice(book, before, id);
      if f.id == id {
        SumOfPrices(SpentOf(before, id), GotOf(before, id), f.spentNum, f.getNum, book(id).purchaseNum,
          book(id).payNum);
      }
    }
  }

  // ---------- what is recorded ----------

  predicate HasFills(l: Ledger, id: Id) {
    id in l.orders && l.orders[id].spent.Some?
  }

  /** What is recorded of the order is what its fills add up to. */
  ghost predicate Recorded(l: Ledger, o: Order, fills: seq<Fill>, id: Id) {
    if HasFills(l, id) then
      && l.orders[id] == Stored(None, Some(SpentOf(fills, id)), Some(Wrap64(GotOf(fills, id))))
      && 0 < SpentOf(fills, id) <= o.payNum
    else SpentOf(fills, id) == 0
  }

  ghost predicate AllRecorded(l: Ledger, book: Id -> Order, fills: seq<Fill>) {
    true == (
    && FillsOk(book, fills)
    && (forall id :: Recorded(l, book(id), fills, id))
    )
  }

  /** What is stored of the order with one more fill. */
  lemma StoredRecorded(l: Ledger, o: Order, fills: seq<Fill>, f: Fill, s: Stored)
    requires StoreFill(l, o, f) == Some(s) && Recorded(l, o, fills, f.id) && 0 < f.spentNum <= o.payNum
    requires SpentOf(fills, f.id) == 0 ==> GotOf(fills, f.id) == 0
    ensures var spent, got := SpentOf(fills, f.id) + f.spentNum, GotOf(fills, f.id) + f.getNum;
      s == Stored(None, Some(spent), Some(Wrap64(got))) && 0 < spent <= o.payNum
  {
    WrapSum(GotOf(fills, f.id), f.getNum);
  }

  /** What a fill that goes through stores. */
  lemma FillStores(l: Ledger, o: Order, f: Fill, now: int, rawFee: int, l': Ledger) returns (s: Stored)
    requires CheckOrder(l, o, f, now, rawFee) == Some(l')
    ensures StoreFill(l, o, f) == Some(s) && l'.orders == l.orders[f.id := s]
    ensures FillOk(o, f) && f.spentNum <= o.payNum
  {
    s := StoreFill(l, o, f).value;
  }

  /** One more fill of an order, recorded. */
  lemma FillRecorded(l: Ledger, book: Id -> Order, fills: seq<Fill>, f: Fill, now: int, rawFee: int, l': Ledger)
    requires CheckOrder(l, book(f.id), f, now, rawFee) == Some(l') && AllRecorded(l, book, fills)
    ensures AllRecorded(l', book, fills + [f])
  {
    var s := FillStores(l, book(f.id), f, now, rawFee, l');
    OneMoreOk(book, fills, f);
    ExactPrice(book, fills, f.id);
    StoredRecorded(l, book(f.id), fills, f, s);
    forall id ensures Recorded(l', book(id), fills + [f], id) {
      OneRecorded(l, book(id), fills, f, s, l', id);
    }
  }

  lemma OneRecorded(l: Ledger, o: Order, fills: seq<Fill>, f: Fill, s: Stored, l': Ledger, id: Id)
    requires Recorded(l, o, fills, id) && l'.orders == l.orders[f.id := s]
    requires id == f.id ==> var spent, got := SpentOf(fills, f.id) + f.spentNum, GotOf(fills, f.id) + f.getNum;
      s == Stored(None, Some(spent), Some(Wrap64(got))) && 0 < spent <= o.payNum
    ensures Recorded(l', o, fills + [f], id)
  {
    OneMoreFill(fills, f, id);
  }

  lemma {:induction false} MakersRecorded(l: Ledger, book: Id -> Order, fills: seq<Fill>, taker: Order,
          makers: seq<Fill>, now: int, rawFees: seq<int>, l': Ledger)
    requires |rawFees| == |makers| && CheckMakers(l, book, taker, makers, now, rawFees) == Some(l')
    requires AllRecorded(l, book, fills)
    ensures AllRecorded(l', book, fills + makers)
    decreases |makers|
  {
    if makers == [] {
      assert fills + makers == fills;
    } else {
      var n := |makers| - 1;
      var l1 := LastMaker(l, book, taker, makers, now, rawFees, l');
      MakersRecorded(l, book, fills, taker, makers[..n], now, rawFees[..n], l1);
      FillRecorded(l1, book, fills + makers[..n], makers[n], now, rawFees[n], l');
      assert fills + makers == (fills + makers[..n]) + [makers[n]];
    }
  }

  lemma Regrouped(fills: seq<Fill>, f: Fill, more: seq<Fill>)
    ensures fills + ([f] + more) == (fills + [f]) + more
  {
  }

  lemma MatchRecorded(l: Ledger, book: Id -> Order, fills: seq<Fill>, taker: Fill, makers: seq<Fill>, now: int,
          rawFee: int, rawFees: seq<int>, l': Ledger)
    requires |rawFees| == |makers| && Match(l, book, taker, makers, now, rawFee, rawFees) == Some(l')
    requires AllRecorded(l, book, fills)
    ensures AllRecorded(l', book, fills + ([taker] + makers))
  {
    var l1 := TakerFirst(l, book, taker, makers, now, rawFee, rawFees, l');
    FillRecorded(l, book, fills, taker, now, rawFee, l1);
    MakersRecorded(l1, book, fills + [taker], book(taker.id), makers, now, rawFees, l');
    Regrouped(fills, taker, makers);
  }

  /** Cancelling touches no order that has fills. */
  lemma {:induction false} CancelRecorded(l: Ledger, book: Id -> Order, fills: seq<Fill>, ids: seq<Id>,
          caller: Address)
    requires AllRecorded(l, book, fills)
    ensures AllRecorded(Cancel(l, book, ids, caller), book, fills)
    decreases |ids|
  {
    if ids != [] {
      var l1 := CancelOne(l, book(ids[0]), ids[0], caller);
      forall id ensures Recorded(l1, book(id), fills, id) {
        assert Recorded(l, book(id), fills, id);
      }
      CancelRecorded(l1, book, fills, ids[1..], caller);
    }
  }

  lemma SameOrders(l: Ledger, book: Id -> Order, fills: seq<Fill>, l': Ledger)
    requires AllRecorded(l, book, fills) && l'.orders == l.orders
    ensures AllRecorded(l', book, fills)
  {
    forall id ensures Recorded(l', book(id), fills, id) {
      assert Recorded(l, book(id), fills, id);
    }
  }

  lemma ExecRecorded(l: Ledger, book: Id -> Order, fills: seq<Fill>, c: Call)
    requires AllRecorded(l, book, fills)
    ensures AllRecorded(Exec(l, book, c), book, fills + CallFills(l, book, c))
  {
    if CallFills(l, book, c) == [] {
      assert fills + CallFills(l, book, c) == fills;
      match c
      case CancelCall(ids, caller) => CancelRecorded(l, book, fills, ids, caller);
      case _ => SameOrders(l, book, fills, Exec(l, book, c));
    } else {
      MatchRecorded(l, book, fills, c.taker, c.makers, c.now, c.rawFee, c.rawFees, Exec(l, book, c));
    }
  }

  lemma {:induction false} RunRecorded(feeReceiver: Address, book: Id -> Order, calls: seq<Call>)
    ensures AllRecorded(Run(Empty(feeReceiver), book, calls), book, RunFills(Empty(feeReceiver), book, calls))
    decreases |calls|
  {
    if calls != [] {
      var before := calls[..|calls| - 1];
      RunRecorded(feeReceiver, book, before);
      ExecRecorded(Run(Empty(feeReceiver), book, before), book, RunFills(Empty(feeReceiver), book, before),
        calls[|calls| - 1]);
    }
  }

  // ---------- the limit and the price ----------

  /** In every run: what is recorded as spent of an order is what its fills spent, and at most payNum; what is
      recorded as got is what they got, in 64 bits; and their exact sums are at the order's price. */
  lemma RunSpent(feeReceiver: Address, book: Id -> Order, calls: seq<Call>, id: Id)
    ensures var l, fills := Run(Empty(feeReceiver), book, calls), RunFills(Empty(feeReceiver), book, calls);
      && (HasFills(l, id) <==> SpentOf(fills, id) > 0)
      && (HasFills(l, id) ==>
          && l.orders[id] == Stored(None, Some(SpentOf(fills, id)), Some(Wrap64(GotOf(fills, id))))
          && SpentOf(fills, id) <= book(id).payNum)
      && SpentOf(fills, id) * book(id).purchaseNum <= GotOf(fills, id) * book(id).payNum
  {
    RunRecorded(feeReceiver, book, calls);
    ExactPrice(book, RunFills(Empty(feeReceiver), book, calls), id);
    assert Recorded(Run(Empty(feeReceiver), book, calls), book(id), RunFills(Empty(feeReceiver), book, calls), id);
  }

  /** The price holds of what is recorded of the order after these fills. */
  predicate InPrice(o: Order, fills: seq<Fill>, id: Id) {
    SpentOf(fills, id) * o.purchaseNum <= Wrap64(GotOf(fills, id)) * o.payNum
  }

  /** And after each of them. */
  ghost predicate AlwaysInPrice(o: Order, fills: seq<Fill>, id: Id) {
    forall i :: 0 <= i <= |fills| ==> InPrice(o, fills[..i], id)
  }

  lemma Negative(x: int, y: int, p: int, q: int)
    requires x > 0 && p > 0 && y < 0 && q > 0
    ensures x * p > y * q
  {
    assert x * p > 0 > y * q;
  }

  lemma LastPrefix(o: Order, fills: seq<Fill>, id: Id)
    requires fills != []
    ensures AlwaysInPrice(o, fills, id) <==> AlwaysInPrice(o, fills[..|fills| - 1], id) && InPrice(o, fills, id)
  {
    var before := fills[..|fills| - 1];
    assert fills[..|fills|] == fills;
    assert forall i :: 0 <= i <= |before| ==> before[..i] == fills[..i];
  }

  /** The first fill with which what the order has got passes 64 bits leaves a negative amount recorded. */
  lemma {:induction false} PriceUntilWrap(book: Id -> Order, fills: seq<Fill>, id: Id)
    requires FillsOk(book, fills)
    ensures AlwaysInPrice(book(id), fills, id) <==> Fits64(GotOf(fills, id))
    decreases |fills|
  {
    ExactPrice(book, fills, id);
    if fills == [] {
      assert fills[..0] == [];
    } else {
      var n := |fills| - 1;
      PriceUntilWrap(book, fills[..n], id);
      LastPrefix(book(id), fills, id);
      ExactPrice(book, fills[..n], id);
      if Fits64(GotOf(fills[..n], id)) && !Fits64(GotOf(fills, id)) {
        WrapSame(GotOf(fills, id), GotOf(fills, id) - TWO64, 1);
        Negative(SpentOf(fills, id), GotOf(fills, id) - TWO64, book(id).purchaseNum, book(id).payNum);
      }
    }
  }

  /** In every run the price of an order holds of its record after each of its fills if and only if what it has
      got altogether fits in 64 bits. */
  lemma RunPrice(feeReceiver: Address, book: Id -> Order, calls: seq<Call>, id: Id)
    ensures var fills := RunFills(Empty(feeReceiver), book, calls);
      AlwaysInPrice(book(id), fills, id) <==> Fits64(GotOf(fills, id))
  {
    RunRecorded(feeReceiver, book, calls);
    PriceUntilWrap(book, RunFills(Empty(feeReceiver), book, calls), id);
  }

  // ---------- when what is recorded fits ----------

  /** What is recorded as got by the order. */
  function Got(l: Ledger, id: Id): int {
    if HasFills(l, id) && l.orders[id].got.Some? then l.orders[id].got.value else 0
  }

  /** What each order has got fits in 64 bits. */
  ghost predicate GotsFit(fills: seq<Fill>) {
    forall id :: Fits64(GotOf(fills, id))
  }

  /** What the orders have got leaves room for these fills. */
  ghost predicate GotRoom(l: Ledger, fills: seq<Fill>) {
    forall id :: Fits64(Got(l, id) + GotOf(fills, id))
  }

  /** Each call of the run that goes through had that room when it was made. */
  ghost predicate GotRoomRun(l: Ledger, book: Id -> Order, calls: seq<Call>)
    decreases |calls|
  {
    var n := |calls| - 1;
    calls == [] || (
      && GotRoomRun(l, book, calls[..n])
      && GotRoom(Run(l, book, calls[..n]), CallFills(Run(l, book, calls[..n]), book, calls[n])))
  }

  /** The recorded amount is exact as long as it fits. */
  lemma GotExact(l: Ledger, book: Id -> Order, fills: seq<Fill>, more: seq<Fill>, id: Id)
    requires AllRecorded(l, book, fills) && FillsOk(book, more)
    ensures Fits64(GotOf(fills + more, id)) <==> Fits64(GotOf(fills, id)) && Fits64(Got(l, id) + GotOf(more, id))
  {
    assert Recorded(l, book(id), fills, id);
    ExactPrice(book, fills, id);
    ExactPrice(book, more, id);
    GotJoined(fills, more, id);
  }

  lemma LaterOk(book: Id -> Order, fills: seq<Fill>, more: seq<Fill>)
    requires FillsOk(book, fills + more)
    ensures FillsOk(book, more)
  {
    assert forall k :: 0 <= k < |more| ==> more[k] == (fills + more)[|fills| + k];
  }

  lemma {:induction false} RoomIsFit(feeReceiver: Address, book: Id -> Order, calls: seq<Call>)
    ensures GotsFit(RunFills(Empty(feeReceiver), book, calls)) <==> GotRoomRun(Empty(feeReceiver), book, calls)
    decreases |calls|
  {
    if calls != [] {
      var before, c := calls[..|calls| - 1], calls[|calls| - 1];
      var l, fills := Run(Empty(feeReceiver), book, before), RunFills(Empty(feeReceiver), book, before);
      RoomIsFit(feeReceiver, book, before);
      RunRecorded(feeReceiver, book, calls);
      RunRecorded(feeReceiver, book, before);
      LaterOk(book, fills, CallFills(l, book, c));
      RoomOfCall(l, book, fills, CallFills(l, book, c));
    }
  }

  lemma RoomOfCall(l: Ledger, book: Id -> Order, fills: seq<Fill>, more: seq<Fill>)
    requires AllRecorded(l, book, fills) && FillsOk(book, more)
    ensures GotsFit(fills + more) <==> GotsFit(fills) && GotRoom(l, more)
  {
    if GotsFit(fills + more) {
      forall id ensures Fits64(GotOf(fills, id)) && Fits64(Got(l, id) + GotOf(more, id)) {
        GotExact(l, book, fills, more, id);
      }
    }
    if GotsFit(fills) && GotRoom(l, more) {
      forall id ensures Fits64(GotOf(fills + more, id)) {
        GotExact(l, book, fills, more, id);
      }
    }
  }

  /** The prices of all orders hold throughout a run if and only if each call that goes through finds, when it is
      made, that what its orders have got leaves room for its fills. */
  lemma RunRoom(feeReceiver: Address, book: Id -> Order, calls: seq<Call>)
    ensures var fills := RunFills(Empty(feeReceiver), book, calls);
      (forall id :: AlwaysInPrice(book(id), fills, id)) <==> GotRoomRun(Empty(feeReceiver), book, calls)
  {
    RoomIsFit(feeReceiver, book, calls);
    RunRecorded(feeReceiver, book, calls);
    AllInPrice(book, RunFills(Empty(feeReceiver), book, calls));
  }

  lemma AllInPrice(book: Id -> Order, fills: seq<Fill>)
    requires FillsOk(book, fills)
    ensures (forall id :: AlwaysInPrice(book(id), fills, id)) <==> GotsFit(fills)
  {
    forall id ensures AlwaysInPrice(book(id), fills, id) <==> Fits64(GotOf(fills, id)) {
      PriceUntilWrap(book, fills, id);
    }
  }

  // ---------- one fill ----------

  /** What is recorded of an order respects its limit and its price. */
  predicate WithinLimits(s: Stored, o: Order) {
    s.spent.Some? ==>
      && s.got.Some? && 0 < s.spent.value <= o.payNum && 0 < s.got.value && Fits64(s.got.value)
      && s.spent.value * o.purchaseNum <= s.got.value * o.payNum
  }

  ghost predicate OrdersWithin(l: Ledger, book: Id -> Order) {
    forall id :: id in l.orders ==> WithinLimits(l.orders[id], book(id))
  }

  lemma StoredWithin(l: Ledger, o: Order, f: Fill, s: Stored)
    requires StoreFill(l, o, f) == Some(s) && FillOk(o, f) && f.spentNum <= o.payNum
    requires f.id in l.orders ==> WithinLimits(l.orders[f.id], o)
    ensures WithinLimits(s, o) <==> Fits64(Got(l, f.id) + f.getNum)
  {
    if HasFills(l, f.id) {
      var r, got := l.orders[f.id], Got(l, f.id) + f.getNum;
      SumOfPrices(r.spent.value, r.got.value, f.spentNum, f.getNum, o.purchaseNum, o.payNum);
      if !Fits64(got) {
        WrapSame(got, got - TWO64, 1);
      }
    }
  }

  /** A fill that goes through leaves all orders within their limits and prices if and only if what its order has
      got then fits in 64 bits. */
  lemma FillWithin(l: Ledger, book: Id -> Order, f: Fill, now: int, rawFee: int, l': Ledger)
    requires CheckOrder(l, book(f.id), f, now, rawFee) == Some(l') && OrdersWithin(l, book)
    ensures OrdersWithin(l', book) <==> Fits64(Got(l, f.id) + f.getNum)
  {
    var s := FillStores(l, book(f.id), f, now, rawFee, l');
    StoredWithin(l, book(f.id), f, s);
  }

  /** In every run that leaves this room all orders are within their limits and prices. */
  lemma RunWithin(feeReceiver: Address, book: Id -> Order, calls: seq<Call>)
    requires GotRoomRun(Empty(feeReceiver), book, calls)
    ensures OrdersWithin(Run(Empty(feeReceiver), book, calls), book)
  {
    RoomIsFit(feeReceiver, book, calls);
    RunRecorded(feeReceiver, book, calls);
    RecordsWithin(Run(Empty(feeReceiver), book, calls), book, RunFills(Empty(feeReceiver), book, calls));
  }

  lemma RecordsWithin(l: Ledger, book: Id -> Order, fills: seq<Fill>)
    requires AllRecorded(l, book, fills) && GotsFit(fills)
    ensures OrdersWithin(l, book)
  {
    forall id | id in l.orders ensures WithinLimits(l.orders[id], book(id)) {
      assert Recorded(l, book(id), fills, id);
      ExactPrice(book, fills, id);
    }
  }
}
