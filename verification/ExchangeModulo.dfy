/**
  What every run of the exchange keeps, whatever its sums do: modulo 2^64 the events tell the balances, and
  each asset is conserved.
 */
module ExchangeModulo {
  import opened Options
  import opened Signed64
  import opened ExchangeLedger

  ghost predicate FeesOk(l: Ledger) {
    forall a :: a in l.minFees ==> l.minFees[a] >= 0
  }

  // ---------- the events tell the balances ----------

  /** What the events add up to for one account. */
  function Replayed(events: seq<Change>, k: Account): int
    decreases |events|
  {
    if events == [] then 0
    else Replayed(events[..|events| - 1], k) + if events[|events| - 1].account == k then events[|events| - 1].amount
      else 0
  }

  lemma {:induction false} ReplayedAppend(e: seq<Change>, f: seq<Change>, k: Account)
    ensures Replayed(e + f, k) == Replayed(e, k) + Replayed(f, k)
    decreases |f|
  {
    if f == [] {
      assert e + f == e;
    } else {
      assert (e + f)[..|e + f| - 1] == e + f[..|f| - 1];
      ReplayedAppend(e, f[..|f| - 1], k);
    }
  }

  lemma ReplayedOne(c: Change, k: Account)
    ensures Replayed([c], k) == if c.account == k then c.amount else 0
  {
    assert [c][..0] == [];
  }

  /** What the events of one fill add up to. */
  lemma ReplayedFill(o: Order, f: Fill, fee: int, receiver: Address, k: Account)
    ensures Replayed(FillEvents(o, f, fee, receiver), k)
      == (if k == Account(o.owner, o.payAsset) then Wrap64(-(f.spentNum + fee)) else 0)
      + (if k == Account(o.owner, o.purchaseAsset) then f.getNum else 0)
      + (if fee > 0 && k == Account(receiver, o.payAsset) then fee else 0)
  {
    var e1 := Change(Account(o.owner, o.payAsset), Wrap64(-(f.spentNum + fee)));
    var e2 := Change(Account(receiver, o.payAsset), fee);
    var e3 := Change(Account(o.owner, o.purchaseAsset), f.getNum);
    var middle := if fee > 0 then [e2] else [];
    ReplayedAppend([e1] + middle, [e3], k);
    ReplayedAppend([e1], middle, k);
    ReplayedOne(e1, k);
    ReplayedOne(e2, k);
    ReplayedOne(e3, k);
  }

  /** The balances are what the events add up to, in 64 bits. */
  ghost predicate EventsTell64(l: Ledger) {
    forall k :: Bal(l.balances, k) == Wrap64(Replayed(l.events, k))
  }

  /** A credit adds to the balance, but for w times 2^64. */
  lemma CreditWraps(b: Balances, k: Account, amount: int, j: Account) returns (w: int)
    ensures Bal(Credit(b, k, amount), j) == Bal(b, j) + (if j == k then amount else 0) + TWO64 * w
  {
    w := 0;
    if j == k {
      w := Wraps(Bal(b, k) + amount);
    }
  }

  lemma SettleWraps(b: Balances, o: Order, f: Fill, fee: int, receiver: Address, k: Account) returns (w: int)
    ensures Bal(Settle(b, o, f, fee, receiver), k)
         == Bal(b, k) + Replayed(FillEvents(o, f, fee, receiver), k) + TWO64 * w
  {
    var w0 := Wraps(-(f.spentNum + fee));
    var w1 := CreditWraps(b, Account(o.owner, o.payAsset), -(f.spentNum + fee), k);
    var w2 := CreditWraps(Paid(b, o, f, fee), Account(o.owner, o.purchaseAsset), f.getNum, k);
    var w3 := 0;
    if fee > 0 {
      w3 := CreditWraps(Bought(b, o, f, fee), Account(receiver, o.payAsset), fee, k);
    }
    w := w1 + w2 + w3 - if k == Account(o.owner, o.payAsset) then w0 else 0;
    ReplayedFill(o, f, fee, receiver, k);
  }

  lemma SettleTold(l: Ledger, l': Ledger, o: Order, f: Fill, fee: int, receiver: Address, k: Account)
    requires EventsTell64(l) && l'.balances == Settle(l.balances, o, f, fee, receiver)
    requires l'.events == l.events + FillEvents(o, f, fee, receiver)
    ensures Bal(l'.balances, k) == Wrap64(Replayed(l'.events, k))
  {
    var w := SettleWraps(l.balances, o, f, fee, receiver, k);
    var u := Wraps(Replayed(l.events, k));
    ReplayedAppend(l.events, FillEvents(o, f, fee, receiver), k);
    WrapSame(Bal(l'.balances, k), Replayed(l'.events, k), w + u);
    SettleFits(l.balances, o, f, fee, receiver, k);
  }

  lemma SettleFits(b: Balances, o: Order, f: Fill, fee: int, receiver: Address, k: Account)
    requires Fits64(Bal(b, k))
    ensures Fits64(Bal(Settle(b, o, f, fee, receiver), k))
  {
  }

  // ---------- totals per asset ----------

  /** The sum of an asset over all accounts. */
  ghost function Total(b: Balances, a: Asset): int
    decreases |b|
  {
    if b == map[] then 0
    else
      var k :| k in b;
      (if k.asset == a then b[k] else 0) + Total(b - {k}, a)
  }

  /** Any account may be counted first. */
  lemma {:induction false} TotalWithout(b: Balances, k: Account, a: Asset)
    requires k in b
    ensures Total(b, a) == (if k.asset == a then b[k] else 0) + Total(b - {k}, a)
    decreases |b|
  {
    var j :| j in b && Total(b, a) == (if j.asset == a then b[j] else 0) + Total(b - {j}, a);
    if j != k {
      TotalWithout(b - {j}, k, a);
      TotalWithout(b - {k}, j, a);
      assert (b - {j}) - {k} == (b - {k}) - {j};
    }
  }

  lemma TotalUpdate(b: Balances, k: Account, v: int, a: Asset)
    ensures Total(b[k := v], a) == Total(b, a) + if k.asset == a then v - Bal(b, k) else 0
  {
    var b' := b[k := v];
    TotalWithout(b', k, a);
    if k in b {
      TotalWithout(b, k, a);
      assert b' - {k} == b - {k};
    } else {
      assert b' - {k} == b;
    }
  }

  /** A credit adds to the total, but for w times 2^64: none unless the balance wraps around. */
  lemma CreditTotal(b: Balances, k: Account, amount: int, a: Asset) returns (w: int)
    ensures Total(Credit(b, k, amount), a) == Total(b, a) + (if k.asset == a then amount else 0) + TWO64 * w
    ensures Fits64(Bal(b, k) + amount) ==> w == 0
  {
    TotalUpdate(b, k, Wrap64(Bal(b, k) + amount), a);
    w := 0;
    if k.asset == a {
      w := Wraps(Bal(b, k) + amount);
    }
  }

  /** What one fill brings in of an asset. */
  function Gain(o: Order, f: Fill, a: Asset): int {
    (if a == o.purchaseAsset then f.getNum else 0) - (if a == o.payAsset then f.spentNum else 0)
  }

  lemma SettleTotal(b: Balances, o: Order, f: Fill, fee: int, receiver: Address, a: Asset) returns (w: int)
    requires fee >= 0
    ensures Total(Settle(b, o, f, fee, receiver), a) == Total(b, a) + Gain(o, f, a) + TWO64 * w
    ensures SettleExact(b, o, f, fee, receiver) ==> w == 0
  {
    var w1 := CreditTotal(b, Account(o.owner, o.payAsset), -(f.spentNum + fee), a);
    var w2 := CreditTotal(Paid(b, o, f, fee), Account(o.owner, o.purchaseAsset), f.getNum, a);
    var w3 := 0;
    if fee > 0 {
      w3 := CreditTotal(Bought(b, o, f, fee), Account(receiver, o.payAsset), fee, a);
    }
    w := w1 + w2 + w3;
  }

  /** No balance wraps around. */
  predicate SettleExact(b: Balances, o: Order, f: Fill, fee: int, receiver: Address) {
    && Fits64(Bal(b, Account(o.owner, o.payAsset)) - (f.spentNum + fee))
    && Fits64(Bal(Paid(b, o, f, fee), Account(o.owner, o.purchaseAsset)) + f.getNum)
    && (fee > 0 ==> Fits64(Bal(Bought(b, o, f, fee), Account(receiver, o.payAsset)) + fee))
  }

  // ---------- fills ----------

  lemma CheckOrder64(l: Ledger, o: Order, f: Fill, now: int, rawFee: int, l': Ledger, a: Asset) returns (w: int)
    requires CheckOrder(l, o, f, now, rawFee) == Some(l') && FeesOk(l)
    ensures l'.minFees == l.minFees
    ensures EventsTell64(l) ==> EventsTell64(l')
    ensures Total(l'.balances, a) == Total(l.balances, a) + Gain(o, f, a) + TWO64 * w
  {
    var fee, receiver := Fee(rawFee, MinFee(l, o.payAsset), f.spentNum).value, Receiver(l, o).value;
    w := SettleTotal(l.balances, o, f, fee, receiver, a);
    if EventsTell64(l) {
      forall k ensures Bal(l'.balances, k) == Wrap64(Replayed(l'.events, k)) {
        SettleTold(l, l', o, f, fee, receiver, k);
      }
    }
  }

  /** What the makers' fills bring in of an asset. */
  function MakersGain(taker: Order, makers: seq<Fill>, a: Asset): int {
    (if a == taker.payAsset then TotalGet(makers) else 0) - (if a == taker.purchaseAsset then TotalSpent(makers) else 0)
  }

  lemma {:induction false} Makers64(l: Ledger, book: Id -> Order, taker: Order, makers: seq<Fill>, now: int,
          rawFees: seq<int>, l': Ledger, a: Asset) returns (w: int)
    requires |rawFees| == |makers| && CheckMakers(l, book, taker, makers, now, rawFees) == Some(l') && FeesOk(l)
    ensures l'.minFees == l.minFees
    ensures EventsTell64(l) ==> EventsTell64(l')
    ensures Total(l'.balances, a) == Total(l.balances, a) + MakersGain(taker, makers, a) + TWO64 * w
    decreases |makers|
  {
    w := 0;
    if makers != [] {
      var n := |makers| - 1;
      var l1 := LastMaker(l, book, taker, makers, now, rawFees, l');
      var w1 := Makers64(l, book, taker, makers[..n], now, rawFees[..n], l1, a);
      var w2 := CheckOrder64(l1, book(makers[n].id), makers[n], now, rawFees[n], l', a);
      w := w1 + w2;
    }
  }

  /** Modulo 2^64 a match changes no asset's total, fees included. */
  lemma Match64(l: Ledger, book: Id -> Order, taker: Fill, makers: seq<Fill>, now: int, rawFee: int,
          rawFees: seq<int>, l': Ledger, a: Asset) returns (w: int)
    requires |rawFees| == |makers| && Match(l, book, taker, makers, now, rawFee, rawFees) == Some(l') && FeesOk(l)
    ensures l'.minFees == l.minFees
    ensures EventsTell64(l) ==> EventsTell64(l')
    ensures Total(l'.balances, a) == Total(l.balances, a) + TWO64 * w
  {
    var o := book(taker.id);
    var l1 := CheckOrder(l, o, taker, now, rawFee).value;
    var w1 := CheckOrder64(l, o, taker, now, rawFee, l1, a);
    var w2 := Makers64(l1, book, o, makers, now, rawFees, l', a);
    var w3 := Wraps(TotalGet(makers));
    var w4 := Wraps(TotalSpent(makers));
    w := w1 + w2 - (if a == o.payAsset then w3 else 0) + (if a == o.purchaseAsset then w4 else 0);
  }

  // ---------- every call, every run ----------

  lemma {:induction false} CancelKeeps(l: Ledger, book: Id -> Order, ids: seq<Id>, caller: Address)
    ensures var l' := Cancel(l, book, ids, caller); l' == l.(orders := l'.orders)
    decreases |ids|
  {
    if ids != [] {
      CancelKeeps(CancelOne(l, book(ids[0]), ids[0], caller), book, ids[1..], caller);
    }
  }

  /** What one call brings in of an asset, less what it takes out. */
  function Inflow(l: Ledger, c: Call, a: Asset): int {
    match c
    case DepositCall(k, amount) => if k.asset == a && Deposit(l, k, amount).Some? then amount else 0
    case WithdrawCall(k, amount) => if k.asset == a && Withdraw(l, k, amount).Some? then -amount else 0
    case _ => 0
  }

  /** All deposits of an asset less all its withdrawals. */
  function NetInflow(l: Ledger, book: Id -> Order, calls: seq<Call>, a: Asset): int
    decreases |calls|
  {
    if calls == [] then 0
    else
      var before := calls[..|calls| - 1];
      NetInflow(l, book, before, a) + Inflow(Run(l, book, before), calls[|calls| - 1], a)
  }

  lemma WithdrawTotal(l: Ledger, k: Account, amount: int, l': Ledger, a: Asset)
    requires Withdraw(l, k, amount) == Some(l')
    ensures Total(l'.balances, a) == Total(l.balances, a) - if k.asset == a then amount else 0
  {
    TotalUpdate(l.balances, k, l.balances[k] - amount, a);
    TotalWithout(l.balances, k, a);
  }

  lemma ChangeTold(l: Ledger, l': Ledger, k: Account, amount: int)
    requires EventsTell64(l) && l'.events == l.events + [Change(k, amount)]
    requires forall j :: Bal(l'.balances, j) == if j == k then Wrap64(Bal(l.balances, k) + amount) else
        Bal(l.balances, j)
    ensures EventsTell64(l')
  {
    forall j ensures Bal(l'.balances, j) == Wrap64(Replayed(l'.events, j)) {
      ReplayedAppend(l.events, [Change(k, amount)], j);
      ReplayedOne(Change(k, amount), j);
      WrapSum(Replayed(l.events, k), amount);
    }
  }

  lemma Exec64(l: Ledger, book: Id -> Order, c: Call, a: Asset) returns (w: int)
    requires FeesOk(l) && EventsTell64(l)
    ensures FeesOk(Exec(l, book, c)) && EventsTell64(Exec(l, book, c))
    ensures Total(Exec(l, book, c).balances, a) == Total(l.balances, a) + Inflow(l, c, a) + TWO64 * w
  {
    var l' := Exec(l, book, c);
    w := 0;
    match c
    case DepositCall(k, amount) =>
      if Deposit(l, k, amount).Some? {
        w := CreditTotal(l.balances, k, amount, a);
        ChangeTold(l, l', k, amount);
      }
    case WithdrawCall(k, amount) =>
      if Withdraw(l, k, amount).Some? {
        WithdrawTotal(l, k, amount, l', a);
        ChangeTold(l, l', k, -amount);
      }
    case FillCall(taker, makers, now, rawFee, rawFees) =>
      if |rawFees| == |makers| && Match(l, book, taker, makers, now, rawFee, rawFees).Some? {
        w := Match64(l, book, taker, makers, now, rawFee, rawFees, l', a);
      }
    case CancelCall(ids, caller) => CancelKeeps(l, book, ids, caller);
    case SetMinFeeCall(_, _) =>
  }

  lemma {:induction false} RunWraps(feeReceiver: Address, book: Id -> Order, calls: seq<Call>, a: Asset)
          returns (w: int)
    ensures var l := Run(Empty(feeReceiver), book, calls);
      && FeesOk(l) && EventsTell64(l)
      && Total(l.balances, a) == NetInflow(Empty(feeReceiver), book, calls, a) + TWO64 * w
    decreases |calls|
  {
    w := 0;
    if calls != [] {
      var l := Run(Empty(feeReceiver), book, calls[..|calls| - 1]);
      var w1 := RunWraps(feeReceiver, book, calls[..|calls| - 1], a);
      var w2 := Exec64(l, book, calls[|calls| - 1], a);
      w := w1 + w2;
    }
  }

  /** In every run, whatever wraps around: each balance is the 64-bit integer that its events add up to, and
      modulo 2^64 the balances of an asset add up to its deposits less its withdrawals. */
  lemma RunModulo(feeReceiver: Address, book: Id -> Order, calls: seq<Call>, k: Account, a: Asset)
    ensures var l := Run(Empty(feeReceiver), book, calls);
      && Bal(l.balances, k) == Wrap64(Replayed(l.events, k))
      && Wrap64(Total(l.balances, a)) == Wrap64(NetInflow(Empty(feeReceiver), book, calls, a))
  {
    var w := RunWraps(feeReceiver, book, calls, a);
    WrapSame(Total(Run(Empty(feeReceiver), book, calls).balances, a),
      NetInflow(Empty(feeReceiver), book, calls, a), w);
  }
}
