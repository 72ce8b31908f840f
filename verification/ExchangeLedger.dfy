/**
  The exchange contract's storage and what each call does to it
  (src/native_contract/native_exchange_contract.cpp:160-397, 413-503, 605-747).

  Balances, orders and minimum fees are separate maps; an order's owner, its id and whether its signature
  checks out are given.  A call that throws leaves the storage as it was.  Sums are taken in 64 bits, and
  nothing in the calls stops them from wrapping around.
 */
module ExchangeLedger {
  import opened Options
  import opened Signed64

  type Address = string
  type Asset = string
  type Id = string

  datatype Account = Account(owner: Address, asset: Asset)

  type Balances = map<Account, int>

  /** UserBalanceChange */
  datatype Change = Change(account: Account, amount: int)

  datatype Kind = Buy | Sell | OtherKind

  /** An order as its owner signed it; an id stands for exactly one. */
  datatype Order = Order(owner: Address, signed: bool, purchaseAsset: Asset, purchaseNum: Int64, payAsset: Asset,
                         payNum: Int64, relayer: Address, relayerValid: bool, fee: string, feeNumeric: bool,
                         kind: Kind, expiredAt: int)

  datatype Fill = Fill(id: Id, getNum: Int64, spentNum: Int64)

  /** What is stored of an order: its state (0 is cancelled) and how much of it has been filled. */
  datatype Stored = Stored(state: Option<int>, spent: Option<int>, got: Option<int>)

  datatype Ledger = Ledger(balances: Balances, orders: map<Id, Stored>, minFees: map<Asset, int>, feeReceiver: Address,
    events: seq<Change>)

  function Bal(b: Balances, k: Account): int {
    if k in b then b[k] else 0
  }

  function Credit(b: Balances, k: Account, amount: int): (r: Balances)
    ensures forall j :: Bal(r, j) == if j == k then Wrap64(Bal(b, j) + amount) else Bal(b, j)
  {
    b[k := Wrap64(Bal(b, k) + amount)]
  }

  function MinFee(l: Ledger, asset: Asset): int {
    if asset in l.minFees then l.minFees[asset] else 0
  }

  // ---------- deposits and withdrawals ----------

  function Deposit(l: Ledger, k: Account, amount: int): Option<Ledger> {
    if amount <= 0 then None
    else Some(l.(balances := Credit(l.balances, k, amount), events := l.events + [Change(k, amount)]))
  }

  function Withdraw(l: Ledger, k: Account, amount: int): Option<Ledger> {
    if amount <= 0 || k.asset == "" || k !in l.balances || amount > l.balances[k] then None
    else
      var left := l.balances[k] - amount;
      Some(l.(balances := if left == 0 then l.balances - {k} else l.balances[k := left], events := l.events +
        [Change(k, -amount)]))
  }

  // ---------- fills ----------

  /** The fee charged, from the percentage's share of spentNum. */
  function Fee(rawFee: int, minFee: int, spentNum: int): Option<int> {
    if rawFee < 0 then None
    else if rawFee < minFee then Some(minFee)
    else if rawFee >= spentNum then None
    else Some(rawFee)
  }

  function Receiver(l: Ledger, o: Order): Option<Address> {
    if o.relayer == "" then Some(l.feeReceiver) else if o.relayerValid then Some(o.relayer) else None
  }

  /** What is stored of the order after one more fill; None if it is cancelled or too little is left. */
  function StoreFill(l: Ledger, o: Order, f: Fill): Option<Stored> {
    if f.id !in l.orders then Some(Stored(None, Some(f.spentNum), Some(f.getNum)))
    else
      var s := l.orders[f.id];
      if s.state.Some? then None
      else if s.spent.None? then Some(Stored(None, Some(f.spentNum), Some(f.getNum)))
      else if Wrap64(o.payNum - s.spent.value) < f.spentNum || s.got.None? then None
      else Some(Stored(None, Some(Wrap64(s.spent.value + f.spentNum)), Some(Wrap64(s.got.value + f.getNum))))
  }

  predicate WellFormed(o: Order, f: Fill, now: int) {
    && o.signed && o.expiredAt > now
    && o.purchaseNum > 0 && o.payNum > 0 && f.getNum > 0 && f.spentNum > 0 && f.spentNum <= o.payNum
    && o.feeNumeric && !o.kind.OtherKind?
  }

  /** The price: spentNum / getNum is at most payNum / purchaseNum. */
  predicate PriceOk(o: Order, f: Fill) {
    f.spentNum * o.purchaseNum <= f.getNum * o.payNum
  }

  function Paid(b: Balances, o: Order, f: Fill, fee: int): Balances {
    Credit(b, Account(o.owner, o.payAsset), -(f.spentNum + fee))
  }

  function Bought(b: Balances, o: Order, f: Fill, fee: int): Balances {
    Credit(Paid(b, o, f, fee), Account(o.owner, o.purchaseAsset), f.getNum)
  }

  function Settle(b: Balances, o: Order, f: Fill, fee: int, receiver: Address): Balances {
    var b' := Bought(b, o, f, fee);
    if fee > 0 then Credit(b', Account(receiver, o.payAsset), fee) else b'
  }

  function FillEvents(o: Order, f: Fill, fee: int, receiver: Address): seq<Change> {
    [Change(Account(o.owner, o.payAsset), Wrap64(-(f.spentNum + fee)))]
    + (if fee > 0 then [Change(Account(receiver, o.payAsset), fee)] else [])
    + [Change(Account(o.owner, o.purchaseAsset), f.getNum)]
  }

  /** checkOrder: one order filled, or None where it throws. */
  function CheckOrder(l: Ledger, o: Order, f: Fill, now: int, rawFee: int): Option<Ledger> {
    var fee := Fee(rawFee, MinFee(l, o.payAsset), f.spentNum);
    var receiver := Receiver(l, o);
    var pay := Account(o.owner, o.payAsset);
    if !WellFormed(o, f, now) || receiver.None? || fee.None? || !PriceOk(o, f) then None
    else if pay !in l.balances || l.balances[pay] < Wrap64(f.spentNum + fee.value) then None
    else
      match StoreFill(l, o, f)
      case None => None
      case Some(stored) =>
        Some(l.(orders := l.orders[f.id := stored],
                balances := Settle(l.balances, o, f, fee.value, receiver.value),
                events := l.events + FillEvents(o, f, fee.value, receiver.value)))
  }

  predicate Matches(taker: Order, maker: Order) {
    taker.purchaseAsset == maker.payAsset && taker.payAsset == maker.purchaseAsset && taker.kind != maker.kind
  }

  /** The maker orders, one after the other. */
  function CheckMakers(l: Ledger, book: Id -> Order, taker: Order, makers: seq<Fill>, now: int,
          rawFees: seq<int>): Option<Ledger>
    requires |rawFees| == |makers|
    decreases |makers|
  {
    var n := |makers| - 1;
    if makers == [] then Some(l)
    else
      match CheckMakers(l, book, taker, makers[..n], now, rawFees[..n])
      case None => None
      case Some(l1) => if Matches(taker, book(makers[n].id)) then CheckOrder(l1, book(makers[n].id), makers[n], now,
        rawFees[n]) else None
  }

  /** The last of the makers' orders. */
  lemma LastMaker(l: Ledger, book: Id -> Order, taker: Order, makers: seq<Fill>, now: int, rawFees: seq<int>,
          l': Ledger) returns (l1: Ledger)
    requires |rawFees| == |makers| > 0 && CheckMakers(l, book, taker, makers, now, rawFees) == Some(l')
    ensures var n := |makers| - 1;
      && CheckMakers(l, book, taker, makers[..n], now, rawFees[..n]) == Some(l1)
      && CheckOrder(l1, book(makers[n].id), makers[n], now, rawFees[n]) == Some(l')
      && Matches(taker, book(makers[n].id))
  {
    var n := |makers| - 1;
    l1 := CheckMakers(l, book, taker, makers[..n], now, rawFees[..n]).value;
  }

  function TotalGet(fills: seq<Fill>): int
    decreases |fills|
  {
    if fills == [] then 0 else TotalGet(fills[..|fills| - 1]) + fills[|fills| - 1].getNum
  }

  function TotalSpent(fills: seq<Fill>): int
    decreases |fills|
  {
    if fills == [] then 0 else TotalSpent(fills[..|fills| - 1]) + fills[|fills| - 1].spentNum
  }

  /** checkMatchedOrders: the taker's fill, the makers', and the totals have to match, as 64-bit sums. */
  function Match(l: Ledger, book: Id -> Order, taker: Fill, makers: seq<Fill>, now: int, rawFee: int,
          rawFees: seq<int>): Option<Ledger>
    requires |rawFees| == |makers|
  {
    match CheckOrder(l, book(taker.id), taker, now, rawFee)
    case None => None
    case Some(l1) =>
      match CheckMakers(l1, book, book(taker.id), makers, now, rawFees)
      case None => None
      case Some(l2) =>
        if Wrap64(TotalGet(makers)) != taker.spentNum || Wrap64(TotalSpent(makers)) != taker.getNum then None
        else Some(l2)
  }

  /** The steps of a match that goes through. */
  lemma TakerFirst(l: Ledger, book: Id -> Order, taker: Fill, makers: seq<Fill>, now: int, rawFee: int,
          rawFees: seq<int>, l': Ledger) returns (l1: Ledger)
    requires |rawFees| == |makers| && Match(l, book, taker, makers, now, rawFee, rawFees) == Some(l')
    ensures CheckOrder(l, book(taker.id), taker, now, rawFee) == Some(l1)
    ensures CheckMakers(l1, book, book(taker.id), makers, now, rawFees) == Some(l')
    ensures Wrap64(TotalGet(makers)) == taker.spentNum && Wrap64(TotalSpent(makers)) == taker.getNum
  {
    l1 := CheckOrder(l, book(taker.id), taker, now, rawFee).value;
  }

  // ---------- cancelling ----------

  /** One order of cancelOrders.  A stored order that is not cancelled is written back as it was. */
  function CancelOne(l: Ledger, o: Order, id: Id, caller: Address): Ledger {
    if !o.signed || o.owner != caller then l
    else if id in l.orders then l
    else l.(orders := l.orders[id := Stored(Some(0), None, None)])
  }

  function Cancel(l: Ledger, book: Id -> Order, ids: seq<Id>, caller: Address): Ledger
    decreases |ids|
  {
    if ids == [] then l else Cancel(CancelOne(l, book(ids[0]), ids[0], caller), book, ids[1..], caller)
  }

  /** Every signed order of the caller that is not cancelled yet is reported. */
  predicate IsReported(l: Ledger, o: Order, id: Id, caller: Address) {
    o.signed && o.owner == caller && !(id in l.orders && l.orders[id].state == Some(0))
  }

  /** The ids cancelOrders reports. */
  function Reported(l: Ledger, book: Id -> Order, ids: seq<Id>, caller: Address): seq<Id>
    decreases |ids|
  {
    if ids == [] then []
    else
      var id, o := ids[0], book(ids[0]);
      (if IsReported(l, o, id, caller) then [id] else [])
      + Reported(CancelOne(l, o, id, caller), book, ids[1..], caller)
  }

  // ---------- runs ----------

  datatype Call =
    | DepositCall(k: Account, amount: Int64)
    | WithdrawCall(k: Account, amount: Int64)
    | FillCall(taker: Fill, makers: seq<Fill>, now: int, rawFee: int, rawFees: seq<int>)
    | CancelCall(ids: seq<Id>, caller: Address)
    | SetMinFeeCall(asset: Asset, amount: Int64)

  /** A call's effect; a call that throws has none. */
  function Exec(l: Ledger, book: Id -> Order, c: Call): Ledger {
    match c
    case DepositCall(k, amount) => OrElse(Deposit(l, k, amount), l)
    case WithdrawCall(k, amount) => OrElse(Withdraw(l, k, amount), l)
    case FillCall(taker, makers, now, rawFee, rawFees) =>
      if |rawFees| == |makers| then OrElse(Match(l, book, taker, makers, now, rawFee, rawFees), l) else l
    case CancelCall(ids, caller) => Cancel(l, book, ids, caller)
    case SetMinFeeCall(asset, amount) => if asset == "" || amount < 0 then l
      else l.(minFees := l.minFees[asset := amount])
  }

  function OrElse(o: Option<Ledger>, l: Ledger): Ledger {
    if o.Some? then o.value else l
  }

  function Run(l: Ledger, book: Id -> Order, calls: seq<Call>): Ledger
    decreases |calls|
  {
    if calls == [] then l else Exec(Run(l, book, calls[..|calls| - 1]), book, calls[|calls| - 1])
  }

  function Empty(feeReceiver: Address): Ledger {
    Ledger(map[], map[], map[], feeReceiver, [])
  }
}
