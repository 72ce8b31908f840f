/**
  What a call of the exchange is for, written out: exactly when it goes through, and what every balance, the
  orders' records and the events are then (src/native_contract/native_exchange_contract.cpp:166-503, 652-749).
 */
module ExchangeCalls {
  import opened Options
  import opened Signed64
  import opened Arith
  import opened Decimal
  import opened Uint128
  import opened SafeNumbers
  import opened SafeText
  import opened ExchangeLedger
  import C = ExchangeContract

  // ---------- one order ----------

  /** The larger of the minimum fee and the percentage's share. */
  function Charged(l: Ledger, o: Order, share: int): int {
    var minimum := if o.payAsset in l.minFees then l.minFees[o.payAsset] else 0;
    if share < minimum then minimum else share
  }

  /** Who is paid the fee. */
  function FeeTaker(l: Ledger, o: Order): Account {
    Account(if o.relayer == "" then l.feeReceiver else o.relayer, o.payAsset)
  }

  /** Nothing is stored of the order, or it has not been cancelled and enough of it is left. */
  predicate EnoughLeft(l: Ledger, o: Order, f: Fill) {
    f.id in l.orders ==>
      && l.orders[f.id].state == None
      && (l.orders[f.id].spent.Some? ==>
          Wrap64(o.payNum - l.orders[f.id].spent.value) >= f.spentNum && l.orders[f.id].got.Some?)
  }

  /** What an order has to meet for its fill to go through. */
  predicate Acceptable(l: Ledger, o: Order, f: Fill, now: int, share: int) {
    var paying := Account(o.owner, o.payAsset);
    && o.signed && now < o.expiredAt
    && o.purchaseNum > 0 && o.payNum > 0 && f.getNum > 0 && 0 < f.spentNum <= o.payNum
    && (o.relayer == "" || o.relayerValid)
    && o.feeNumeric && share >= 0 && (share < Charged(l, o, share) || share < f.spentNum)
    && (o.kind == Buy || o.kind == Sell)
    && f.spentNum * o.purchaseNum <= f.getNum * o.payNum
    && paying in l.balances && l.balances[paying] >= Wrap64(f.spentNum + Charged(l, o, share))
    && EnoughLeft(l, o, f)
  }

  /** What moves on an account. */
  function Moved(l: Ledger, o: Order, f: Fill, fee: int, k: Account): int {
    (if k == Account(o.owner, o.payAsset) then -(f.spentNum + fee) else 0)
    + (if k == Account(o.owner, o.purchaseAsset) then f.getNum else 0)
    + (if k == FeeTaker(l, o) then fee else 0)
  }

  /** Is the account written? */
  predicate Touched(l: Ledger, o: Order, fee: int, k: Account) {
    k == Account(o.owner, o.payAsset) || k == Account(o.owner, o.purchaseAsset) || (fee > 0 && k == FeeTaker(l, o))
  }

  function SpentBefore(l: Ledger, id: Id): int {
    if id in l.orders && l.orders[id].spent.Some? then l.orders[id].spent.value else 0
  }

  function GotBefore(l: Ledger, id: Id): int {
    if id in l.orders && l.orders[id].spent.Some? && l.orders[id].got.Some? then l.orders[id].got.value else 0
  }

  /** The amounts of the fill have moved, in 64 bits, and no other balance has changed. */
  ghost predicate AmountsMoved(l: Ledger, o: Order, f: Fill, fee: int, b: Balances) {
    true == (
    && (forall k :: k in b <==> k in l.balances || Touched(l, o, fee, k))
    && (forall k :: Bal(b, k) == if Touched(l, o, fee, k) then Wrap64(Bal(l.balances, k) + Moved(l, o, f, fee, k))
                                 else Bal(l.balances, k))
    )
  }

  /** l' is l with the fill: its amounts moved, recorded and told. */
  ghost predicate Done(l: Ledger, o: Order, f: Fill, fee: int, l': Ledger) {
    && l'.minFees == l.minFees && l'.feeReceiver == l.feeReceiver
    && AmountsMoved(l, o, f, fee, l'.balances)
    && l'.orders == l.orders[f.id := Stored(None, Some(Wrap64(SpentBefore(l, f.id) + f.spentNum)),
                                            Some(Wrap64(GotBefore(l, f.id) + f.getNum)))]
    && l'.events == l.events + ([Change(Account(o.owner, o.payAsset), Wrap64(-(f.spentNum + fee)))]
                                + (if fee > 0 then [Change(FeeTaker(l, o), fee)] else [])
                                + [Change(Account(o.owner, o.purchaseAsset), f.getNum)])
  }

  /** A balance after a credit that may be to it. */
  function Credited(v: int, to: bool, amount: int): int {
    if to then Wrap64(v + amount) else v
  }

  /** Up to three credits, wrapped around one by one or once at the end. */
  lemma CreditsAdd(v: int, p: bool, x: int, q: bool, y: int, r: bool, z: int)
    ensures Credited(Credited(Credited(v, p, x), q, y), r, z)
         == Credited(v, p || q || r, (if p then x else 0) + (if q then y else 0) + (if r then z else 0))
  {
    var x' := if p then x else 0;
    if p && q {
      WrapSum(v + x, y);
    }
    if r && (p || q) {
      WrapSum(v + x' + (if q then y else 0), z);
    }
  }

  lemma CreditIs(b: Balances, j: Account, amount: int, k: Account)
    ensures Bal(Credit(b, j, amount), k) == Credited(Bal(b, k), k == j, amount)
  {
  }

  /** The credits of a fill, one by one. */
  ghost predicate Stepped(b: Balances, o: Order, f: Fill, fee: int, receiver: Address, b': Balances) {
    forall k :: Bal(b', k)
      == Credited(Credited(Credited(Bal(b, k), k == Account(o.owner, o.payAsset), -(f.spentNum + fee)),
                           k == Account(o.owner, o.purchaseAsset), f.getNum),
                  fee > 0 && k == Account(receiver, o.payAsset), fee)
  }

  lemma SettleStepped(b: Balances, o: Order, f: Fill, fee: int, receiver: Address, b': Balances)
    requires b' == Settle(b, o, f, fee, receiver)
    ensures Stepped(b, o, f, fee, receiver, b')
    ensures forall k ::
        k in b' <==> (k in b || k == Account(o.owner, o.payAsset) || k == Account(o.owner, o.purchaseAsset)
                      || (fee > 0 && k == Account(receiver, o.payAsset)))
  {
    forall k ensures Bal(b', k)
      == Credited(Credited(Credited(Bal(b, k), k == Account(o.owner, o.payAsset), -(f.spentNum + fee)),
                           k == Account(o.owner, o.purchaseAsset), f.getNum),
                  fee > 0 && k == Account(receiver, o.payAsset), fee) {
      CreditIs(b, Account(o.owner, o.payAsset), -(f.spentNum + fee), k);
      CreditIs(Paid(b, o, f, fee), Account(o.owner, o.purchaseAsset), f.getNum, k);
      CreditIs(Bought(b, o, f, fee), Account(receiver, o.payAsset), fee, k);
    }
  }

  lemma MovedIs(l: Ledger, o: Order, f: Fill, fee: int, receiver: Address, k: Account)
    requires fee >= 0 && FeeTaker(l, o) == Account(receiver, o.payAsset)
    ensures var p, q := k == Account(o.owner, o.payAsset), k == Account(o.owner, o.purchaseAsset);
      var r := fee > 0 && k == Account(receiver, o.payAsset);
      && (Touched(l, o, fee, k) <==> p || q || r)
      && Moved(l, o, f, fee, k)
      == (if p then -(f.spentNum + fee) else 0) + (if q then f.getNum else 0) + (if r then fee else 0)
  {
  }

  lemma SteppedMoved(l: Ledger, o: Order, f: Fill, fee: int, receiver: Address, b: Balances, k: Account)
    requires fee >= 0 && FeeTaker(l, o) == Account(receiver, o.payAsset) && Stepped(l.balances, o, f, fee, receiver, b)
    ensures Bal(b, k) == Credited(Bal(l.balances, k), Touched(l, o, fee, k), Moved(l, o, f, fee, k))
  {
    MovedIs(l, o, f, fee, receiver, k);
    CreditsAdd(Bal(l.balances, k), k == Account(o.owner, o.payAsset), -(f.spentNum + fee),
      k == Account(o.owner, o.purchaseAsset), f.getNum, fee > 0 && k == Account(receiver, o.payAsset), fee);
  }

  lemma SteppedDone(l: Ledger, o: Order, f: Fill, fee: int, receiver: Address, b: Balances)
    requires fee >= 0 && FeeTaker(l, o) == Account(receiver, o.payAsset) && Stepped(l.balances, o, f, fee, receiver, b)
    requires forall k :: k in b <==> k in l.balances || Touched(l, o, fee, k)
    ensures AmountsMoved(l, o, f, fee, b)
  {
    forall k ensures Bal(b, k) == Credited(Bal(l.balances, k), Touched(l, o, fee, k), Moved(l, o, f, fee, k)) {
      SteppedMoved(l, o, f, fee, receiver, b, k);
    }
  }

  lemma SettleDone(l: Ledger, o: Order, f: Fill, fee: int, receiver: Address, b: Balances)
    requires fee >= 0 && FeeTaker(l, o) == Account(receiver, o.payAsset) && b == Settle(l.balances, o, f, fee, receiver)
    ensures AmountsMoved(l, o, f, fee, b)
  {
    SettleStepped(l.balances, o, f, fee, receiver, b);
    SteppedDone(l, o, f, fee, receiver, b);
  }

  /** The fee and its receiver are those of checkOrder. */
  lemma FeeIs(l: Ledger, o: Order, f: Fill, now: int, share: int)
    requires share >= 0 && (share < Charged(l, o, share) || share < f.spentNum) && (o.relayer == "" || o.relayerValid)
    ensures Fee(share, MinFee(l, o.payAsset), f.spentNum) == Some(Charged(l, o, share)) && Charged(l, o, share) >= 0
    ensures Receiver(l, o) == Some(FeeTaker(l, o).owner)
  {
  }

  lemma StoredIs(l: Ledger, o: Order, f: Fill)
    ensures StoreFill(l, o, f)
         == if EnoughLeft(l, o, f) then Some(Stored(None, Some(Wrap64(SpentBefore(l, f.id) + f.spentNum)),
                                                    Some(Wrap64(GotBefore(l, f.id) + f.getNum))))
            else None
  {
  }

  lemma Extensional(b: Balances, b': Balances)
    requires forall k :: (k in b <==> k in b') && Bal(b, k) == Bal(b', k)
    ensures b == b'
  {
    forall k | k in b ensures k in b' && b[k] == b'[k] {
      assert Bal(b, k) == Bal(b', k);
    }
  }

  lemma DoneUnique(l: Ledger, o: Order, f: Fill, fee: int, l1: Ledger, l2: Ledger)
    requires Done(l, o, f, fee, l1) && Done(l, o, f, fee, l2)
    ensures l1 == l2
  {
    Extensional(l1.balances, l2.balances);
  }

  lemma CheckOrderSome(l: Ledger, o: Order, f: Fill, now: int, share: int) returns (l': Ledger)
    requires Acceptable(l, o, f, now, share)
    ensures var fee, receiver := Charged(l, o, share), FeeTaker(l, o).owner;
      && fee >= 0 && CheckOrder(l, o, f, now, share) == Some(l')
      && l'.balances == Settle(l.balances, o, f, fee, receiver)
      && l'.minFees == l.minFees && l'.feeReceiver == l.feeReceiver
      && l'.orders == l.orders[f.id := Stored(None, Some(Wrap64(SpentBefore(l, f.id) + f.spentNum)),
                                              Some(Wrap64(GotBefore(l, f.id) + f.getNum)))]
      && l'.events == l.events + FillEvents(o, f, fee, receiver)
  {
    FeeIs(l, o, f, now, share);
    StoredIs(l, o, f);
    l' := CheckOrder(l, o, f, now, share).value;
  }

  lemma EventsAre(l: Ledger, o: Order, f: Fill, fee: int, receiver: Address)
    requires FeeTaker(l, o) == Account(receiver, o.payAsset)
    ensures FillEvents(o, f, fee, receiver) == [Change(Account(o.owner, o.payAsset), Wrap64(-(f.spentNum + fee)))]
      + (if fee > 0 then [Change(FeeTaker(l, o), fee)] else []) + [Change(Account(o.owner, o.purchaseAsset), f.getNum)]
  {
  }

  lemma CheckOrderDone(l: Ledger, o: Order, f: Fill, now: int, share: int) returns (l': Ledger)
    requires Acceptable(l, o, f, now, share)
    ensures CheckOrder(l, o, f, now, share) == Some(l') && Done(l, o, f, Charged(l, o, share), l')
  {
    var fee, receiver := Charged(l, o, share), FeeTaker(l, o).owner;
    l' := CheckOrderSome(l, o, f, now, share);
    SettleDone(l, o, f, fee, receiver, l'.balances);
    EventsAre(l, o, f, fee, receiver);
  }

  lemma CheckOrderRefused(l: Ledger, o: Order, f: Fill, now: int, share: int)
    requires CheckOrder(l, o, f, now, share).Some?
    ensures Acceptable(l, o, f, now, share)
  {
    StoredIs(l, o, f);
  }

  /** checkOrder goes through if and only if the order is acceptable, and then it does the fill. */
  lemma CheckOrderIs(l: Ledger, o: Order, f: Fill, now: int, share: int, l': Ledger)
    ensures CheckOrder(l, o, f, now, share) == Some(l')
       <==> Acceptable(l, o, f, now, share) && Done(l, o, f, Charged(l, o, share), l')
  {
    if CheckOrder(l, o, f, now, share).Some? {
      CheckOrderRefused(l, o, f, now, share);
    }
    if Acceptable(l, o, f, now, share) {
      var r := CheckOrderDone(l, o, f, now, share);
      if Done(l, o, f, Charged(l, o, share), l') {
        DoneUnique(l, o, f, Charged(l, o, share), r, l');
      }
    }
  }

  // ---------- a match ----------

  /** Fills made one after the other, from the first of these states to the last. */
  ghost predicate Chain(book: Id -> Order, fills: seq<Fill>, now: int, shares: seq<int>, states: seq<Ledger>) {
    && |shares| == |fills| && |states| == |fills| + 1
    && forall k :: 0 <= k < |fills| ==> OneDone(states[k], book(fills[k].id), fills[k], now, shares[k], states[k + 1])
  }

  ghost predicate OneDone(l: Ledger, o: Order, f: Fill, now: int, share: int, l': Ledger) {
    Acceptable(l, o, f, now, share) && Done(l, o, f, Charged(l, o, share), l')
  }

  /** One buys what the other sells, and each pays with what the other wants. */
  predicate Crosses(taker: Order, maker: Order) {
    && taker.purchaseAsset == maker.payAsset && taker.payAsset == maker.purchaseAsset
    && ((taker.kind == Buy && maker.kind == Sell) || (taker.kind == Sell && maker.kind == Buy))
  }

  ghost predicate AllCross(book: Id -> Order, taker: Order, makers: seq<Fill>) {
    forall k :: 0 <= k < |makers| ==> Crosses(taker, book(makers[k].id))
  }

  lemma ChainMore(book: Id -> Order, fills: seq<Fill>, now: int, shares: seq<int>, states: seq<Ledger>, f: Fill,
          share: int, l': Ledger)
    requires Chain(book, fills, now, shares, states)
    requires OneDone(states[|fills|], book(f.id), f, now, share, l')
    ensures Chain(book, fills + [f], now, shares + [share], states + [l'])
  {
    var fs, ss, ls := fills + [f], shares + [share], states + [l'];
    forall k | 0 <= k < |fs| ensures OneDone(ls[k], book(fs[k].id), fs[k], now, ss[k], ls[k + 1]) {
      if k < |fills| {
        assert OneDone(states[k], book(fills[k].id), fills[k], now, shares[k], states[k + 1]);
      }
    }
  }

  lemma ChainLess(book: Id -> Order, fills: seq<Fill>, now: int, shares: seq<int>, states: seq<Ledger>)
    requires Chain(book, fills, now, shares, states) && fills != []
    ensures var n := |fills| - 1;
      && Chain(book, fills[..n], now, shares[..n], states[..n + 1])
      && OneDone(states[n], book(fills[n].id), fills[n], now, shares[n], states[n + 1])
  {
    var n := |fills| - 1;
    forall k | 0 <= k < n
      ensures OneDone(states[..n + 1][k], book(fills[..n][k].id), fills[..n][k], now, shares[..n][k],
                      states[..n + 1][k + 1]) {
      assert OneDone(states[k], book(fills[k].id), fills[k], now, shares[k], states[k + 1]);
    }
  }

  lemma CrossMore(book: Id -> Order, taker: Order, makers: seq<Fill>)
    requires makers != []
    ensures var n := |makers| - 1;
      AllCross(book, taker, makers) <==> AllCross(book, taker, makers[..n]) && Crosses(taker, book(makers[n].id))
  {
    var n := |makers| - 1;
    assert forall k :: 0 <= k < n ==> makers[..n][k] == makers[k];
  }

  lemma LastPut<T>(s: seq<T>)
    requires s != []
    ensures s[..|s| - 1] + [s[|s| - 1]] == s
  {
  }

  lemma {:induction false} MakersChain(l: Ledger, book: Id -> Order, taker: Order, makers: seq<Fill>, now: int,
          shares: seq<int>, l': Ledger) returns (states: seq<Ledger>)
    requires |shares| == |makers| && CheckMakers(l, book, taker, makers, now, shares) == Some(l')
    requires taker.kind == Buy || taker.kind == Sell
    ensures Chain(book, makers, now, shares, states) && states[0] == l && states[|makers|] == l'
    ensures AllCross(book, taker, makers)
    decreases |makers|
  {
    if makers == [] {
      states := [l];
    } else {
      var n := |makers| - 1;
      var l1 := LastMaker(l, book, taker, makers, now, shares, l');
      var before := MakersChain(l, book, taker, makers[..n], now, shares[..n], l1);
      CheckOrderIs(l1, book(makers[n].id), makers[n], now, shares[n], l');
      ChainMore(book, makers[..n], now, shares[..n], before, makers[n], shares[n], l');
      CrossMore(book, taker, makers);
      states := before + [l'];
      LastPut(makers);
      LastPut(shares);
    }
  }

  lemma {:induction false} ChainMakers(book: Id -> Order, taker: Order, makers: seq<Fill>, now: int, shares: seq<int>,
          states: seq<Ledger>)
    requires Chain(book, makers, now, shares, states) && AllCross(book, taker, makers)
    ensures CheckMakers(states[0], book, taker, makers, now, shares) == Some(states[|makers|])
    decreases |makers|
  {
    if makers != [] {
      var n := |makers| - 1;
      ChainLess(book, makers, now, shares, states);
      CrossMore(book, taker, makers);
      ChainMakers(book, taker, makers[..n], now, shares[..n], states[..n + 1]);
      CheckOrderIs(states[n], book(makers[n].id), makers[n], now, shares[n], states[n + 1]);
    }
  }

  /** The fills of taker and makers, in this order, with what they compare. */
  ghost predicate Matched(l: Ledger, book: Id -> Order, taker: Fill, makers: seq<Fill>, now: int, share: int,
          shares: seq<int>, states: seq<Ledger>, l': Ledger)
  {
    && Chain(book, makers, now, shares, states) && states[|makers|] == l'
    && OneDone(l, book(taker.id), taker, now, share, states[0])
    && AllCross(book, book(taker.id), makers)
    && Wrap64(TotalGet(makers)) == taker.spentNum && Wrap64(TotalSpent(makers)) == taker.getNum
  }

  ghost predicate Leads(l: Ledger, book: Id -> Order, taker: Fill, makers: seq<Fill>, now: int, share: int,
          shares: seq<int>, l': Ledger)
  {
    exists states :: Matched(l, book, taker, makers, now, share, shares, states, l')
  }

  /** A match goes through if and only if the taker's and then each maker's order is acceptable when its turn comes,
      each maker's crosses the taker's, and the totals agree; then it does these fills. */
  lemma MatchIs(l: Ledger, book: Id -> Order, taker: Fill, makers: seq<Fill>, now: int, share: int, shares: seq<int>,
          l': Ledger)
    requires |shares| == |makers|
    ensures Match(l, book, taker, makers, now, share, shares) == Some(l')
       <==> Leads(l, book, taker, makers, now, share, shares, l')
  {
    if Match(l, book, taker, makers, now, share, shares) == Some(l') {
      var states := MatchStates(l, book, taker, makers, now, share, shares, l');
    }
    if states :| Matched(l, book, taker, makers, now, share, shares, states, l') {
      MatchFrom(l, book, taker, makers, now, share, shares, states, l');
    }
  }

  lemma MatchStates(l: Ledger, book: Id -> Order, taker: Fill, makers: seq<Fill>, now: int, share: int,
          shares: seq<int>, l': Ledger) returns (states: seq<Ledger>)
    requires |shares| == |makers| && Match(l, book, taker, makers, now, share, shares) == Some(l')
    ensures Matched(l, book, taker, makers, now, share, shares, states, l')
  {
    var l1 := TakerFirst(l, book, taker, makers, now, share, shares, l');
    CheckOrderIs(l, book(taker.id), taker, now, share, l1);
    states := MakersChain(l1, book, book(taker.id), makers, now, shares, l');
  }

  lemma MatchFrom(l: Ledger, book: Id -> Order, taker: Fill, makers: seq<Fill>, now: int, share: int,
          shares: seq<int>, states: seq<Ledger>, l': Ledger)
    requires |shares| == |makers| && Matched(l, book, taker, makers, now, share, shares, states, l')
    ensures Match(l, book, taker, makers, now, share, shares) == Some(l')
  {
    CheckOrderIs(l, book(taker.id), taker, now, share, states[0]);
    ChainMakers(book, book(taker.id), makers, now, shares, states);
  }

  /** A fillOrder call has the effect of its match, or none. */
  lemma FillIs(l: Ledger, book: Id -> Order, taker: Fill, makers: seq<Fill>, now: int, share: int, shares: seq<int>)
    requires |shares| == |makers|
    ensures var l' := Exec(l, book, FillCall(taker, makers, now, share, shares));
      if exists l1 :: Leads(l, book, taker, makers, now, share, shares, l1) then
        Leads(l, book, taker, makers, now, share, shares, l')
      else l' == l
  {
    ExecFill(l, book, taker, makers, now, share, shares);
    if Match(l, book, taker, makers, now, share, shares).Some? {
      MatchIs(l, book, taker, makers, now, share, shares, Match(l, book, taker, makers, now, share, shares).value);
    } else if l1 :| Leads(l, book, taker, makers, now, share, shares, l1) {
      MatchIs(l, book, taker, makers, now, share, shares, l1);
    }
  }

  lemma ExecFill(l: Ledger, book: Id -> Order, taker: Fill, makers: seq<Fill>, now: int, share: int, shares: seq<int>)
    requires |shares| == |makers|
    ensures var r := Match(l, book, taker, makers, now, share, shares);
      Exec(l, book, FillCall(taker, makers, now, share, shares)) == if r.Some? then r.value else l
  {
  }

  // ---------- what a match moves ----------

  /** What the fills move on an account, at the fees of l. */
  function MovedAll(l: Ledger, book: Id -> Order, fills: seq<Fill>, shares: seq<int>, k: Account): int
    requires |shares| == |fills|
    decreases |fills|
  {
    var n := |fills| - 1;
    if fills == [] then 0
    else
      MovedAll(l, book, fills[..n], shares[..n], k)
      + Moved(l, book(fills[n].id), fills[n], Charged(l, book(fills[n].id), shares[n]), k)
  }

  lemma OneMoves(l: Ledger, l0: Ledger, o: Order, f: Fill, now: int, share: int, l': Ledger, k: Account)
    requires OneDone(l, o, f, now, share, l') && Fits64(Bal(l.balances, k))
    requires l.minFees == l0.minFees && l.feeReceiver == l0.feeReceiver
    ensures Bal(l'.balances, k) == Wrap64(Bal(l.balances, k) + Moved(l0, o, f, Charged(l0, o, share), k))
    ensures l'.minFees == l0.minFees && l'.feeReceiver == l0.feeReceiver
  {
    assert Moved(l0, o, f, Charged(l0, o, share), k) == Moved(l, o, f, Charged(l, o, share), k);
  }

  lemma MoveMore(l0: Ledger, l: Ledger, o: Order, f: Fill, now: int, share: int, l': Ledger, k: Account, v: int, m: int)
    requires OneDone(l, o, f, now, share, l') && Bal(l.balances, k) == Wrap64(v + m)
    requires l.minFees == l0.minFees && l.feeReceiver == l0.feeReceiver
    ensures Bal(l'.balances, k) == Wrap64(v + (m + Moved(l0, o, f, Charged(l0, o, share), k)))
    ensures l'.minFees == l0.minFees && l'.feeReceiver == l0.feeReceiver
  {
    OneMoves(l, l0, o, f, now, share, l', k);
    WrapSum(v + m, Moved(l0, o, f, Charged(l0, o, share), k));
  }

  lemma ChainLast(l0: Ledger, book: Id -> Order, fills: seq<Fill>, now: int, shares: seq<int>, l: Ledger, l': Ledger,
          k: Account, v: int)
    requires |shares| == |fills| > 0 && l.minFees == l0.minFees && l.feeReceiver == l0.feeReceiver
    requires var n := |fills| - 1;
      && OneDone(l, book(fills[n].id), fills[n], now, shares[n], l')
      && Bal(l.balances, k) == Wrap64(v + MovedAll(l0, book, fills[..n], shares[..n], k))
    ensures Bal(l'.balances, k) == Wrap64(v + MovedAll(l0, book, fills, shares, k))
    ensures l'.minFees == l0.minFees && l'.feeReceiver == l0.feeReceiver
  {
    var n := |fills| - 1;
    MoveMore(l0, l, book(fills[n].id), fills[n], now, shares[n], l', k, v,
      MovedAll(l0, book, fills[..n], shares[..n], k));
  }

  lemma ChainPrefix(book: Id -> Order, fills: seq<Fill>, now: int, shares: seq<int>, states: seq<Ledger>)
    requires Chain(book, fills, now, shares, states) && fills != []
    ensures var n := |fills| - 1;
      Chain(book, fills[..n], now, shares[..n], states[..n + 1]) && states[..n + 1][0] == states[0]
  {
    ChainLess(book, fills, now, shares, states);
  }

  lemma ChainGrows(l0: Ledger, book: Id -> Order, fills: seq<Fill>, now: int, shares: seq<int>, states: seq<Ledger>,
          k: Account, v: int, l: Ledger)
    requires Chain(book, fills, now, shares, states) && fills != [] && l == states[|fills|]
    requires var n := |fills| - 1;
      && states[n].minFees == l0.minFees && states[n].feeReceiver == l0.feeReceiver
      && Bal(states[n].balances, k) == Wrap64(v + MovedAll(l0, book, fills[..n], shares[..n], k))
    ensures Bal(l.balances, k) == Wrap64(v + MovedAll(l0, book, fills, shares, k))
    ensures l.minFees == l0.minFees && l.feeReceiver == l0.feeReceiver
  {
    ChainLess(book, fills, now, shares, states);
    ChainLast(l0, book, fills, now, shares, states[|fills| - 1], l, k, v);
  }

  lemma {:induction false} ChainMoves(l0: Ledger, book: Id -> Order, fills: seq<Fill>, now: int, shares: seq<int>,
          states: seq<Ledger>, k: Account, v: int, l: Ledger)
    requires Chain(book, fills, now, shares, states) && v == Bal(states[0].balances, k) && Fits64(v)
    requires states[0].minFees == l0.minFees && states[0].feeReceiver == l0.feeReceiver && l == states[|fills|]
    ensures Bal(l.balances, k) == Wrap64(v + MovedAll(l0, book, fills, shares, k))
    ensures l.minFees == l0.minFees && l.feeReceiver == l0.feeReceiver
    decreases |fills|
  {
    if fills != [] {
      var n := |fills| - 1;
      ChainPrefix(book, fills, now, shares, states);
      ChainMoves(l0, book, fills[..n], now, shares[..n], states[..n + 1], k, v, states[n]);
      ChainGrows(l0, book, fills, now, shares, states, k, v, l);
    }
  }

  lemma WrapTwice(v: int, m: int, n: int, v1: int, v2: int)
    requires v1 == Wrap64(v + m) && v2 == Wrap64(v1 + n)
    ensures v2 == Wrap64(v + m + n) && Fits64(v1)
  {
    WrapSum(v + m, n);
  }

  lemma MatchedMoves(l: Ledger, book: Id -> Order, o: Order, f: Fill, makers: seq<Fill>, now: int, share: int,
          shares: seq<int>, states: seq<Ledger>, l': Ledger, k: Account, d: int)
    requires Chain(book, makers, now, shares, states) && states[|makers|] == l' && Fits64(Bal(l.balances, k))
    requires OneDone(l, o, f, now, share, states[0]) && d == Moved(l, o, f, Charged(l, o, share), k)
    ensures Bal(l'.balances, k) == Wrap64(Bal(l.balances, k) + d + MovedAll(l, book, makers, shares, k))
  {
    var v := TakerMoves(l, o, f, now, share, states[0], k, d);
    MakersMove(l, book, makers, now, shares, states, k, v, l', Bal(l.balances, k), d);
  }

  lemma MakersMove(l0: Ledger, book: Id -> Order, makers: seq<Fill>, now: int, shares: seq<int>, states: seq<Ledger>,
          k: Account, v: int, l: Ledger, v0: int, d: int)
    requires Chain(book, makers, now, shares, states) && v == Bal(states[0].balances, k) == Wrap64(v0 + d)
    requires states[0].minFees == l0.minFees && states[0].feeReceiver == l0.feeReceiver && l == states[|makers|]
    ensures Bal(l.balances, k) == Wrap64(v0 + d + MovedAll(l0, book, makers, shares, k))
  {
    ChainMoves(l0, book, makers, now, shares, states, k, v, l);
    WrapTwice(v0, d, MovedAll(l0, book, makers, shares, k), v, Bal(l.balances, k));
  }

  lemma TakerMoves(l: Ledger, o: Order, f: Fill, now: int, share: int, l': Ledger, k: Account, d: int) returns (v: int)
    requires OneDone(l, o, f, now, share, l') && Fits64(Bal(l.balances, k))
    requires d == Moved(l, o, f, Charged(l, o, share), k)
    ensures v == Bal(l'.balances, k) == Wrap64(Bal(l.balances, k) + d) && Fits64(v)
    ensures l'.minFees == l.minFees && l'.feeReceiver == l.feeReceiver
  {
    OneMoves(l, l, o, f, now, share, l', k);
    v := Bal(l'.balances, k);
  }

  lemma ChainedMoves(l: Ledger, book: Id -> Order, taker: Fill, makers: seq<Fill>, now: int, share: int,
          shares: seq<int>, states: seq<Ledger>, l': Ledger, k: Account)
    requires Chain(book, makers, now, shares, states) && states[|makers|] == l' && Fits64(Bal(l.balances, k))
    requires OneDone(l, book(taker.id), taker, now, share, states[0])
    ensures Bal(l'.balances, k)
      == Wrap64(Bal(l.balances, k) + Moved(l, book(taker.id), taker, Charged(l, book(taker.id), share), k)
                + MovedAll(l, book, makers, shares, k))
  {
    var o := book(taker.id);
    MatchedMoves(l, book, o, taker, makers, now, share, shares, states, l', k,
      Moved(l, o, taker, Charged(l, o, share), k));
  }

  /** The states that a match passes through. */
  lemma MatchChain(l: Ledger, book: Id -> Order, taker: Fill, makers: seq<Fill>, now: int, share: int,
          shares: seq<int>, l': Ledger) returns (states: seq<Ledger>)
    requires |shares| == |makers| && Match(l, book, taker, makers, now, share, shares) == Some(l')
    ensures Chain(book, makers, now, shares, states) && states[|makers|] == l'
    ensures OneDone(l, book(taker.id), taker, now, share, states[0])
  {
    states := MatchStates(l, book, taker, makers, now, share, shares, l');
  }

  /** A match moves the amounts of its fills, on every account. */
  lemma MatchMoves(l: Ledger, book: Id -> Order, taker: Fill, makers: seq<Fill>, now: int, share: int,
          shares: seq<int>, l': Ledger, k: Account)
    requires |shares| == |makers| && Match(l, book, taker, makers, now, share, shares) == Some(l')
    requires Fits64(Bal(l.balances, k))
    ensures Bal(l'.balances, k)
      == Wrap64(Bal(l.balances, k) + Moved(l, book(taker.id), taker, Charged(l, book(taker.id), share), k)
                + MovedAll(l, book, makers, shares, k))
  {
    var states := MatchChain(l, book, taker, makers, now, share, shares, l');
    ChainedMoves(l, book, taker, makers, now, share, shares, states, l', k);
  }

  // ---------- deposits, withdrawals, minimum fees ----------

  /** l' is l with one balance changed, which is told. */
  ghost predicate OneChanged(l: Ledger, k: Account, amount: int, l': Ledger) {
    && l' == l.(balances := l'.balances, events := l.events + [Change(k, amount)])
    && Bal(l'.balances, k) == Wrap64(Bal(l.balances, k) + amount)
    && forall j :: j != k ==> (j in l'.balances <==> j in l.balances) && Bal(l'.balances, j) == Bal(l.balances, j)
  }

  /** A positive amount is added to the balance of the account it is deposited to. */
  lemma DepositIs(l: Ledger, book: Id -> Order, k: Account, amount: Int64)
    ensures var l' := Exec(l, book, DepositCall(k, amount));
      if amount > 0 then OneChanged(l, k, amount, l') && k in l'.balances else l' == l
  {
  }

  /** A positive amount of some asset is taken from the caller's balance if there is enough. */
  lemma WithdrawIs(l: Ledger, book: Id -> Order, k: Account, amount: Int64)
    requires Fits64(Bal(l.balances, k))
    ensures var l' := Exec(l, book, WithdrawCall(k, amount));
      if amount > 0 && k.asset != "" && Bal(l.balances, k) >= amount then
        OneChanged(l, k, -(amount as int), l') && (k in l'.balances <==> Bal(l.balances, k) > amount)
      else l' == l
  {
  }

  lemma SetMinFeeIs(l: Ledger, book: Id -> Order, asset: Asset, amount: Int64)
    ensures var l' := Exec(l, book, SetMinFeeCall(asset, amount));
      && l' == l.(minFees := l'.minFees)
      && forall a :: MinFee(l', a) == if a == asset && asset != "" && amount >= 0 then amount else MinFee(l, a)
  {
  }
}
