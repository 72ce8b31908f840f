/**
  What the runs of the exchange keep in which no balance and no price plus fee passes 64 bits: balances are
  never negative, each asset is conserved, and the events tell the balances.
 */
module ExchangeTheorems {
  import opened Options
  import opened Signed64
  import opened ExchangeLedger
  import opened ExchangeModulo

  // ---------- sums that fit ----------

  /** The fee charged for a fill, if it is not refused. */
  function Charged(l: Ledger, o: Order, f: Fill, rawFee: int): Option<int> {
    Fee(rawFee, MinFee(l, o.payAsset), f.spentNum)
  }

  /** No balance of checkOrder passes 64 bits, nor do price and fee together. */
  predicate FillFits(l: Ledger, o: Order, f: Fill, rawFee: int) {
    var fee, receiver := Charged(l, o, f, rawFee), Receiver(l, o);
    fee.Some? && receiver.Some? ==>
      && Fits64(f.spentNum + fee.value)
      && SettleExact(l.balances, o, f, fee.value, receiver.value)
  }

  predicate MakersFit(l: Ledger, book: Id -> Order, taker: Order, makers: seq<Fill>, now: int, rawFees: seq<int>)
    requires |rawFees| == |makers|
    decreases |makers|
  {
    var n := |makers| - 1;
    makers == [] || (
      && MakersFit(l, book, taker, makers[..n], now, rawFees[..n])
      && var r := CheckMakers(l, book, taker, makers[..n], now, rawFees[..n]);
         r.Some? ==> FillFits(r.value, book(makers[n].id), makers[n], rawFees[n]))
  }

  /** None of these sums of its fills passes 64 bits. */
  predicate MatchFits(l: Ledger, book: Id -> Order, taker: Fill, makers: seq<Fill>, now: int, rawFee: int,
          rawFees: seq<int>)
    requires |rawFees| == |makers|
  {
    var r := CheckOrder(l, book(taker.id), taker, now, rawFee);
    FillFits(l, book(taker.id), taker, rawFee) &&
      (r.Some? ==> MakersFit(r.value, book, book(taker.id), makers, now, rawFees))
  }

  /** The totals that a match compares do not pass 64 bits. */
  predicate TotalsFit(makers: seq<Fill>) {
    Fits64(TotalGet(makers)) && Fits64(TotalSpent(makers))
  }

  /** What a caller has to see to, for a call that would go through. */
  predicate CallFits(l: Ledger, book: Id -> Order, c: Call) {
    match c
    case DepositCall(k, amount) => amount > 0 ==> Fits64(Bal(l.balances, k) + amount)
    case FillCall(taker, makers, now, rawFee, rawFees) =>
      |rawFees| == |makers| && Match(l, book, taker, makers, now, rawFee, rawFees).Some? ==>
        MatchFits(l, book, taker, makers, now, rawFee, rawFees)
    case _ => true
  }

  predicate CallTotalsFit(l: Ledger, book: Id -> Order, c: Call) {
    c.FillCall? && |c.rawFees| == |c.makers| && Match(l, book, c.taker, c.makers, c.now, c.rawFee, c.rawFees).Some? ==>
      TotalsFit(c.makers)
  }

  /** No such sum of any call's fills and deposits passes 64 bits. */
  predicate Fitting(l: Ledger, book: Id -> Order, calls: seq<Call>)
    decreases |calls|
  {
    var n := |calls| - 1;
    calls == [] || (Fitting(l, book, calls[..n]) && CallFits(Run(l, book, calls[..n]), book, calls[n]))
  }

  /** No total of any match passes 64 bits. */
  predicate FittingTotals(l: Ledger, book: Id -> Order, calls: seq<Call>)
    decreases |calls|
  {
    var n := |calls| - 1;
    calls == [] || (FittingTotals(l, book, calls[..n]) && CallTotalsFit(Run(l, book, calls[..n]), book, calls[n]))
  }

  // ---------- one order ----------

  ghost predicate NonNegative(l: Ledger) {
    FeesOk(l) && forall k :: k in l.balances ==> l.balances[k] >= 0 && Fits64(l.balances[k])
  }

  /** The balances are what the events add up to. */
  ghost predicate EventsTell(l: Ledger) {
    forall k :: Bal(l.balances, k) == Replayed(l.events, k)
  }

  ghost predicate Sane(l: Ledger) {
    NonNegative(l) && EventsTell(l)
  }

  /** Balances that do not wrap around: the exact sums. */
  lemma SettleIs(b: Balances, o: Order, f: Fill, fee: int, receiver: Address, k: Account)
    requires SettleExact(b, o, f, fee, receiver) && Fits64(f.spentNum + fee) && f.spentNum + fee > 0
    ensures Bal(Settle(b, o, f, fee, receiver), k) == Bal(b, k) + Replayed(FillEvents(o, f, fee, receiver), k)
  {
    ReplayedFill(o, f, fee, receiver, k);
  }

  lemma SettlePositive(b: Balances, o: Order, f: Fill, fee: int, receiver: Address)
    requires SettleExact(b, o, f, fee, receiver) && fee >= 0 && f.getNum > 0
    requires Bal(b, Account(o.owner, o.payAsset)) >= f.spentNum + fee
    requires forall k :: k in b ==> b[k] >= 0 && Fits64(b[k])
    ensures var b' := Settle(b, o, f, fee, receiver); forall k :: k in b' ==> b'[k] >= 0 && Fits64(b'[k])
  {
  }

  /** By how much a fill is to change a balance. */
  function Moves(o: Order, f: Fill, fee: int, receiver: Address, k: Account): int {
    (if k == Account(o.owner, o.payAsset) then -(f.spentNum + fee) else 0)
    + (if k == Account(o.owner, o.purchaseAsset) then f.getNum else 0)
    + (if k == Account(receiver, o.payAsset) then fee else 0)
  }

  lemma SettleMoves(b: Balances, o: Order, f: Fill, fee: int, receiver: Address, k: Account)
    requires Fits64(Bal(b, k)) && fee >= 0
    ensures Bal(Settle(b, o, f, fee, receiver), k) == Wrap64(Bal(b, k) + Moves(o, f, fee, receiver, k))
  {
    var w := SettleWraps(b, o, f, fee, receiver, k);
    var w0 := Wraps(-(f.spentNum + fee));
    ReplayedFill(o, f, fee, receiver, k);
    SettleFits(b, o, f, fee, receiver, k);
    WrapSame(Bal(Settle(b, o, f, fee, receiver), k), Bal(b, k) + Moves(o, f, fee, receiver, k),
      w + if k == Account(o.owner, o.payAsset) then w0 else 0);
  }

  /** A fill that goes through moves its amounts and leaves no balance negative if and only if every balance, with
      all that it moves, is at least 0 and below 2^63. */
  lemma FillExact(l: Ledger, o: Order, f: Fill, now: int, rawFee: int, l': Ledger)
    requires CheckOrder(l, o, f, now, rawFee) == Some(l') && NonNegative(l)
    ensures var fee, receiver := Charged(l, o, f, rawFee).value, Receiver(l, o).value;
      (forall k :: 0 <= Bal(l'.balances, k) == Bal(l.balances, k) + Moves(o, f, fee, receiver, k))
      <==> (forall k :: 0 <= Bal(l.balances, k) + Moves(o, f, fee, receiver, k) < 0x8000_0000_0000_0000)
  {
    var fee, receiver := Charged(l, o, f, rawFee).value, Receiver(l, o).value;
    forall k
      ensures Bal(l'.balances, k) == Wrap64(Bal(l.balances, k) + Moves(o, f, fee, receiver, k)) {
      SettleMoves(l.balances, o, f, fee, receiver, k);
    }
  }

  /** A fill whose sums fit moves its amounts and tells them. */
  lemma CheckOrderKeeps(l: Ledger, book: Id -> Order, f: Fill, now: int, rawFee: int, l': Ledger)
    requires CheckOrder(l, book(f.id), f, now, rawFee) == Some(l') && NonNegative(l)
    requires FillFits(l, book(f.id), f, rawFee)
    ensures NonNegative(l') && l'.minFees == l.minFees
    ensures EventsTell(l) ==> EventsTell(l')
  {
    var o := book(f.id);
    var fee, receiver := Charged(l, o, f, rawFee).value, Receiver(l, o).value;
    SettlePositive(l.balances, o, f, fee, receiver);
    forall k ensures EventsTell(l) ==> Bal(l'.balances, k) == Replayed(l'.events, k) {
      SettleIs(l.balances, o, f, fee, receiver, k);
      ReplayedAppend(l.events, FillEvents(o, f, fee, receiver), k);
    }
  }

  lemma CheckOrderTotal(l: Ledger, o: Order, f: Fill, now: int, rawFee: int, l': Ledger, a: Asset)
    requires CheckOrder(l, o, f, now, rawFee) == Some(l') && NonNegative(l) && FillFits(l, o, f, rawFee)
    ensures Total(l'.balances, a) == Total(l.balances, a) + Gain(o, f, a)
  {
    var w := SettleTotal(l.balances, o, f, Charged(l, o, f, rawFee).value, Receiver(l, o).value, a);
  }

  // ---------- a whole match ----------

  lemma {:induction false} MakersKeep(l: Ledger, book: Id -> Order, taker: Order, makers: seq<Fill>, now: int,
          rawFees: seq<int>, l': Ledger)
    requires |rawFees| == |makers| && CheckMakers(l, book, taker, makers, now, rawFees) == Some(l') && NonNegative(l)
    requires MakersFit(l, book, taker, makers, now, rawFees)
    ensures NonNegative(l') && l'.minFees == l.minFees
    ensures EventsTell(l) ==> EventsTell(l')
    ensures forall a :: Total(l'.balances, a) == Total(l.balances, a) + MakersGain(taker, makers, a)
    decreases |makers|
  {
    if makers != [] {
      var n := |makers| - 1;
      var l1 := LastMaker(l, book, taker, makers, now, rawFees, l');
      MakersKeep(l, book, taker, makers[..n], now, rawFees[..n], l1);
      CheckOrderKeeps(l1, book, makers[n], now, rawFees[n], l');
      forall a ensures Total(l'.balances, a) == Total(l.balances, a) + MakersGain(taker, makers, a) {
        CheckOrderTotal(l1, book(makers[n].id), makers[n], now, rawFees[n], l', a);
      }
    }
  }

  lemma MatchKeeps(l: Ledger, book: Id -> Order, taker: Fill, makers: seq<Fill>, now: int, rawFee: int,
          rawFees: seq<int>, l': Ledger)
    requires |rawFees| == |makers| && Match(l, book, taker, makers, now, rawFee, rawFees) == Some(l') && NonNegative(l)
    requires MatchFits(l, book, taker, makers, now, rawFee, rawFees)
    ensures NonNegative(l')
    ensures EventsTell(l) ==> EventsTell(l')
  {
    var l1 := TakerFirst(l, book, taker, makers, now, rawFee, rawFees, l');
    CheckOrderKeeps(l, book, taker, now, rawFee, l1);
    MakersKeep(l1, book, book(taker.id), makers, now, rawFees, l');
  }

  /** By how much a match changes the total of an asset: by what the totals it compares lose in 64 bits. */
  lemma MatchTotal(l: Ledger, book: Id -> Order, taker: Fill, makers: seq<Fill>, now: int, rawFee: int,
          rawFees: seq<int>, l': Ledger, a: Asset)
    requires |rawFees| == |makers| && Match(l, book, taker, makers, now, rawFee, rawFees) == Some(l') && NonNegative(l)
    requires MatchFits(l, book, taker, makers, now, rawFee, rawFees)
    ensures var o := book(taker.id);
      Total(l'.balances, a) == Total(l.balances, a)
        + (if a == o.payAsset then TotalGet(makers) - Wrap64(TotalGet(makers)) else 0)
        - (if a == o.purchaseAsset then TotalSpent(makers) - Wrap64(TotalSpent(makers)) else 0)
  {
    var o := book(taker.id);
    var l1 := TakerFirst(l, book, taker, makers, now, rawFee, rawFees, l');
    CheckOrderKeeps(l, book, taker, now, rawFee, l1);
    CheckOrderTotal(l, o, taker, now, rawFee, l1, a);
    MakersKeep(l1, book, o, makers, now, rawFees, l');
  }

  /** A match whose sums fit conserves the asset the taker pays if and only if the makers' total of it fits in
      64 bits, and likewise the asset he purchases, whoever coincides, fees included.  (A taker who pays what
      he purchases is served if the two totals lose the same.) */
  lemma MatchConserves(l: Ledger, book: Id -> Order, taker: Fill, makers: seq<Fill>, now: int, rawFee: int,
          rawFees: seq<int>, l': Ledger)
    requires |rawFees| == |makers| && Match(l, book, taker, makers, now, rawFee, rawFees) == Some(l') && NonNegative(l)
    requires MatchFits(l, book, taker, makers, now, rawFee, rawFees)
    ensures var pay, purchase := book(taker.id).payAsset, book(taker.id).purchaseAsset;
      && (pay != purchase ==>
          && (Total(l'.balances, pay) == Total(l.balances, pay) <==> Fits64(TotalGet(makers)))
          && (Total(l'.balances, purchase) == Total(l.balances, purchase) <==> Fits64(TotalSpent(makers))))
      && (pay == purchase ==>
          (Total(l'.balances, pay) == Total(l.balances, pay) <==>
            TotalGet(makers) - Wrap64(TotalGet(makers)) == TotalSpent(makers) - Wrap64(TotalSpent(makers))))
    ensures forall a :: TotalsFit(makers) || (a != book(taker.id).payAsset && a != book(taker.id).purchaseAsset) ==>
        Total(l'.balances, a) == Total(l.balances, a)
  {
    forall a ensures var o := book(taker.id);
        Total(l'.balances, a) == Total(l.balances, a)
          + (if a == o.payAsset then TotalGet(makers) - Wrap64(TotalGet(makers)) else 0)
          - (if a == o.purchaseAsset then TotalSpent(makers) - Wrap64(TotalSpent(makers)) else 0) {
      MatchTotal(l, book, taker, makers, now, rawFee, rawFees, l', a);
    }
  }

  // ---------- every call, every run ----------

  lemma ChangeExact(l: Ledger, l': Ledger, k: Account, amount: int)
    requires EventsTell(l) && l'.events == l.events + [Change(k, amount)]
    requires forall j :: Bal(l'.balances, j) == Bal(l.balances, j) + if j == k then amount else 0
    ensures EventsTell(l')
  {
    forall j ensures Bal(l'.balances, j) == Replayed(l'.events, j) {
      ReplayedAppend(l.events, [Change(k, amount)], j);
      ReplayedOne(Change(k, amount), j);
    }
  }

  lemma ExecSane(l: Ledger, book: Id -> Order, c: Call)
    requires Sane(l) && CallFits(l, book, c)
    ensures Sane(Exec(l, book, c))
  {
    var l' := Exec(l, book, c);
    match c
    case DepositCall(k, amount) =>
      if Deposit(l, k, amount).Some? { ChangeExact(l, l', k, amount); }
    case WithdrawCall(k, amount) =>
      if Withdraw(l, k, amount).Some? { ChangeExact(l, l', k, -amount); }
    case FillCall(taker, makers, now, rawFee, rawFees) =>
      if |rawFees| == |makers| && Match(l, book, taker, makers, now, rawFee, rawFees).Some? {
        MatchKeeps(l, book, taker, makers, now, rawFee, rawFees, l');
      }
    case CancelCall(ids, caller) => CancelKeeps(l, book, ids, caller);
    case SetMinFeeCall(_, _) =>
  }

  /** In every run whose sums fit no balance is negative, and replaying the events gives every balance. */
  lemma {:induction false} RunSane(feeReceiver: Address, book: Id -> Order, calls: seq<Call>)
    requires Fitting(Empty(feeReceiver), book, calls)
    ensures Sane(Run(Empty(feeReceiver), book, calls))
    decreases |calls|
  {
    if calls != [] {
      RunSane(feeReceiver, book, calls[..|calls| - 1]);
      ExecSane(Run(Empty(feeReceiver), book, calls[..|calls| - 1]), book, calls[|calls| - 1]);
    }
  }

  lemma ExecTotal(l: Ledger, book: Id -> Order, c: Call, a: Asset)
    requires Sane(l) && CallFits(l, book, c) && CallTotalsFit(l, book, c)
    ensures Total(Exec(l, book, c).balances, a) == Total(l.balances, a) + Inflow(l, c, a)
  {
    var l' := Exec(l, book, c);
    match c
    case DepositCall(k, amount) =>
      if Deposit(l, k, amount).Some? { var w := CreditTotal(l.balances, k, amount, a); }
    case WithdrawCall(k, amount) =>
      if Withdraw(l, k, amount).Some? { WithdrawTotal(l, k, amount, l', a); }
    case FillCall(taker, makers, now, rawFee, rawFees) =>
      if |rawFees| == |makers| && Match(l, book, taker, makers, now, rawFee, rawFees).Some? {
        MatchConserves(l, book, taker, makers, now, rawFee, rawFees, l');
      }
    case CancelCall(ids, caller) => CancelKeeps(l, book, ids, caller);
    case SetMinFeeCall(_, _) =>
  }

  /** In every run whose sums and totals fit, the balances of an asset add up to its deposits less its
      withdrawals. */
  lemma {:induction false} RunConserves(feeReceiver: Address, book: Id -> Order, calls: seq<Call>, a: Asset)
    requires Fitting(Empty(feeReceiver), book, calls) && FittingTotals(Empty(feeReceiver), book, calls)
    ensures Total(Run(Empty(feeReceiver), book, calls).balances, a) == NetInflow(Empty(feeReceiver), book, calls, a)
    decreases |calls|
  {
    if calls != [] {
      var before := calls[..|calls| - 1];
      RunConserves(feeReceiver, book, before, a);
      RunSane(feeReceiver, book, before);
      ExecTotal(Run(Empty(feeReceiver), book, before), book, calls[|calls| - 1], a);
    }
  }

  lemma {:induction false} TotalNonNegative(b: Balances, a: Asset)
    requires forall j :: j in b ==> b[j] >= 0
    ensures Total(b, a) >= 0
    decreases |b|
  {
    if b != map[] {
      var j :| j in b && Total(b, a) == (if j.asset == a then b[j] else 0) + Total(b - {j}, a);
      TotalNonNegative(b - {j}, a);
    }
  }

  /** Nobody has more than all have together. */
  lemma BalanceBelow(b: Balances, k: Account)
    requires forall j :: j in b ==> b[j] >= 0
    ensures 0 <= Bal(b, k) <= Total(b, k.asset)
  {
    if k in b {
      TotalWithout(b, k, k.asset);
      TotalNonNegative(b - {k}, k.asset);
    } else {
      TotalNonNegative(b, k.asset);
    }
  }

  /** In every such run no account holds more of an asset than all deposits of it less all withdrawals. */
  lemma RunFits(feeReceiver: Address, book: Id -> Order, calls: seq<Call>, k: Account)
    requires Fitting(Empty(feeReceiver), book, calls) && FittingTotals(Empty(feeReceiver), book, calls)
    ensures 0 <= Bal(Run(Empty(feeReceiver), book, calls).balances, k) <= NetInflow(Empty(feeReceiver), book, calls,
        k.asset)
  {
    RunSane(feeReceiver, book, calls);
    RunConserves(feeReceiver, book, calls, k.asset);
    BalanceBelow(Run(Empty(feeReceiver), book, calls).balances, k);
  }
}
