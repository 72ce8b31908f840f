/**
  When the sums of the exchange fit: conditions on a call that its caller can check from the storage before
  it, in terms of the amounts in circulation, without going through the fills.
 */
module ExchangeRoom {
  import opened Options
  import opened Signed64
  import opened ExchangeLedger
  import opened ExchangeModulo
  import opened ExchangeTheorems

  /** Price and fee of a fill are below 2^63. */
  predicate SpendFits(l: Ledger, book: Id -> Order, f: Fill, rawFee: int) {
    var fee := Charged(l, book(f.id), f, rawFee);
    fee.Some? ==> Fits64(f.spentNum + fee.value)
  }

  /** The amounts of one call leave room for one another: what is deposited or purchased on top of all there is
      of the asset, price and fee of each fill, and what the makers get. */
  ghost predicate Roomy(l: Ledger, book: Id -> Order, c: Call) {
    match c
    case DepositCall(k, amount) => Fits64(Total(l.balances, k.asset) + amount)
    case FillCall(taker, makers, now, rawFee, rawFees) =>
      var o := book(taker.id);
      |rawFees| == |makers| ==>
        && TotalsFit(makers)
        && Fits64(Total(l.balances, o.payAsset)) && Fits64(Total(l.balances, o.purchaseAsset) + taker.getNum)
        && SpendFits(l, book, taker, rawFee)
        && forall k :: 0 <= k < |makers| ==> SpendFits(l, book, makers[k], rawFees[k])
    case _ => true
  }

  lemma PaidRoom(b: Balances, o: Order, f: Fill, fee: int, a: Asset)
    requires forall k :: k in b ==> b[k] >= 0 && Fits64(b[k])
    requires fee >= 0 && f.spentNum > 0 && Bal(b, Account(o.owner, o.payAsset)) >= f.spentNum + fee
    ensures var b' := Paid(b, o, f, fee);
      && (forall k :: k in b' ==> b'[k] >= 0 && Fits64(b'[k]))
      && Total(b', a) == Total(b, a) - if a == o.payAsset then f.spentNum + fee else 0
  {
    var w := CreditTotal(b, Account(o.owner, o.payAsset), -(f.spentNum + fee), a);
  }

  lemma BoughtRoom(b: Balances, o: Order, f: Fill, fee: int, a: Asset)
    requires forall k :: k in b ==> b[k] >= 0 && Fits64(b[k])
    requires fee >= 0 && f.spentNum > 0 && f.getNum > 0 && Bal(b, Account(o.owner, o.payAsset)) >= f.spentNum + fee
    requires Fits64(Total(b, o.purchaseAsset) + f.getNum)
    ensures var b' := Bought(b, o, f, fee);
      && Fits64(Bal(Paid(b, o, f, fee), Account(o.owner, o.purchaseAsset)) + f.getNum)
      && (forall k :: k in b' ==> b'[k] >= 0 && Fits64(b'[k]))
      && Total(b', a) == Total(b, a) + (if a == o.purchaseAsset then f.getNum else 0)
                         - if a == o.payAsset then f.spentNum + fee else 0
  {
    var b1, k := Paid(b, o, f, fee), Account(o.owner, o.purchaseAsset);
    PaidRoom(b, o, f, fee, o.purchaseAsset);
    PaidRoom(b, o, f, fee, a);
    BalanceBelow(b1, k);
    var w := CreditTotal(b1, k, f.getNum, a);
  }

  /** One fill in a state with room for it. */
  lemma FillRoom(l: Ledger, book: Id -> Order, f: Fill, now: int, rawFee: int)
    requires CheckOrder(l, book(f.id), f, now, rawFee).Some? && NonNegative(l) && SpendFits(l, book, f, rawFee)
    requires Fits64(Total(l.balances, book(f.id).payAsset))
    requires Fits64(Total(l.balances, book(f.id).purchaseAsset) + f.getNum)
    ensures FillFits(l, book(f.id), f, rawFee)
  {
    var o := book(f.id);
    var fee, receiver := Charged(l, o, f, rawFee).value, Receiver(l, o).value;
    BoughtRoom(l.balances, o, f, fee, o.payAsset);
    BalanceBelow(Bought(l.balances, o, f, fee), Account(receiver, o.payAsset));
  }

  /** What the makers before leave room for. */
  lemma MakerRoom(l: Ledger, l0: Ledger, book: Id -> Order, taker: Order, before: seq<Fill>, f: Fill, now: int,
          rawFee: int, room: int)
    requires NonNegative(l) && NonNegative(l0) && l0.minFees == l.minFees
    requires forall a :: Total(l0.balances, a) == Total(l.balances, a) + MakersGain(taker, before, a)
    requires CheckOrder(l0, book(f.id), f, now, rawFee).Some? && Matches(taker, book(f.id))
    requires 0 <= TotalGet(before) && TotalGet(before) + f.getNum <= room && 0 <= TotalSpent(before)
    requires Fits64(Total(l.balances, taker.payAsset) + room) && Fits64(Total(l.balances, taker.purchaseAsset))
    requires SpendFits(l, book, f, rawFee)
    ensures FillFits(l0, book(f.id), f, rawFee)
  {
    TotalNonNegative(l0.balances, taker.payAsset);
    TotalNonNegative(l0.balances, taker.purchaseAsset);
    FillRoom(l0, book, f, now, rawFee);
  }

  /** The makers' orders, one after the other, keep within the room there is for all of them. */
  lemma {:induction false} MakersRoom(l: Ledger, book: Id -> Order, taker: Order, makers: seq<Fill>, now: int,
          rawFees: seq<int>, l': Ledger, room: int)
    requires |rawFees| == |makers| && CheckMakers(l, book, taker, makers, now, rawFees) == Some(l') && NonNegative(l)
    requires TotalGet(makers) <= room
    requires Fits64(Total(l.balances, taker.payAsset) + room) && Fits64(Total(l.balances, taker.purchaseAsset))
    requires forall k :: 0 <= k < |makers| ==> SpendFits(l, book, makers[k], rawFees[k])
    ensures MakersFit(l, book, taker, makers, now, rawFees) && TotalGet(makers) >= 0 && TotalSpent(makers) >= 0
    decreases |makers|
  {
    if makers != [] {
      var n := |makers| - 1;
      var before, f := makers[..n], makers[n];
      var l0 := LastMaker(l, book, taker, makers, now, rawFees, l');
      MakersRoom(l, book, taker, before, now, rawFees[..n], l0, room);
      MakersKeep(l, book, taker, before, now, rawFees[..n], l0);
      MakerRoom(l, l0, book, taker, before, f, now, rawFees[n], room);
    }
  }

  /** The taker's order leaves the room that the makers' need. */
  lemma TakerRoom(l: Ledger, book: Id -> Order, taker: Fill, now: int, rawFee: int, l1: Ledger, room: int)
    requires NonNegative(l) && CheckOrder(l, book(taker.id), taker, now, rawFee) == Some(l1)
    requires SpendFits(l, book, taker, rawFee) && room == taker.spentNum
    requires Fits64(Total(l.balances, book(taker.id).payAsset))
    requires Fits64(Total(l.balances, book(taker.id).purchaseAsset) + taker.getNum)
    ensures FillFits(l, book(taker.id), taker, rawFee) && NonNegative(l1) && l1.minFees == l.minFees
    ensures Fits64(Total(l1.balances, book(taker.id).payAsset) + room)
    ensures Fits64(Total(l1.balances, book(taker.id).purchaseAsset))
  {
    var o := book(taker.id);
    FillRoom(l, book, taker, now, rawFee);
    CheckOrderKeeps(l, book, taker, now, rawFee, l1);
    CheckOrderTotal(l, o, taker, now, rawFee, l1, o.payAsset);
    CheckOrderTotal(l, o, taker, now, rawFee, l1, o.purchaseAsset);
    TotalNonNegative(l1.balances, o.payAsset);
    TotalNonNegative(l1.balances, o.purchaseAsset);
  }

  /** A call with room for its amounts does not wrap around, whatever its fills do in between. */
  lemma RoomyFits(l: Ledger, book: Id -> Order, c: Call)
    requires Roomy(l, book, c) && NonNegative(l)
    ensures CallFits(l, book, c) && CallTotalsFit(l, book, c)
  {
    match c
    case DepositCall(k, amount) => BalanceBelow(l.balances, k);
    case FillCall(taker, makers, now, rawFee, rawFees) =>
      if |rawFees| == |makers| && Match(l, book, taker, makers, now, rawFee, rawFees).Some? {
        MatchRoom(l, book, taker, makers, now, rawFee, rawFees);
      }
    case _ =>
  }

  lemma MatchRoom(l: Ledger, book: Id -> Order, taker: Fill, makers: seq<Fill>, now: int, rawFee: int,
          rawFees: seq<int>)
    requires NonNegative(l) && Roomy(l, book, FillCall(taker, makers, now, rawFee, rawFees))
    requires |rawFees| == |makers| && Match(l, book, taker, makers, now, rawFee, rawFees).Some?
    ensures MatchFits(l, book, taker, makers, now, rawFee, rawFees)
  {
    var o := book(taker.id);
    var l' := Match(l, book, taker, makers, now, rawFee, rawFees).value;
    var l1 := TakerFirst(l, book, taker, makers, now, rawFee, rawFees, l');
    TakerRoom(l, book, taker, now, rawFee, l1, taker.spentNum);
    FeesStay(l, l1, book, makers, rawFees);
    MakersRoom(l1, book, o, makers, now, rawFees, l', TotalGet(makers));
  }

  lemma FeesStay(l: Ledger, l1: Ledger, book: Id -> Order, makers: seq<Fill>, rawFees: seq<int>)
    requires |rawFees| == |makers| && l1.minFees == l.minFees
    requires forall k :: 0 <= k < |makers| ==> SpendFits(l, book, makers[k], rawFees[k])
    ensures forall k :: 0 <= k < |makers| ==> SpendFits(l1, book, makers[k], rawFees[k])
  {
    forall k | 0 <= k < |makers| ensures SpendFits(l1, book, makers[k], rawFees[k]) {
      assert SpendFits(l, book, makers[k], rawFees[k]);
    }
  }

  /** Every call of the run has room for its amounts. */
  ghost predicate RoomyRun(l: Ledger, book: Id -> Order, calls: seq<Call>)
    decreases |calls|
  {
    var n := |calls| - 1;
    calls == [] || (RoomyRun(l, book, calls[..n]) && Roomy(Run(l, book, calls[..n]), book, calls[n]))
  }

  /** So no balance or total of such a run wraps around, and all that is said of those runs is true of it. */
  lemma {:induction false} RoomyRunFits(feeReceiver: Address, book: Id -> Order, calls: seq<Call>)
    requires RoomyRun(Empty(feeReceiver), book, calls)
    ensures Fitting(Empty(feeReceiver), book, calls) && FittingTotals(Empty(feeReceiver), book, calls)
    decreases |calls|
  {
    if calls != [] {
      var before := calls[..|calls| - 1];
      RoomyRunFits(feeReceiver, book, before);
      RunSane(feeReceiver, book, before);
      RoomyFits(Run(Empty(feeReceiver), book, before), book, calls[|calls| - 1]);
    }
  }
}
