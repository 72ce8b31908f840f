/**
  Runs of the exchange, from the empty contract, in which what its calls are for fails: an order filled after
  its cancellation, and sums that pass 64 bits.
 */
module ExchangeRuns {
  import opened Options
  import opened Signed64
  import opened Arith
  import opened Decimal
  import opened SafeText
  import opened ExchangeLedger
  import opened ExchangeModulo
  import opened ExchangeOrders
  import opened ExchangeTheorems
  import opened ExchangeCancel
  import C = ExchangeContract

  /** An order for a percentage of 0. */
  function Free(owner: Address, purchaseAsset: Asset, purchaseNum: Int64, payAsset: Asset, payNum: Int64,
          kind: Kind): Order {
    Order(owner, true, purchaseAsset, purchaseNum, payAsset, payNum, "", true, "0", true, kind, 1)
  }

  lemma NoFee(spentNum: int)
    requires spentNum > 0
    ensures C.FeeShare(spentNum, "0") == 0
  {
    assert "0"[1..] == "" && "0"[0] == '0' && NextX(0, '0') == 0;
    assert Eat("0", false, 0, 0) == Eat("", false, 0, 0);
    assert Parsed("0") == Some(Read(0, 0));
    TimesIs(spentNum, 0);
    DropIs(0, 0);
  }

  /** A fill that is free of charge. */
  function Filled(l: Ledger, o: Order, f: Fill): Ledger
    requires StoreFill(l, o, f).Some?
  {
    l.(orders := l.orders[f.id := StoreFill(l, o, f).value], balances := Bought(l.balances, o, f, 0),
       events := l.events + FillEvents(o, f, 0, l.feeReceiver))
  }

  predicate Fillable(l: Ledger, o: Order, f: Fill) {
    && WellFormed(o, f, 0) && o.relayer == "" && PriceOk(o, f) && MinFee(l, o.payAsset) == 0
    && Account(o.owner, o.payAsset) in l.balances && l.balances[Account(o.owner, o.payAsset)] >= f.spentNum
    && StoreFill(l, o, f).Some?
  }

  lemma FreeFill(l: Ledger, o: Order, f: Fill)
    requires Fillable(l, o, f)
    ensures CheckOrder(l, o, f, 0, 0) == Some(Filled(l, o, f))
  {
  }

  function Zeros(n: nat): seq<int> {
    seq(n, _ => 0)
  }

  /** The sums of a fill that is free of charge. */
  predicate FreeRoom(l: Ledger, o: Order, f: Fill) {
    && o.payAsset != o.purchaseAsset && Fits64(Bal(l.balances, Account(o.owner, o.payAsset)))
    && Fits64(Bal(l.balances, Account(o.owner, o.purchaseAsset)) + f.getNum)
  }

  lemma FreeFits(l: Ledger, o: Order, f: Fill)
    requires Fillable(l, o, f) && FreeRoom(l, o, f)
    ensures FillFits(l, o, f, 0)
  {
  }

  /** One maker more. */
  lemma MakersMore(l: Ledger, book: Id -> Order, taker: Order, makers: seq<Fill>, f: Fill, l1: Ledger)
    requires CheckMakers(l, book, taker, makers, 0, Zeros(|makers|)) == Some(l1)
    requires Fillable(l1, book(f.id), f) && Matches(taker, book(f.id))
    ensures var l' := Filled(l1, book(f.id), f);
      CheckMakers(l, book, taker, makers + [f], 0, Zeros(|makers + [f]|)) == Some(l')
    ensures MakersFit(l, book, taker, makers, 0, Zeros(|makers|)) && FillFits(l1, book(f.id), f, 0) ==>
        MakersFit(l, book, taker, makers + [f], 0, Zeros(|makers + [f]|))
  {
    var ms, n := makers + [f], |makers|;
    assert ms[..n] == makers && ms[n] == f && Zeros(n + 1)[..n] == Zeros(n);
    FreeFill(l1, book(f.id), f);
  }

  lemma TotalsMore(makers: seq<Fill>, f: Fill)
    ensures TotalGet(makers + [f]) == TotalGet(makers) + f.getNum
    ensures TotalSpent(makers + [f]) == TotalSpent(makers) + f.spentNum
  {
    assert (makers + [f])[..|makers|] == makers;
  }

  lemma Fees0(book: Id -> Order, makers: seq<Fill>)
    requires forall k :: 0 <= k < |makers| ==> book(makers[k].id).fee == "0" && makers[k].spentNum > 0
    ensures C.Fees(book, makers) == Zeros(|makers|)
  {
    forall k | 0 <= k < |makers| ensures C.Fees(book, makers)[k] == 0 {
      NoFee(makers[k].spentNum);
    }
  }

  lemma CallIs(book: Id -> Order, taker: Fill, makers: seq<Fill>)
    requires book(taker.id).fee == "0" && taker.spentNum > 0
    requires forall k :: 0 <= k < |makers| ==> book(makers[k].id).fee == "0" && makers[k].spentNum > 0
    ensures C.FillOrderCall(book, taker, makers, 0) == FillCall(taker, makers, 0, 0, Zeros(|makers|))
  {
    NoFee(taker.spentNum);
    Fees0(book, makers);
  }

  // ---------- matches of two ----------

  function Pair(f: Fill, m: Fill): Call {
    FillCall(f, [m], 0, 0, Zeros(1))
  }

  lemma PairIs(book: Id -> Order, f: Fill, m: Fill)
    requires book(f.id).fee == book(m.id).fee == "0" && f.spentNum > 0 && m.spentNum > 0
    ensures C.FillOrderCall(book, f, [m], 0) == Pair(f, m)
  {
    CallIs(book, f, [m]);
  }

  /** A match with one maker. */
  lemma OneMaker(l1: Ledger, book: Id -> Order, taker: Order, m: Fill)
    requires Fillable(l1, book(m.id), m) && Matches(taker, book(m.id))
    ensures CheckMakers(l1, book, taker, [m], 0, Zeros(1)) == Some(Filled(l1, book(m.id), m))
    ensures FillFits(l1, book(m.id), m, 0) ==> MakersFit(l1, book, taker, [m], 0, Zeros(1))
    ensures TotalGet([m]) == m.getNum && TotalSpent([m]) == m.spentNum
  {
    assert [] + [m] == [m];
    assert CheckMakers(l1, book, taker, [], 0, Zeros(0)) == Some(l1);
    MakersMore(l1, book, taker, [], m, l1);
    TotalsMore([], m);
  }

  /** A match of two fills that is free of charge. */
  lemma PairFilled(l: Ledger, book: Id -> Order, f: Fill, m: Fill, l1: Ledger)
    requires Matches(book(f.id), book(m.id)) && m.getNum == f.spentNum && m.spentNum == f.getNum
    requires Fillable(l, book(f.id), f) && l1 == Filled(l, book(f.id), f) && Fillable(l1, book(m.id), m)
    ensures Exec(l, book, Pair(f, m)) == Filled(l1, book(m.id), m) && CallTotalsFit(l, book, Pair(f, m))
    ensures FreeRoom(l, book(f.id), f) && FreeRoom(l1, book(m.id), m) ==> CallFits(l, book, Pair(f, m))
  {
    FreeFill(l, book(f.id), f);
    OneMaker(l1, book, book(f.id), m);
    if FreeRoom(l, book(f.id), f) && FreeRoom(l1, book(m.id), m) {
      FreeFits(l, book(f.id), f);
      FreeFits(l1, book(m.id), m);
    }
  }

  // ---------- runs from the empty contract ----------

  function After(book: Id -> Order, calls: seq<Call>): Ledger {
    Run(Empty("fees"), book, calls)
  }

  predicate AllFit(book: Id -> Order, calls: seq<Call>) {
    Fitting(Empty("fees"), book, calls) && FittingTotals(Empty("fees"), book, calls)
  }

  /** One call more. */
  lemma OneMore(book: Id -> Order, calls: seq<Call>, c: Call)
    ensures (calls + [c])[..|calls|] == calls
    ensures After(book, calls + [c]) == Exec(After(book, calls), book, c)
    ensures Fitting(Empty("fees"), book, calls + [c])
       <==> Fitting(Empty("fees"), book, calls) && CallFits(After(book, calls), book, c)
    ensures FittingTotals(Empty("fees"), book, calls + [c])
       <==> FittingTotals(Empty("fees"), book, calls) && CallTotalsFit(After(book, calls), book, c)
    ensures forall a :: NetInflow(Empty("fees"), book, calls + [c], a)
                     == NetInflow(Empty("fees"), book, calls, a) + Inflow(After(book, calls), c, a)
  {
    assert (calls + [c])[..|calls|] == calls;
  }

  /** The first deposit into an account. */
  lemma DepositMore(book: Id -> Order, calls: seq<Call>, k: Account, amount: Int64)
    requires AllFit(book, calls) && amount > 0 && k !in After(book, calls).balances
    ensures AllFit(book, calls + [DepositCall(k, amount)])
    ensures var l := After(book, calls);
      After(book, calls + [DepositCall(k, amount)])
      == l.(balances := l.balances[k := amount], events := l.events + [Change(k, amount)])
    ensures forall a :: NetInflow(Empty("fees"), book, calls + [DepositCall(k, amount)], a)
                     == NetInflow(Empty("fees"), book, calls, a) + if k.asset == a then amount else 0
  {
    OneMore(book, calls, DepositCall(k, amount));
  }

  function TwoDeposits(x: Account, m: Int64, y: Account, n: Int64): seq<Call> {
    [] + [DepositCall(x, m)] + [DepositCall(y, n)]
  }

  lemma Deposited(book: Id -> Order, x: Account, m: Int64, y: Account, n: Int64) returns (l: Ledger)
    requires x != y && m > 0 && n > 0
    ensures AllFit(book, TwoDeposits(x, m, y, n)) && After(book, TwoDeposits(x, m, y, n)) == l
    ensures l == Ledger(map[x := m, y := n], map[], map[], "fees", [Change(x, m), Change(y, n)])
  {
    DepositMore(book, [], x, m);
    DepositMore(book, [] + [DepositCall(x, m)], y, n);
    l := After(book, TwoDeposits(x, m, y, n));
  }

  // ---------- cancelled too late ----------

  ghost predicate UnitBook(book: Id -> Order) {
    book("x") == Free("t", "B", 10, "A", 10, Sell) && book("y") == Free("m", "A", 10, "B", 10, Buy)
  }

  function OneUnit(book: Id -> Order): Call {
    C.FillOrderCall(book, Fill("x", 1, 1), [Fill("y", 1, 1)], 0)
  }

  /** Nothing or one unit is filled of an order. */
  predicate OneAtMost(l: Ledger, id: Id) {
    id in l.orders ==> l.orders[id] == Stored(None, Some(1), Some(1))
  }

  predicate InStock(l: Ledger, owner: Address, asset: Asset) {
    Account(owner, asset) in l.balances && 1 <= l.balances[Account(owner, asset)] <= 5
  }

  /** The record of an order after one unit more. */
  function UnitMore(l: Ledger, id: Id): Stored {
    if id in l.orders then Stored(None, Some(2), Some(2)) else Stored(None, Some(1), Some(1))
  }

  /** One of the two orders of the run, filled by one unit. */
  lemma UnitFilled(l: Ledger, book: Id -> Order, id: Id, l1: Ledger)
    requires UnitBook(book) && (id == "x" || id == "y") && l.minFees == map[] && OneAtMost(l, id)
    requires InStock(l, book(id).owner, book(id).payAsset)
    requires StoreFill(l, book(id), Fill(id, 1, 1)).Some? ==> l1 == Filled(l, book(id), Fill(id, 1, 1))
    ensures Fillable(l, book(id), Fill(id, 1, 1)) && Matches(book("x"), book("y"))
    ensures l1.minFees == map[] && l1.orders == l.orders[id := UnitMore(l, id)]
    ensures l.balances.Keys <= l1.balances.Keys
    ensures forall k :: k != Account(book(id).owner, "A") && k != Account(book(id).owner, "B") ==>
        Bal(l1.balances, k) == Bal(l.balances, k)
    ensures Bal(l1.balances, Account(book(id).owner, book(id).payAsset))
         == Bal(l.balances, Account(book(id).owner, book(id).payAsset)) - 1
  {
    assert 1 * 10 <= 1 * 10;
  }

  lemma UnitsMatched(l: Ledger, book: Id -> Order, l': Ledger)
    requires UnitBook(book) && l.minFees == map[] && OneAtMost(l, "x") && OneAtMost(l, "y")
    requires InStock(l, "t", "A") && InStock(l, "m", "B") && l' == Exec(l, book, Pair(Fill("x", 1, 1), Fill("y", 1, 1)))
    ensures l'.minFees == map[] && l'.orders == l.orders["x" := UnitMore(l, "x")]["y" := UnitMore(l, "y")]
    ensures Account("t", "A") in l'.balances
    ensures l'.balances[Account("t", "A")] == l.balances[Account("t", "A")] - 1
    ensures Account("m", "B") in l'.balances
    ensures l'.balances[Account("m", "B")] == l.balances[Account("m", "B")] - 1
  {
    var fx, fy := Fill("x", 1, 1), Fill("y", 1, 1);
    var l1 := Filled(l, book("x"), fx);
    UnitFilled(l, book, "x", l1);
    UnitFilled(l1, book, "y", Filled(l1, book("y"), fy));
    PairFilled(l, book, fx, fy, l1);
  }

  lemma CancelTooLate(l: Ledger, book: Id -> Order, l': Ledger)
    requires UnitBook(book) && "x" in l.orders && "y" in l.orders && l' == Exec(l, book, CancelCall(["x"], "t"))
    ensures l' == l.(orders := l'.orders) && "x" in l'.orders && "y" in l'.orders
    ensures l'.orders["x"] == l.orders["x"] && l'.orders["y"] == l.orders["y"]
  {
    CancelNamed(l, book, ["x"], "t", "x");
    CancelOthers(l, book, ["x"], "t", "y");
    CancelKeeps(l, book, ["x"], "t");
  }

  /** A run in which a partly filled order is filled further after its owner has cancelled it. */
  lemma FilledAfterCancel(book: Id -> Order) returns (calls: seq<Call>)
    requires UnitBook(book)
    ensures |calls| == 5 && calls[3] == CancelCall(["x"], "t") && calls[4] == OneUnit(book) && Names(calls[4], "x")
    ensures var l := Run(Empty("fees"), book, calls[..4]);
      "x" in l.orders && l.orders["x"] == Stored(None, Some(1), Some(1))
    ensures var l := Run(Empty("fees"), book, calls);
      "x" in l.orders && l.orders["x"] == Stored(None, Some(2), Some(2))
  {
    PairIs(book, Fill("x", 1, 1), Fill("y", 1, 1));
    calls := UnitsDealt(book, Pair(Fill("x", 1, 1), Fill("y", 1, 1)), CancelCall(["x"], "t"));
  }

  lemma UnitsDealt(book: Id -> Order, unit: Call, cancel: Call) returns (calls: seq<Call>)
    requires UnitBook(book) && unit == Pair(Fill("x", 1, 1), Fill("y", 1, 1)) && cancel == CancelCall(["x"], "t")
    ensures |calls| == 5 && calls[3] == cancel && calls[4] == unit
    ensures var l := After(book, calls[..4]); "x" in l.orders && l.orders["x"] == Stored(None, Some(1), Some(1))
    ensures var l := After(book, calls); "x" in l.orders && l.orders["x"] == Stored(None, Some(2), Some(2))
  {
    var start := TwoDeposits(Account("t", "A"), 5, Account("m", "B"), 5);
    var l2 := Deposited(book, Account("t", "A"), 5, Account("m", "B"), 5);
    OneMore(book, start, unit);
    OneMore(book, start + [unit], cancel);
    OneMore(book, start + [unit] + [cancel], unit);
    calls := start + [unit] + [cancel] + [unit];
    UnitsAfter(l2, book, unit, cancel);
  }

  lemma UnitsAfter(l: Ledger, book: Id -> Order, unit: Call, cancel: Call)
    requires UnitBook(book) && l.minFees == map[] && l.orders == map[] && InStock(l, "t", "A") && InStock(l, "m", "B")
    requires l.balances[Account("t", "A")] == l.balances[Account("m", "B")] == 5
    requires unit == Pair(Fill("x", 1, 1), Fill("y", 1, 1)) && cancel == CancelCall(["x"], "t")
    ensures var l' := Exec(Exec(l, book, unit), book, cancel);
      && "x" in l'.orders && l'.orders["x"] == Stored(None, Some(1), Some(1))
      && var l'' := Exec(l', book, unit); "x" in l''.orders && l''.orders["x"] == Stored(None, Some(2), Some(2))
  {
    var l3 := Exec(l, book, unit);
    UnitsMatched(l, book, l3);
    var l4 := Exec(l3, book, cancel);
    CancelTooLate(l3, book, l4);
    UnitsMatched(l4, book, Exec(l4, book, unit));
  }

  // ---------- totals that pass 64 bits ----------

  const MOST: Int64 := 0x7fff_ffff_ffff_ffff

  function Greedy(): seq<Fill> {
    [Fill("a", MOST, 1)] + [Fill("b", MOST, 1)] + [Fill("c", 3, 1)]
  }

  ghost predicate GreedyBook(book: Id -> Order) {
    && book("t") == Free("t", "B", 3, "A", 1, Sell)
    && book("a") == Free("a", "A", 1, "B", 1, Buy) && book("b") == Free("b", "A", 1, "B", 1, Buy)
    && book("c") == Free("c", "A", 1, "B", 1, Buy)
  }

  lemma GreedyTotals()
    ensures TotalGet(Greedy()) == TWO64 + 1 && TotalSpent(Greedy()) == 3
    ensures Wrap64(TotalGet(Greedy())) == 1
  {
    TotalsOfThree(Fill("a", MOST, 1), Fill("b", MOST, 1), Fill("c", 3, 1));
    JustOver();
  }

  lemma TotalsOfThree(a: Fill, b: Fill, c: Fill)
    ensures TotalGet([a] + [b] + [c]) == a.getNum + b.getNum + c.getNum
    ensures TotalSpent([a] + [b] + [c]) == a.spentNum + b.spentNum + c.spentNum
  {
    TotalsMore([], a);
    TotalsMore([a], b);
    TotalsMore([a] + [b], c);
    assert [] + [a] == [a];
  }

  lemma JustOver()
    ensures Wrap64(TWO64 + 1) == 1
  {
    WrapSame(TWO64 + 1, 1, 1);
  }

  function Units(): seq<Call> {
    [] + [DepositCall(Account("t", "A"), 1)] + [DepositCall(Account("a", "B"), 1)]
    + [DepositCall(Account("b", "B"), 1)] + [DepositCall(Account("c", "B"), 1)]
  }

  /** The accounts of the run have 1 each. */
  ghost predicate UnitEach(l: Ledger) {
    && l.minFees == map[] && l.orders == map[]
    && forall o, a :: Bal(l.balances, Account(o, a))
                   == if (o == "t" && a == "A") || (o in {"a", "b", "c"} && a == "B") then 1 else 0
  }

  lemma UnitsDeposited(book: Id -> Order) returns (l: Ledger)
    ensures After(book, Units()) == l && AllFit(book, Units()) && |Units()| == 4
    ensures NetInflow(Empty("fees"), book, Units(), "A") == 1
    ensures UnitEach(l)
  {
    var d0, d1 := DepositCall(Account("t", "A"), 1), DepositCall(Account("a", "B"), 1);
    DepositMore(book, [], Account("t", "A"), 1);
    DepositMore(book, [] + [d0], Account("a", "B"), 1);
    DepositMore(book, [] + [d0] + [d1], Account("b", "B"), 1);
    DepositMore(book, [] + [d0] + [d1] + [DepositCall(Account("b", "B"), 1)], Account("c", "B"), 1);
    l := After(book, Units());
  }

  function GreedyCall(book: Id -> Order): Call {
    C.FillOrderCall(book, Fill("t", 3, 1), Greedy(), 0)
  }

  /** The taker's fill. */
  lemma GreedyTaker(l: Ledger, book: Id -> Order, l1: Ledger)
    requires GreedyBook(book) && UnitEach(l) && StoreFill(l, book("t"), Fill("t", 3, 1)).Some?
    requires l1 == Filled(l, book("t"), Fill("t", 3, 1))
    ensures CheckOrder(l, book("t"), Fill("t", 3, 1), 0, 0) == Some(l1) && FillFits(l, book("t"), Fill("t", 3, 1), 0)
    ensures l1.minFees == map[] && l1.orders.Keys == {"t"}
    ensures forall o, a ::
        Bal(l1.balances, Account(o, a))
        == if a == "B" && o == "t" then 3 else if a == "B" && o in {"a", "b", "c"} then 1 else 0
    ensures forall o :: o in {"a", "b", "c"} ==> Account(o, "B") in l1.balances
  {
    FreeFill(l, book("t"), Fill("t", 3, 1));
  }

  /** A maker's fill, of one unit of B for any amount of A. */
  lemma GreedyMaker(l: Ledger, book: Id -> Order, f: Fill)
    requires GreedyBook(book) && f.id in {"a", "b", "c"} && f.spentNum == 1 && f.getNum > 0
    requires l.minFees == map[] && f.id !in l.orders
    requires Account(f.id, "B") in l.balances && l.balances[Account(f.id, "B")] == 1
    requires Bal(l.balances, Account(f.id, "A")) == 0
    ensures Fillable(l, book(f.id), f) && FillFits(l, book(f.id), f, 0) && Matches(book("t"), book(f.id))
    ensures var l' := Filled(l, book(f.id), f);
      && l'.minFees == map[] && l'.orders.Keys == l.orders.Keys + {f.id} && l'.balances.Keys >= l.balances.Keys
      && forall k :: Bal(l'.balances, k) == if k == Account(f.id, "A") then f.getNum
                                            else if k == Account(f.id, "B") then 0 else Bal(l.balances, k)
  {
  }

  /** The fills go through, one after the other, and none of their sums passes 64 bits. */
  lemma GreedyFills(l: Ledger, book: Id -> Order) returns (l': Ledger)
    requires GreedyBook(book) && UnitEach(l)
    ensures Match(l, book, Fill("t", 3, 1), Greedy(), 0, 0, Zeros(3)) == Some(l')
    ensures MatchFits(l, book, Fill("t", 3, 1), Greedy(), 0, 0, Zeros(3))
    ensures Bal(l'.balances, Account("a", "A")) == Bal(l'.balances, Account("b", "A")) == MOST
  {
    var t, a, b, c := Fill("t", 3, 1), Fill("a", MOST, 1), Fill("b", MOST, 1), Fill("c", 3, 1);
    var l1 := Filled(l, book("t"), t);
    GreedyTaker(l, book, l1);
    l' := GreedyMakers(l1, book, a, b, c);
    GreedyTotals();
  }

  lemma ThreeMakers(l1: Ledger, book: Id -> Order, taker: Order, a: Fill, b: Fill, c: Fill, l2: Ledger, l3: Ledger)
    requires Fillable(l1, book(a.id), a) && FillFits(l1, book(a.id), a, 0) && l2 == Filled(l1, book(a.id), a)
    requires Fillable(l2, book(b.id), b) && FillFits(l2, book(b.id), b, 0) && l3 == Filled(l2, book(b.id), b)
    requires Fillable(l3, book(c.id), c) && FillFits(l3, book(c.id), c, 0)
    requires Matches(taker, book(a.id)) && Matches(taker, book(b.id)) && Matches(taker, book(c.id))
    ensures CheckMakers(l1, book, taker, [a] + [b] + [c], 0, Zeros(3)) == Some(Filled(l3, book(c.id), c))
    ensures MakersFit(l1, book, taker, [a] + [b] + [c], 0, Zeros(3))
  {
    OneMaker(l1, book, taker, a);
    MakersMore(l1, book, taker, [a], b, l2);
    MakersMore(l1, book, taker, [a] + [b], c, l3);
  }

  lemma GreedyMakers(l1: Ledger, book: Id -> Order, a: Fill, b: Fill, c: Fill) returns (l': Ledger)
    requires GreedyBook(book) && a == Fill("a", MOST, 1) && b == Fill("b", MOST, 1) && c == Fill("c", 3, 1)
    requires l1.minFees == map[] && l1.orders.Keys == {"t"}
    requires forall o :: o in {"a", "b", "c"} ==> Account(o, "B") in l1.balances && l1.balances[Account(o, "B")] == 1
    requires forall o :: o in {"a", "b", "c"} ==> Bal(l1.balances, Account(o, "A")) == 0
    ensures CheckMakers(l1, book, book("t"), Greedy(), 0, Zeros(3)) == Some(l')
    ensures MakersFit(l1, book, book("t"), Greedy(), 0, Zeros(3))
    ensures Bal(l'.balances, Account("a", "A")) == Bal(l'.balances, Account("b", "A")) == MOST
  {
    GreedyMaker(l1, book, a);
    var l2 := Filled(l1, book("a"), a);
    GreedyMaker(l2, book, b);
    var l3 := Filled(l2, book("b"), b);
    GreedyMaker(l3, book, c);
    l' := Filled(l3, book("c"), c);
    ThreeMakers(l1, book, book("t"), a, b, c, l2, l3);
  }

  /** A run in which no balance wraps around and an asset grows from 1 to more than 2^64: the makers get so much
      that their total reads as the 1 that the taker pays. */
  lemma TotalsWrap(book: Id -> Order) returns (calls: seq<Call>)
    requires GreedyBook(book)
    ensures |calls| == 5 && calls[4] == GreedyCall(book)
    ensures Fitting(Empty("fees"), book, calls) && !CallTotalsFit(Run(Empty("fees"), book, calls[..4]), book, calls[4])
    ensures NetInflow(Empty("fees"), book, calls, "A") == 1
    ensures var l := Run(Empty("fees"), book, calls);
      && Bal(l.balances, Account("a", "A")) == Bal(l.balances, Account("b", "A")) == MOST
      && Total(l.balances, "A") == TWO64 + 1
  {
    CallIs(book, Fill("t", 3, 1), Greedy());
    calls := GreedyRun(book, GreedyCall(book));
  }

  lemma GreedyRun(book: Id -> Order, c: Call) returns (calls: seq<Call>)
    requires GreedyBook(book) && c == FillCall(Fill("t", 3, 1), Greedy(), 0, 0, Zeros(3))
    ensures |calls| == 5 && calls[4] == c
    ensures Fitting(Empty("fees"), book, calls) && !CallTotalsFit(After(book, calls[..4]), book, c)
    ensures NetInflow(Empty("fees"), book, calls, "A") == 1
    ensures var l := After(book, calls);
      && Bal(l.balances, Account("a", "A")) == Bal(l.balances, Account("b", "A")) == MOST
      && Total(l.balances, "A") == TWO64 + 1
  {
    var l := UnitsDeposited(book);
    RunSane("fees", book, Units());
    RunConserves("fees", book, Units(), "A");
    var l' := GreedyFills(l, book);
    GreedyTotals();
    MatchTotal(l, book, Fill("t", 3, 1), Greedy(), 0, 0, Zeros(3), l', "A");
    calls := Units() + [c];
    OneMore(book, Units(), c);
  }

  // ---------- price and fee that pass 64 bits ----------

  const HALF: Int64 := 0x4000_0000_0000_0000

  ghost predicate CostlyBook(book: Id -> Order) {
    book("x") == Free("t", "B", 1, "A", HALF, Sell) && book("y") == Free("m", "A", 1, "B", 1, Buy)
  }

  function CostlyStart(): Ledger {
    Ledger(map[Account("t", "A") := 1, Account("m", "B") := 1], map[], map["A" := HALF], "fees",
           [Change(Account("t", "A"), 1), Change(Account("m", "B"), 1)])
  }

  function CostlyCall(book: Id -> Order): Call {
    C.FillOrderCall(book, Fill("x", 1, HALF), [Fill("y", HALF, 1)], 0)
  }

  /** 2^62 for the goods and 2^62 for the fee are -2^63 together, which a balance of 1 covers. */
  lemma CostlyTaker(book: Id -> Order) returns (l1: Ledger)
    requires CostlyBook(book)
    ensures CheckOrder(CostlyStart(), book("x"), Fill("x", 1, HALF), 0, 0) == Some(l1)
    ensures !FillFits(CostlyStart(), book("x"), Fill("x", 1, HALF), 0)
    ensures SettleExact(CostlyStart().balances, book("x"), Fill("x", 1, HALF), HALF, "fees")
    ensures Bal(l1.balances, Account("t", "A")) == 1 - 2 * HALF && Bal(l1.balances, Account("m", "A")) == 0
    ensures l1.minFees == map["A" := HALF] && "y" !in l1.orders
    ensures Account("m", "B") in l1.balances && l1.balances[Account("m", "B")] == 1
  {
    var l, f := CostlyStart(), Fill("x", 1, HALF);
    WrapSame(2 * HALF, -2 * HALF, 1);
    l1 := l.(orders := l.orders["x" := Stored(None, Some(HALF), Some(1))],
             balances := Settle(l.balances, book("x"), f, HALF, "fees"),
             events := l.events + FillEvents(book("x"), f, HALF, "fees"));
  }

  lemma CostlyMaker(l1: Ledger, book: Id -> Order, m: Fill, l2: Ledger)
    requires CostlyBook(book) && m == Fill("y", HALF, 1) && "y" !in l1.orders && l1.minFees == map["A" := HALF]
    requires Account("m", "B") in l1.balances && l1.balances[Account("m", "B")] == 1
    requires Bal(l1.balances, Account("m", "A")) == 0 && l2 == Filled(l1, book("y"), m)
    ensures Fillable(l1, book("y"), m) && Matches(book("x"), book("y"))
    ensures Bal(l2.balances, Account("t", "A")) == Bal(l1.balances, Account("t", "A"))
  {
    assert 1 * 1 <= HALF * 1;
  }

  lemma CostlyFills(l: Ledger, book: Id -> Order, c: Call)
    requires CostlyBook(book) && l == CostlyStart() && c == Pair(Fill("x", 1, HALF), Fill("y", HALF, 1))
    ensures CallTotalsFit(l, book, c) && Bal(Exec(l, book, c).balances, Account("t", "A")) == 1 - 2 * HALF
  {
    var m := Fill("y", HALF, 1);
    var l1 := CostlyTaker(book);
    var l2 := Filled(l1, book("y"), m);
    CostlyMaker(l1, book, m, l2);
    OneMaker(l1, book, book("x"), m);
    assert Match(l, book, c.taker, c.makers, 0, 0, Zeros(1)) == Some(l2);
  }

  /** A run from the empty contract after which an account has a negative balance. */
  lemma FeeWraps(book: Id -> Order) returns (calls: seq<Call>)
    requires CostlyBook(book)
    ensures |calls| == 4 && calls[3] == CostlyCall(book) && Fitting(Empty("fees"), book, calls[..3])
    ensures CallTotalsFit(Run(Empty("fees"), book, calls[..3]), book, calls[3])
    ensures Bal(Run(Empty("fees"), book, calls).balances, Account("t", "A")) == 1 - 2 * HALF < 0
  {
    PairIs(book, Fill("x", 1, HALF), Fill("y", HALF, 1));
    calls := CostlyRun(book, Pair(Fill("x", 1, HALF), Fill("y", HALF, 1)));
  }

  /** Two deposits and a minimum fee. */
  lemma CostlyBegins(book: Id -> Order) returns (calls: seq<Call>)
    ensures |calls| == 3 && AllFit(book, calls) && After(book, calls) == CostlyStart()
  {
    var start := TwoDeposits(Account("t", "A"), 1, Account("m", "B"), 1);
    var l2 := Deposited(book, Account("t", "A"), 1, Account("m", "B"), 1);
    OneMore(book, start, SetMinFeeCall("A", HALF));
    calls := start + [SetMinFeeCall("A", HALF)];
  }

  lemma CostlyRun(book: Id -> Order, c: Call) returns (calls: seq<Call>)
    requires CostlyBook(book) && c == Pair(Fill("x", 1, HALF), Fill("y", HALF, 1))
    ensures |calls| == 4 && calls[3] == c && Fitting(Empty("fees"), book, calls[..3])
    ensures CallTotalsFit(After(book, calls[..3]), book, c)
    ensures Bal(After(book, calls).balances, Account("t", "A")) == 1 - 2 * HALF
  {
    var start := CostlyBegins(book);
    OneMore(book, start, c);
    calls := start + [c];
    CostlyFills(CostlyStart(), book, c);
  }

  // ---------- an amount got that passes 64 bits ----------

  ghost predicate LongBook(book: Id -> Order) {
    && book("x") == Free("t", "B", 1, "A", 2, Sell)
    && book("y") == Free("m", "A", 1, "B", MOST, Buy) && book("z") == Free("n", "A", 1, "B", MOST, Buy)
  }

  function BuyFrom(book: Id -> Order, y: Id): Call {
    C.FillOrderCall(book, Fill("x", MOST, 1), [Fill(y, 1, MOST)], 0)
  }

  /** t pays one unit of A for all the B there is, withdraws it, and does so again. */
  function LongRun(buy: Call, again: Call): seq<Call> {
    TwoDeposits(Account("t", "A"), 2, Account("m", "B"), MOST) + [buy]
    + [WithdrawCall(Account("t", "B"), MOST)] + [DepositCall(Account("n", "B"), MOST)] + [again]
  }

  /** A state from which t buys MOST of B. */
  ghost predicate Buys(l: Ledger, m: Address, y: Id) {
    && l.minFees == map[] && y !in l.orders
    && Account("t", "A") in l.balances && 0 < l.balances[Account("t", "A")] <= 2
    && Account(m, "B") in l.balances && l.balances[Account(m, "B")] == MOST
    && Bal(l.balances, Account("t", "B")) == 0 && Bal(l.balances, Account(m, "A")) == 0
    && ("x" in l.orders ==> l.orders["x"] == Stored(None, Some(1), Some(MOST)))
  }

  /** What is recorded of the order once t has bought. */
  function MostMore(l: Ledger): Stored {
    if "x" in l.orders then Stored(None, Some(2), Some(-2)) else Stored(None, Some(1), Some(MOST))
  }

  lemma TakerBuys(l: Ledger, book: Id -> Order, m: Address, y: Id, l1: Ledger)
    requires LongBook(book) && Buys(l, m, y) && m != "t" && y != "x"
    requires StoreFill(l, book("x"), Fill("x", MOST, 1)).Some? ==> l1 == Filled(l, book("x"), Fill("x", MOST, 1))
    ensures Fillable(l, book("x"), Fill("x", MOST, 1)) && FreeRoom(l, book("x"), Fill("x", MOST, 1))
    ensures l1.minFees == map[] && y !in l1.orders && l1.orders == l.orders["x" := MostMore(l)]
    ensures l1.balances.Keys == l.balances.Keys + {Account("t", "B")}
    ensures forall k :: Bal(l1.balances, k) == if k == Account("t", "A") then Bal(l.balances, k) - 1
                                              else if k == Account("t", "B") then MOST else Bal(l.balances, k)
  {
    assert 1 * 1 <= MOST * 2;
    WrapSame(MOST + MOST, -2, 1);
  }

  lemma MakerSells(l: Ledger, book: Id -> Order, m: Address, y: Id, l1: Ledger)
    requires LongBook(book) && (y == "y" || y == "z") && m == book(y).owner
    requires l.minFees == map[] && y !in l.orders && Bal(l.balances, Account(m, "A")) == 0
    requires Account(m, "B") in l.balances && l.balances[Account(m, "B")] == MOST
    requires l1 == Filled(l, book(y), Fill(y, 1, MOST))
    ensures Fillable(l, book(y), Fill(y, 1, MOST)) && FreeRoom(l, book(y), Fill(y, 1, MOST))
    ensures Matches(book("x"), book(y))
    ensures l1.minFees == map[] && l1.orders == l.orders[y := Stored(None, Some(MOST), Some(1))]
    ensures l.balances.Keys <= l1.balances.Keys
    ensures forall k: Account :: k.owner != m ==> Bal(l1.balances, k) == Bal(l.balances, k)
  {
    assert MOST * 1 <= 1 * MOST;
  }

  lemma BoughtMost(l: Ledger, book: Id -> Order, y: Id, buy: Call, l': Ledger)
    requires LongBook(book) && (y == "y" || y == "z") && Buys(l, book(y).owner, y)
    requires buy == Pair(Fill("x", MOST, 1), Fill(y, 1, MOST)) && l' == Exec(l, book, buy)
    ensures CallFits(l, book, buy) && CallTotalsFit(l, book, buy)
    ensures l'.orders == l.orders["x" := MostMore(l)][y := Stored(None, Some(MOST), Some(1))]
    ensures l'.minFees == map[] && l.balances.Keys <= l'.balances.Keys && Account("t", "B") in l'.balances
    ensures Bal(l'.balances, Account("t", "A")) == l.balances[Account("t", "A")] - 1
    ensures Bal(l'.balances, Account("t", "B")) == MOST
    ensures forall k: Account :: k.owner != book(y).owner && k.owner != "t" ==>
        Bal(l'.balances, k) == Bal(l.balances, k)
  {
    var f, m := Fill("x", MOST, 1), Fill(y, 1, MOST);
    var l1 := Filled(l, book("x"), f);
    TakerBuys(l, book, book(y).owner, y, l1);
    MakerSells(l1, book, book(y).owner, y, Filled(l1, book(y), m));
    PairFilled(l, book, f, m, l1);
  }

  /** What was bought is withdrawn, and as much deposited by another. */
  lemma Replenished(l: Ledger, book: Id -> Order, l': Ledger)
    requires Account("t", "B") in l.balances && l.balances[Account("t", "B")] == MOST && l.minFees == map[]
    requires Account("t", "A") in l.balances && l.balances[Account("t", "A")] == 1
    requires Bal(l.balances, Account("n", "B")) == 0 && Bal(l.balances, Account("n", "A")) == 0 && "z" !in l.orders
    requires "x" in l.orders && l.orders["x"] == Stored(None, Some(1), Some(MOST))
    requires l' == Exec(Exec(l, book, WithdrawCall(Account("t", "B"), MOST)), book,
                        DepositCall(Account("n", "B"), MOST))
    ensures CallFits(Exec(l, book, WithdrawCall(Account("t", "B"), MOST)), book, DepositCall(Account("n", "B"), MOST))
    ensures Buys(l', "n", "z") && l'.orders == l.orders && l'.balances[Account("t", "A")] == 1
  {
  }

  /** A run that records of an order that it has got -2, for 2 that it has spent, and in which no balance and no
      total wraps around. */
  lemma GotWraps(book: Id -> Order) returns (calls: seq<Call>)
    requires LongBook(book)
    ensures calls == LongRun(BuyFrom(book, "y"), BuyFrom(book, "z"))
    ensures Fitting(Empty("fees"), book, calls) && FittingTotals(Empty("fees"), book, calls)
    ensures var l := Run(Empty("fees"), book, calls);
      && "x" in l.orders && l.orders["x"] == Stored(None, Some(2), Some(-2))
      && Bal(l.balances, Account("t", "B")) == MOST && Bal(l.balances, Account("t", "A")) == 0
    ensures !WithinLimits(Stored(None, Some(2), Some(-2)), book("x"))
  {
    PairIs(book, Fill("x", MOST, 1), Fill("y", 1, MOST));
    PairIs(book, Fill("x", MOST, 1), Fill("z", 1, MOST));
    var buy, again := Pair(Fill("x", MOST, 1), Fill("y", 1, MOST)), Pair(Fill("x", MOST, 1), Fill("z", 1, MOST));
    calls := LongRun(buy, again);
    LongDealt(book, buy, again);
  }

  lemma LongDealt(book: Id -> Order, buy: Call, again: Call)
    requires LongBook(book) && buy == Pair(Fill("x", MOST, 1), Fill("y", 1, MOST))
    requires again == Pair(Fill("x", MOST, 1), Fill("z", 1, MOST))
    ensures AllFit(book, LongRun(buy, again))
    ensures var l := After(book, LongRun(buy, again));
      && "x" in l.orders && l.orders["x"] == Stored(None, Some(2), Some(-2))
      && Bal(l.balances, Account("t", "B")) == MOST && Bal(l.balances, Account("t", "A")) == 0
  {
    var start := TwoDeposits(Account("t", "A"), 2, Account("m", "B"), MOST);
    var w, d := WithdrawCall(Account("t", "B"), MOST), DepositCall(Account("n", "B"), MOST);
    var l2 := Deposited(book, Account("t", "A"), 2, Account("m", "B"), MOST);
    OneMore(book, start, buy);
    OneMore(book, start + [buy], w);
    OneMore(book, start + [buy] + [w], d);
    OneMore(book, start + [buy] + [w] + [d], again);
    LongSteps(l2, book, buy, again);
  }

  lemma LongSteps(l: Ledger, book: Id -> Order, buy: Call, again: Call)
    requires LongBook(book) && buy == Pair(Fill("x", MOST, 1), Fill("y", 1, MOST))
    requires again == Pair(Fill("x", MOST, 1), Fill("z", 1, MOST))
    requires Buys(l, "m", "y") && l.orders == map[] && l.balances[Account("t", "A")] == 2
    requires Bal(l.balances, Account("n", "B")) == 0 && Bal(l.balances, Account("n", "A")) == 0
    ensures var w, d := WithdrawCall(Account("t", "B"), MOST), DepositCall(Account("n", "B"), MOST);
      var l4 := Exec(Exec(l, book, buy), book, w);
      var l5 := Exec(l4, book, d);
      && CallFits(l, book, buy) && CallTotalsFit(l, book, buy)
      && CallFits(l4, book, d) && CallFits(l5, book, again) && CallTotalsFit(l5, book, again)
      && var l' := Exec(l5, book, again);
      && "x" in l'.orders && l'.orders["x"] == Stored(None, Some(2), Some(-2))
      && Bal(l'.balances, Account("t", "B")) == MOST && Bal(l'.balances, Account("t", "A")) == 0
  {
    var l3 := Exec(l, book, buy);
    BoughtMost(l, book, "y", buy, l3);
    var l5 := Exec(Exec(l3, book, WithdrawCall(Account("t", "B"), MOST)), book, DepositCall(Account("n", "B"), MOST));
    Replenished(l3, book, l5);
    BoughtMost(l5, book, "z", again, Exec(l5, book, again));
  }
}
