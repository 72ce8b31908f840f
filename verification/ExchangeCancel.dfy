/**
  Cancellation on the exchange: what a call on a list of orders cancels and reports, and that a cancelled
  order is never filled, in any run (src/native_contract/native_exchange_contract.cpp:250-262, 599-650).
 */
module ExchangeCancel {
  import opened Options
  import opened ExchangeLedger

  predicate Cancelled(l: Ledger, id: Id) {
    id in l.orders && l.orders[id].state == Some(0)
  }

  /** A fill that goes through is not of a cancelled order, and leaves what is stored of that alone. */
  lemma FillKeepsCancelled(l: Ledger, o: Order, f: Fill, now: int, rawFee: int, l': Ledger, id: Id)
    requires CheckOrder(l, o, f, now, rawFee) == Some(l') && Cancelled(l, id)
    ensures f.id != id && id in l'.orders && l'.orders[id] == l.orders[id]
  {
  }

  predicate NoneOf(makers: seq<Fill>, id: Id) {
    forall k :: 0 <= k < |makers| ==> makers[k].id != id
  }

  lemma NoneMore(makers: seq<Fill>, id: Id)
    requires makers != [] && NoneOf(makers[..|makers| - 1], id) && makers[|makers| - 1].id != id
    ensures NoneOf(makers, id)
  {
    var before := makers[..|makers| - 1];
    assert forall k :: 0 <= k < |before| ==> makers[k] == before[k];
  }

  /** A match that names a cancelled order fails, and none changes what is stored of it. */
  lemma {:induction false} MakersKeepCancelled(l: Ledger, book: Id -> Order, taker: Order, makers: seq<Fill>, now: int,
          rawFees: seq<int>, l': Ledger, id: Id)
    requires |rawFees| == |makers| && CheckMakers(l, book, taker, makers, now, rawFees) == Some(l')
    requires Cancelled(l, id)
    ensures id in l'.orders && l'.orders[id] == l.orders[id] && NoneOf(makers, id)
    decreases |makers|
  {
    if makers != [] {
      var n := |makers| - 1;
      var l1 := LastMaker(l, book, taker, makers, now, rawFees, l');
      MakersKeepCancelled(l, book, taker, makers[..n], now, rawFees[..n], l1, id);
      FillKeepsCancelled(l1, book(makers[n].id), makers[n], now, rawFees[n], l', id);
      NoneMore(makers, id);
    }
  }

  predicate Names(c: Call, id: Id) {
    c.FillCall? && (c.taker.id == id || exists k :: 0 <= k < |c.makers| && c.makers[k].id == id)
  }

  lemma MatchKeepsCancelled(l: Ledger, book: Id -> Order, taker: Fill, makers: seq<Fill>, now: int, rawFee: int,
          rawFees: seq<int>, id: Id)
    requires |rawFees| == |makers| && Match(l, book, taker, makers, now, rawFee, rawFees).Some? && Cancelled(l, id)
    ensures var l' := Match(l, book, taker, makers, now, rawFee, rawFees).value;
      id in l'.orders && l'.orders[id] == l.orders[id]
    ensures taker.id != id && NoneOf(makers, id)
  {
    var l1 := CheckOrder(l, book(taker.id), taker, now, rawFee).value;
    FillKeepsCancelled(l, book(taker.id), taker, now, rawFee, l1, id);
    MakersKeepCancelled(l1, book, book(taker.id), makers, now, rawFees,
      CheckMakers(l1, book, book(taker.id), makers, now, rawFees).value, id);
  }

  /** A cancelled order stays as it is, and a fill that names it has no effect at all. */
  lemma ExecKeepsCancelled(l: Ledger, book: Id -> Order, c: Call, id: Id)
    requires Cancelled(l, id)
    ensures var l' := Exec(l, book, c);
      id in l'.orders && l'.orders[id] == l.orders[id] && (Names(c, id) ==> l' == l)
  {
    match c
    case FillCall(taker, makers, now, rawFee, rawFees) =>
      if |rawFees| == |makers| && Match(l, book, taker, makers, now, rawFee, rawFees).Some? {
        MatchKeepsCancelled(l, book, taker, makers, now, rawFee, rawFees, id);
      }
    case CancelCall(ids, caller) => CancelKeepsStored(l, book, ids, caller, id);
    case _ =>
  }

  lemma {:induction false} CancelKeepsStored(l: Ledger, book: Id -> Order, ids: seq<Id>, caller: Address, id: Id)
    requires id in l.orders
    ensures var l' := Cancel(l, book, ids, caller); id in l'.orders && l'.orders[id] == l.orders[id]
    decreases |ids|
  {
    if ids != [] {
      CancelKeepsStored(CancelOne(l, book(ids[0]), ids[0], caller), book, ids[1..], caller, id);
    }
  }

  /** Once cancelled, an order is never filled again, whatever calls follow. */
  lemma {:induction false} CancelledForGood(l: Ledger, book: Id -> Order, calls: seq<Call>, id: Id)
    requires Cancelled(l, id)
    ensures var l' := Run(l, book, calls); id in l'.orders && l'.orders[id] == l.orders[id]
    decreases |calls|
  {
    if calls != [] {
      var before := calls[..|calls| - 1];
      CancelledForGood(l, book, before, id);
      ExecKeepsCancelled(Run(l, book, before), book, calls[|calls| - 1], id);
    }
  }

  /** What one cancelOrders call leaves of an order it names on its owner's behalf: cancelled if nothing was
      stored of it, and as it was otherwise. */
  lemma {:induction false} CancelNamed(l: Ledger, book: Id -> Order, ids: seq<Id>, caller: Address, id: Id)
    requires id in ids && book(id).signed && book(id).owner == caller
    ensures var l' := Cancel(l, book, ids, caller);
      id in l'.orders && l'.orders[id] == if id in l.orders then l.orders[id] else Stored(Some(0), None, None)
    decreases |ids|
  {
    var l1 := CancelOne(l, book(ids[0]), ids[0], caller);
    if ids[0] == id {
      CancelKeepsStored(l1, book, ids[1..], caller, id);
    } else {
      assert id in ids[1..];
      CancelNamed(l1, book, ids[1..], caller, id);
    }
  }

  /** Of an order that its caller does not own or that is not signed, and of one it does not name, the call
      changes nothing. */
  lemma {:induction false} CancelOthers(l: Ledger, book: Id -> Order, ids: seq<Id>, caller: Address, id: Id)
    requires id !in ids || !book(id).signed || book(id).owner != caller
    ensures var l' := Cancel(l, book, ids, caller);
      (id in l'.orders <==> id in l.orders) && (id in l.orders ==> l'.orders[id] == l.orders[id])
    decreases |ids|
  {
    if ids != [] {
      CancelOthers(CancelOne(l, book(ids[0]), ids[0], caller), book, ids[1..], caller, id);
    }
  }

  /** An order not cancelled yet is cancelled by a call exactly when its owner names it, signed, and nothing is
      stored of it: of a partly filled order, what was stored is written back unchanged. */
  lemma CancelWorks(l: Ledger, book: Id -> Order, ids: seq<Id>, caller: Address, id: Id)
    requires !Cancelled(l, id)
    ensures Cancelled(Cancel(l, book, ids, caller), id) <==>
            id in ids && book(id).signed && book(id).owner == caller && id !in l.orders
  {
    if id in ids && book(id).signed && book(id).owner == caller {
      CancelNamed(l, book, ids, caller, id);
    } else {
      CancelOthers(l, book, ids, caller, id);
    }
  }

  /** From any state with nothing stored of an order, once its owner's cancelOrders names it, no later call in
      any run fills it: a fill that names it has no effect, and its record stays as cancelled. */
  lemma CancelledUnfilled(l: Ledger, book: Id -> Order, ids: seq<Id>, id: Id, before: seq<Call>, c: Call)
    requires id in ids && book(id).signed && id !in l.orders
    ensures var start := Exec(l, book, CancelCall(ids, book(id).owner));
      var l1 := Run(start, book, before);
      && Cancelled(l1, id) && l1.orders[id] == Stored(Some(0), None, None)
      && (Names(c, id) ==> Exec(l1, book, c) == l1)
  {
    var start := Exec(l, book, CancelCall(ids, book(id).owner));
    CancelNamed(l, book, ids, book(id).owner, id);
    CancelledForGood(start, book, before, id);
    ExecKeepsCancelled(Run(start, book, before), book, c, id);
  }

  /** What the call reports: every signed order of the caller that was not cancelled yet, the partly filled
      ones, which it does not cancel, included; and each of those as often as it is named. */
  lemma {:induction false} ReportedIs(l: Ledger, book: Id -> Order, ids: seq<Id>, caller: Address, id: Id)
    ensures id in Reported(l, book, ids, caller) <==>
            id in ids && book(id).signed && book(id).owner == caller && !Cancelled(l, id)
    decreases |ids|
  {
    if ids != [] {
      var l1 := CancelOne(l, book(ids[0]), ids[0], caller);
      ReportedIs(l1, book, ids[1..], caller, id);
      if id == ids[0] {
      } else {
        assert id in ids <==> id in ids[1..];
      }
    }
  }
}
