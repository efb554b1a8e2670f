/** Where the fills of a run end up: which orders they name, and that an open status lists
    exactly those of its order. */
module FillHistory {
  import opened Api
  import opened BookSpec
  import opened Resting
  import opened BookInvariant
  import opened ClobSpec
  import opened StatusBook

  // ---- What a run places and trades ----

  /** The fills the response to a request reports as new. */
  ghost function FillsOfRequest(s: State, request: Request): seq<OrderFill> {
    var response := Tick(s, request).response;
    if response.OrderAdded? && response.status.Some? then response.status.value.fills else []
  }

  /** All fills of a run, in order. */
  ghost function FillsIn(requests: seq<Request>): seq<OrderFill> {
    if requests == [] then []
    else
      var before := requests[..|requests| - 1];
      FillsIn(before) + FillsOfRequest(Run(GENESIS, before), requests[|requests| - 1])
  }

  /** The orders placed in a run, by the ids they got. */
  ghost function OrdersIn(requests: seq<Request>): map<U64, Order> {
    if requests == [] then map[]
    else
      var before, last := requests[..|requests| - 1], requests[|requests| - 1];
      var s := Run(GENESIS, before);
      if last.AddOrder? && Tick(s, last).response.success
      then OrdersIn(before)[s.oid := Order(last.isBuy, last.limitPrice, last.size, s.oid, last.address)]
      else OrdersIn(before)
  }

  predicate Names(fill: OrderFill, oid: U64) {
    fill.makerOid == oid || fill.takerOid == oid
  }

  /** The fills that name an order, in order. */
  function FillsNaming(fills: seq<OrderFill>, oid: U64): seq<OrderFill> {
    if fills == [] then []
    else
      var last := fills[|fills| - 1];
      FillsNaming(fills[..|fills| - 1], oid) + if Names(last, oid) then [last] else []
  }

  lemma {:induction false} NamingAppend(xs: seq<OrderFill>, ys: seq<OrderFill>, oid: U64)
    ensures FillsNaming(xs + ys, oid) == FillsNaming(xs, oid) + FillsNaming(ys, oid)
  {
    if ys == [] {
      assert xs + ys == xs;
    } else {
      var n := |ys| - 1;
      NamingAppend(xs, ys[..n], oid);
      assert (xs + ys)[..|xs + ys| - 1] == xs + ys[..n];
    }
  }

  lemma {:induction false} AllNaming(fills: seq<OrderFill>, oid: U64)
    requires forall i :: 0 <= i < |fills| ==> Names(fills[i], oid)
    ensures FillsNaming(fills, oid) == fills
  {
    if fills != [] {
      AllNaming(fills[..|fills| - 1], oid);
    }
  }

  lemma {:induction false} NoneNaming(fills: seq<OrderFill>, oid: U64)
    requires forall i :: 0 <= i < |fills| ==> !Names(fills[i], oid)
    ensures FillsNaming(fills, oid) == []
  {
    if fills != [] {
      NoneNaming(fills[..|fills| - 1], oid);
    }
  }

  // ---- The status of a maker through the fill loop ----

  // No fill of these was taken by the order.
  ghost predicate NotTaker(fills: seq<OrderFill>, oid: U64) {
    forall i :: 0 <= i < |fills| ==> fills[i].takerOid != oid
  }

  /** A status is what it was, with these fills of its order added to list and count. */
  ghost predicate Grown(before: FillStatus, after: FillStatus, more: seq<OrderFill>) {
    && after == before.(filledSize := after.filledSize, fills := before.fills + more)
    && (after.filledSize - before.filledSize - Total(more, SizeOf())) % TWO64 == 0
  }

  lemma GrownMore(a: FillStatus, b: FillStatus, fill: OrderFill, more: seq<OrderFill>)
    requires Grown(a, b, more)
    ensures Grown(a, b.(filledSize := Add64(b.filledSize, fill.size), fills := b.fills + [fill]), more + [fill])
  {
    hide Total;
    TotalSnoc(more, fill, SizeOf());
    assert a.fills + more + [fill] == a.fills + (more + [fill]);
  }

  lemma {:induction false} SettledFills(f: Funds, fills: seq<OrderFill>, oid: U64)
    requires NotTaker(fills, oid) && oid in SettleAll(f, fills).status.Keys
    ensures oid in f.status.Keys
    ensures Grown(f.status[oid], SettleAll(f, fills).status[oid], FillsNaming(fills, oid))
  {
    hide Grown, Total;
    if fills == [] {
      NotGrown(f, oid);
    } else {
      var n := |fills| - 1;
      SettledFills(f, fills[..n], oid);
      var more := FillsNaming(fills[..n], oid);
      assert more + [] == more;
      GrownMore(f.status[oid], SettleAll(f, fills[..n]).status[oid], fills[n], more);
    }
  }

  lemma NotGrown(f: Funds, oid: U64)
    requires oid in f.status.Keys
    ensures Grown(f.status[oid], f.status[oid], [])
  {
  }

  // ---- One request ----

  // A fill of a run: between two placed orders of opposite sides, the earlier one the maker.
  ghost predicate Matches(fill: OrderFill, orders: map<U64, Order>) {
    && fill.makerOid < fill.takerOid && fill.makerOid in orders.Keys && fill.takerOid in orders.Keys
    && var maker, taker := orders[fill.makerOid], orders[fill.takerOid];
      && maker.isBuy != taker.isBuy
      && fill.price == maker.limitPrice && Crosses(taker, fill.price)
      && 0 < fill.size <= maker.size && fill.size <= taker.size
      && fill.buyer == (if taker.isBuy then taker.address else maker.address)
      && fill.seller == (if taker.isBuy then maker.address else taker.address)
  }

  /** A status repeats its order's terms, lists the fills that name it, and counts them. */
  ghost predicate StatusTells(st: FillStatus, oid: U64, orders: map<U64, Order>, fills: seq<OrderFill>) {
    && oid in orders.Keys && st.oid == oid && st.size == orders[oid].size && st.address == orders[oid].address
    && st.fills == FillsNaming(fills, oid)
    && (st.filledSize - Total(st.fills, SizeOf())) % TWO64 == 0
  }

  /** Resting orders were placed on these terms, and orders and fills have ids given out. */
  ghost predicate HistoryOk(s: State, orders: map<U64, Order>, fills: seq<OrderFill>) {
    && Below(orders.Keys, s.oid)
    && (forall oid :: oid in Live(s.book).Keys ==>
          oid in orders.Keys && Live(s.book)[oid].size <= orders[oid].size
          && Live(s.book)[oid] == orders[oid].(size := Live(s.book)[oid].size))
    && (forall i :: 0 <= i < |fills| ==> Matches(fills[i], orders))
    && (forall oid :: oid in s.status.Keys ==> StatusTells(s.status[oid], oid, orders, fills))
  }

  lemma {:induction false} SizeAmong(fills: seq<OrderFill>, i: nat)
    requires i < |fills|
    ensures 0 <= fills[i].size <= Total(fills, SizeOf())
  {
    TotalPrefix(fills, i + 1, SizeOf());
    TotalPrefix(fills, i, SizeOf());
    assert fills[..i + 1][..i] == fills[..i];
  }

  // The fills of a placed order are between it and orders placed before.
  lemma NewMatches(s: State, o: Order, orders: map<U64, Order>, fills: seq<OrderFill>, i: nat)
    requires Sound(s) && HistoryOk(s, orders, fills) && o.oid == s.oid && i < |Limit(s.book, o).fills|
    ensures Matches(Limit(s.book, o).fills[i], orders[o.oid := o])
  {
    hide BookOk, Live, Limit, FillsGood, Total;
    var l := Limit(s.book, o);
    LimitFills(s.book, o);
    GoodAt(l.fills, Live(s.book), o, i);
    NewStatus(s, o);
    SizeAmong(l.fills, i);
  }

  lemma LiveTerms(s: State, o: Order, orders: map<U64, Order>, fills: seq<OrderFill>, oid: U64)
    requires Sound(s) && HistoryOk(s, orders, fills) && o.oid == s.oid
    requires oid in Live(Limit(s.book, o).book).Keys
    ensures var live', orders' := Live(Limit(s.book, o).book), orders[o.oid := o];
      && oid in orders'.Keys && live'[oid].size <= orders'[oid].size
      && live'[oid] == orders'[oid].(size := live'[oid].size)
  {
    hide BookOk, Live, Limit, Total;
    LimitLive(s.book, o, oid);
    MadeAtMost(Limit(s.book, o).fills, oid);
  }

  lemma StatusLists(s: State, o: Order, orders: map<U64, Order>, fills: seq<OrderFill>, oid: U64)
    requires Sound(s) && HistoryOk(s, orders, fills) && o.oid == s.oid
    requires oid in SettleAll(Locked(s, o), Limit(s.book, o).fills).status.Keys
    ensures var l := Limit(s.book, o);
      StatusTells(SettleAll(Locked(s, o), l.fills).status[oid], oid, orders[o.oid := o], fills + l.fills)
  {
    hide BookOk, Live, Limit, FillsGood, SettleAll, Locked, FillsNaming, Total;
    var l := Limit(s.book, o);
    LockKeepsStatus(s, o);
    SettledKeys(Locked(s, o), l.fills);
    forall i | 0 <= i < |l.fills|
      ensures l.fills[i].takerOid != oid
    {
      FillFields(s.book, o, i);
    }
    SettledFills(Locked(s, o), l.fills, oid);
    NamingAppend(fills, l.fills, oid);
    TotalAppend(FillsNaming(fills, oid), FillsNaming(l.fills, oid), SizeOf());
    assert StatusTells(s.status[oid], oid, orders, fills);
  }

  lemma {:induction false} TotalAppend(xs: seq<OrderFill>, ys: seq<OrderFill>, f: OrderFill -> int)
    ensures Total(xs + ys, f) == Total(xs, f) + Total(ys, f)
  {
    if ys == [] {
      assert xs + ys == xs;
    } else {
      var n := |ys| - 1;
      TotalAppend(xs, ys[..n], f);
      assert (xs + ys)[..|xs + ys| - 1] == xs + ys[..n];
    }
  }

  // The order just placed is named by its own fills alone.
  lemma OwnFills(s: State, o: Order, orders: map<U64, Order>, fills: seq<OrderFill>)
    requires Sound(s) && HistoryOk(s, orders, fills) && o.oid == s.oid
    ensures var l := Limit(s.book, o);
      && FillsNaming(fills + l.fills, o.oid) == l.fills
      && Total(l.fills, SizeOf()) == o.size - l.remaining
  {
    hide BookOk, Live, Limit, FillsGood, FillsNaming, Total;
    NewStatus(s, o);
    var l := Limit(s.book, o);
    NamingAppend(fills, l.fills, o.oid);
    forall i | 0 <= i < |fills|
      ensures !Names(fills[i], o.oid)
    {
      assert Matches(fills[i], orders);
    }
    NoneNaming(fills, o.oid);
    forall i | 0 <= i < |l.fills|
      ensures Names(l.fills[i], o.oid)
    {
      FillFields(s.book, o, i);
    }
    AllNaming(l.fills, o.oid);
  }

  lemma {:induction false} MoreOrders(fill: OrderFill, orders: map<U64, Order>, o: Order)
    requires Matches(fill, orders) && o.oid !in orders.Keys
    ensures Matches(fill, orders[o.oid := o])
  {
  }

  // What a placed order changes.
  lemma Placed(s: State, request: Request)
    requires request.AddOrder? && Tick(s, request).response.success
    ensures var o, t := OrderOf(s, request), Tick(s, request);
      var l := Limit(s.book, o);
      var status := SettleAll(Locked(s, o), l.fills).status;
      && t.state.book == l.book && t.state.oid == Add64(s.oid, 1) && FillsOfRequest(s, request) == l.fills
      && t.state.status.Keys <= status.Keys + {o.oid}
      && (forall oid :: oid in t.state.status.Keys && oid != o.oid ==> t.state.status[oid] == status[oid])
      && (o.oid in t.state.status.Keys ==>
            || o.oid in status.Keys
            || t.state.status[o.oid] == FillStatus(o.oid, o.size, o.address, o.size - l.remaining, l.fills))
  {
    hide Limit, SettleAll, Locked;
  }

  lemma PlacedHistory(s: State, request: Request, orders: map<U64, Order>, fills: seq<OrderFill>)
    requires Sound(s) && HistoryOk(s, orders, fills) && s.oid + 1 < TWO64
    requires request.AddOrder? && Tick(s, request).response.success
    ensures var o := OrderOf(s, request);
      HistoryOk(Tick(s, request).state, orders[o.oid := o], fills + FillsOfRequest(s, request))
  {
    hide BookOk, Live, Limit, SettleAll, Locked, Matches, FillsNaming, Tick, FillsOfRequest;
    var o, s' := OrderOf(s, request), Tick(s, request).state;
    var l, orders' := Limit(s.book, o), orders[o.oid := o];
    Placed(s, request);
    forall oid | oid in Live(s'.book).Keys
      ensures oid in orders'.Keys && Live(s'.book)[oid].size <= orders'[oid].size
      ensures Live(s'.book)[oid] == orders'[oid].(size := Live(s'.book)[oid].size)
    {
      LiveTerms(s, o, orders, fills, oid);
    }
    forall i | 0 <= i < |fills + l.fills|
      ensures Matches((fills + l.fills)[i], orders')
    {
      if i < |fills| {
        MoreOrders(fills[i], orders, o);
      } else {
        NewMatches(s, o, orders, fills, i - |fills|);
      }
    }
    forall oid | oid in s'.status.Keys
      ensures StatusTells(s'.status[oid], oid, orders', fills + l.fills)
    {
      if oid in SettleAll(Locked(s, o), l.fills).status.Keys {
        NewStatus(s, o);
        StatusLists(s, o, orders, fills, oid);
      } else {
        OwnFills(s, o, orders, fills);
      }
    }
  }

  // Every other request trades nothing and leaves terms and lists alone.
  lemma OtherHistory(s: State, request: Request, orders: map<U64, Order>, fills: seq<OrderFill>)
    requires Sound(s) && HistoryOk(s, orders, fills) && s.oid + 1 < TWO64
    requires !(request.AddOrder? && Tick(s, request).response.success)
    ensures HistoryOk(Tick(s, request).state, orders, fills) && FillsOfRequest(s, request) == []
  {
    hide BookOk, Live, Limit, Matches, FillsNaming, Cancel, StatusTells;
    match request
    case AddOrder(_, _, _, _) =>
    case CancelOrder(oid) =>
      CancelOk(s.book, oid);
      CancelOnly(s, oid);
    case Deposit(_, _, _) =>
    case Withdraw(_, _, _) =>
  }

  lemma CancelOnly(s: State, oid: U64)
    ensures var s' := DoCancel(s, oid).state;
      && s'.oid == s.oid && s'.book == Cancel(s.book, oid).book
      && (s'.status == s.status || s'.status == s.status - {oid})
  {
    hide Cancel;
  }

  // ---- Every run ----

  lemma {:induction false} HistoryHolds(requests: seq<Request>)
    requires |requests| < TWO64
    ensures Sound(Run(GENESIS, requests)) && HistoryOk(Run(GENESIS, requests), OrdersIn(requests), FillsIn(requests))
  {
    hide HistoryOk, Sound, Tick, FillsOfRequest;
    BookOkOnAllRuns(requests);
    if requests == [] {
      StartHistory();
    } else {
      var before, last := requests[..|requests| - 1], requests[|requests| - 1];
      var s := Run(GENESIS, before);
      HistoryHolds(before);
      BookOkOnAllRuns(before);
      if last.AddOrder? && Tick(s, last).response.success {
        PlacedHistory(s, last, OrdersIn(before), FillsIn(before));
      } else {
        OtherHistory(s, last, OrdersIn(before), FillsIn(before));
        assert FillsIn(before) + [] == FillsIn(before);
      }
    }
  }

  lemma StartHistory()
    ensures HistoryOk(GENESIS, map[], [])
  {
    EmptyBookOk();
  }

  /** Every fill of a run is between two orders placed in it, on opposite sides, the maker
      placed first; it trades at the maker's limit price, within the taker's, and names the
      accounts that placed the two as buyer and seller. */
  lemma {:induction false} FillsMatchOrders(requests: seq<Request>, i: nat)
    requires |requests| < TWO64 && i < |FillsIn(requests)|
    ensures var fill, orders := FillsIn(requests)[i], OrdersIn(requests);
      && fill.makerOid < fill.takerOid < Run(GENESIS, requests).oid
      && fill.makerOid in orders.Keys && fill.takerOid in orders.Keys
      && var maker, taker := orders[fill.makerOid], orders[fill.takerOid];
        && maker.isBuy != taker.isBuy
        && fill.price == maker.limitPrice && Crosses(taker, fill.price)
        && 0 < fill.size <= maker.size && fill.size <= taker.size
        && fill.buyer == (if taker.isBuy then taker.address else maker.address)
        && fill.seller == (if taker.isBuy then maker.address else taker.address)
  {
    hide Run, FillsIn, OrdersIn, Live, BookOk;
    HistoryHolds(requests);
    assert Matches(FillsIn(requests)[i], OrdersIn(requests));
  }

  /** An open status repeats its order's size and account, lists exactly the fills of the
      run that name the order, in order, and counts them modulo 2^64; a resting order is the
      one placed under its id but for its size. */
  lemma {:induction false} StatusListsRun(requests: seq<Request>, oid: U64)
    requires |requests| < TWO64
    ensures var s, orders := Run(GENESIS, requests), OrdersIn(requests);
      && (oid in s.status.Keys ==>
            var st := s.status[oid];
            && oid in orders.Keys && st.oid == oid && st.size == orders[oid].size && st.address == orders[oid].address
            && st.fills == FillsNaming(FillsIn(requests), oid)
            && st.filledSize == Total(st.fills, SizeOf()) % TWO64)
      && (oid in Live(s.book).Keys ==>
            oid in orders.Keys && Live(s.book)[oid].size <= orders[oid].size
            && Live(s.book)[oid] == orders[oid].(size := Live(s.book)[oid].size))
  {
    hide Run, FillsIn, OrdersIn, Live, BookOk, FillsNaming, Total;
    HistoryHolds(requests);
    if oid in Run(GENESIS, requests).status.Keys {
      SameMod(Run(GENESIS, requests).status[oid].filledSize,
              Total(Run(GENESIS, requests).status[oid].fills, SizeOf()));
    }
  }

  lemma SameMod(x: U64, y: int)
    requires (x - y) % TWO64 == 0
    ensures x == y % TWO64
  {
  }
}
