/** The fill statuses and the book agree on every run. */
module StatusBook {
  import opened Api
  import opened BookSpec
  import opened Resting
  import opened BookInvariant
  import opened ClobSpec

  /** An open status belongs to a resting order, counts exactly its fills, and the book
      has taken off exactly those where the order was the maker. */
  ghost predicate StatusOk(st: FillStatus, oid: U64, live: map<U64, Order>) {
    && oid in live.Keys
    && st.oid == oid && st.address == live[oid].address
    && st.filledSize == Total(st.fills, SizeOf()) < st.size
    && live[oid].size == st.size - Total(st.fills, MadeBy(oid))
  }

  ghost predicate AgreeOn(status: Statuses, live: map<U64, Order>) {
    forall oid :: oid in status.Keys ==> StatusOk(status[oid], oid, live)
  }

  ghost predicate Agree(s: State) {
    AgreeOn(s.status, Live(s.book))
  }

  /** The part of the invariant that needs no assumption on sizes. */
  ghost predicate Sound(s: State) {
    && BookOk(s.book)
    && Below(Live(s.book).Keys, s.oid) && Below(s.status.Keys, s.oid)
    && s.base.Keys == s.quote.Keys
  }

  predicate Below(oids: set<U64>, bound: U64) {
    forall oid :: oid in oids ==> oid < bound
  }

  ghost function OrderOf(s: State, request: Request): Order
    requires request.AddOrder?
  {
    Order(request.isBuy, request.limitPrice, request.size, s.oid, request.address)
  }

  // ---- The fills of one limit ----

  /** Every fill is with a resting order of the other side, once, at its price, for no
      more than it has, and within the taker's limit. */
  ghost predicate FillsGood(fills: seq<OrderFill>, live: map<U64, Order>, taker: Order) {
    fills == [] ||
    var f, before := fills[|fills| - 1], fills[..|fills| - 1];
    && FillsGood(before, live, taker)
    && FillGood(f, live, taker)
    && Total(before, MadeBy(f.makerOid)) == 0
  }

  ghost predicate FillGood(f: OrderFill, live: map<U64, Order>, taker: Order) {
    && f.makerOid in live.Keys
    && var maker := live[f.makerOid];
      && maker.oid == f.makerOid && maker.isBuy != taker.isBuy
      && Trades(f, maker, taker)
      && 0 < f.size <= maker.size
      && Crosses(taker, maker.limitPrice)
  }

  // The makers a taker reaches: on the other side, within its limit, all resting.
  ghost predicate Reachable(makers: seq<Order>, live: map<U64, Order>, taker: Order) {
    && Distinct(makers)
    && (forall i :: 0 <= i < |makers| ==>
          makers[i].isBuy != taker.isBuy && makers[i].size > 0 && Crosses(taker, makers[i].limitPrice))
    && (forall oid :: oid in ById(makers).Keys ==> oid in live.Keys && live[oid] == ById(makers)[oid])
  }

  lemma FrontReachable(a: seq<Order>, b: seq<Order>, others: map<U64, Order>, taker: Order)
    requires Distinct(a + b) && ById(a + b).Keys !! others.Keys
    requires forall i :: 0 <= i < |a| ==> a[i].isBuy != taker.isBuy && a[i].size > 0 && Crosses(taker, a[i].limitPrice)
    ensures Reachable(a, others + ById(a + b), taker)
  {
    hide Distinct, ById, Crosses;
    ByIdAppend(a, b);
  }

  lemma ReachedMakers(book: Book, taker: Order)
    requires BookOk(book)
    ensures var q := QueueOf(book, !taker.isBuy); Reachable(q[..PriceTime.Reach(taker, q)], Live(book), taker)
  {
    hide PriceTime.Queue, Distinct, ById, PriceTime.SideOk, Live, PriceTime.Reach, Reachable, Crosses;
    var own, q := QueueOf(book, taker.isBuy), QueueOf(book, !taker.isBuy);
    var n := PriceTime.Reach(taker, q);
    PriceTime.QueueSorted(!taker.isBuy, Side(book, !taker.isBuy));
    LiveSides(book, taker.isBuy);
    var a, b := q[..n], q[n..];
    assert q == a + b;
    FrontReachable(a, b, ById(own), taker);
  }

  lemma LimitFills(book: Book, taker: Order)
    requires BookOk(book)
    ensures FillsGood(Limit(book, taker).fills, Live(book), taker)
  {
    hide Fills, Limit, PriceTime.Queue, FillsGood, Live, Distinct, ById, PriceTime.SideOk;
    var q := QueueOf(book, !taker.isBuy);
    var makers := q[..PriceTime.Reach(taker, q)];
    LimitIsGreedy(book, taker);
    ReachedMakers(book, taker);
    FillsInOrder(makers, taker, taker.size);
    var fills := Limit(book, taker).fills;
    PrefixGood(fills, makers, Live(book), taker, |fills|);
    assert fills[..|fills|] == fills;
  }

  lemma {:induction false} PrefixGood(fills: seq<OrderFill>, makers: seq<Order>,
                                      live: map<U64, Order>, taker: Order, k: nat)
    requires k <= |fills| <= |makers| && Reachable(makers, live, taker)
    requires forall i :: 0 <= i < |fills| ==>
      Trades(fills[i], makers[i], taker) && 0 < fills[i].size <= makers[i].size
    ensures FillsGood(fills[..k], live, taker)
  {
    if k > 0 {
      PrefixGood(fills, makers, live, taker, k - 1);
      assert fills[..k][..k - 1] == fills[..k - 1];
      ByIdAt(makers, k - 1);
      OnceEach(fills, makers, k - 1, k - 1);
    }
  }

  lemma {:induction false} GoodAt(fills: seq<OrderFill>, live: map<U64, Order>, taker: Order, i: nat)
    requires FillsGood(fills, live, taker) && i < |fills|
    ensures FillGood(fills[i], live, taker)
  {
    var n := |fills| - 1;
    if i < n {
      GoodAt(fills[..n], live, taker, i);
    }
  }

  /** What a fill says, field by field: which order was hit and by whom, at whose price, who
      buys and who sells. */
  lemma {:induction false} FillFields(book: Book, taker: Order, i: nat)
    requires BookOk(book) && i < |Limit(book, taker).fills|
    ensures var fill := Limit(book, taker).fills[i];
      && fill.makerOid in Live(book).Keys
      && var maker := Live(book)[fill.makerOid];
        && maker.isBuy != taker.isBuy && 0 < fill.size <= maker.size
        && fill.takerOid == taker.oid && fill.price == maker.limitPrice
        && fill.buyer == (if taker.isBuy then taker.address else maker.address)
        && fill.seller == (if taker.isBuy then maker.address else taker.address)
  {
    hide BookOk, Live, Limit, FillsGood;
    LimitFills(book, taker);
    GoodAt(Limit(book, taker).fills, Live(book), taker, i);
  }

  lemma {:induction false} OnceEach(fills: seq<OrderFill>, makers: seq<Order>, j: nat, k: nat)
    requires j <= k < |fills| <= |makers| && Distinct(makers)
    requires forall i :: 0 <= i < |fills| ==> fills[i].makerOid == makers[i].oid
    ensures Total(fills[..j], MadeBy(fills[k].makerOid)) == 0
  {
    if j > 0 {
      OnceEach(fills, makers, j - 1, k);
      assert fills[..j][..j - 1] == fills[..j - 1];
      if makers[j - 1].oid == makers[k].oid {
        DistinctPair(makers, j - 1, k);
      }
    }
  }

  lemma {:induction false} OnlyLiveMakers(fills: seq<OrderFill>, live: map<U64, Order>, taker: Order, oid: U64)
    requires FillsGood(fills, live, taker) && oid !in live.Keys
    ensures Total(fills, MadeBy(oid)) == 0
  {
    if fills != [] {
      OnlyLiveMakers(fills[..|fills| - 1], live, taker, oid);
    }
  }

  // ---- Statuses through the fill loop ----

  /** A status gains exactly the fills its order makes, and is closed once they reach its size. */
  lemma {:induction false} SettledStatus(f: Funds, fills: seq<OrderFill>, oid: U64)
    requires oid in f.status.Keys ==>
      f.status[oid].filledSize < f.status[oid].size && f.status[oid].filledSize + Total(fills, MadeBy(oid)) < TWO64
    ensures var status, made := SettleAll(f, fills).status, Total(fills, MadeBy(oid));
      && (oid in status.Keys <==> oid in f.status.Keys && f.status[oid].filledSize + made < f.status[oid].size)
      && (oid in status.Keys ==>
            var st, st' := f.status[oid], status[oid];
            && st'.oid == st.oid && st'.size == st.size && st'.address == st.address
            && st'.filledSize == st.filledSize + made
            && Total(st'.fills, SizeOf()) == Total(st.fills, SizeOf()) + made
            && Total(st'.fills, MadeBy(oid)) == Total(st.fills, MadeBy(oid)) + made)
      && made >= 0
  {
    hide Settle;
    if fills != [] {
      var before, fill := fills[..|fills| - 1], fills[|fills| - 1];
      SettledStatus(f, before, oid);
      OneStatus(SettleAll(f, before), fill, oid);
    }
  }

  lemma OneStatus(f: Funds, fill: OrderFill, oid: U64)
    requires oid in f.status.Keys ==>
      f.status[oid].filledSize < f.status[oid].size && f.status[oid].filledSize + MadeBy(oid)(fill) < TWO64
    ensures var status, made := Settle(f, fill).status, MadeBy(oid)(fill);
      && (oid in status.Keys <==> oid in f.status.Keys && f.status[oid].filledSize + made < f.status[oid].size)
      && (oid in status.Keys ==>
            var st, st' := f.status[oid], status[oid];
            && st'.oid == st.oid && st'.size == st.size && st'.address == st.address
            && st'.filledSize == st.filledSize + made
            && Total(st'.fills, SizeOf()) == Total(st.fills, SizeOf()) + made
            && Total(st'.fills, MadeBy(oid)) == Total(st.fills, MadeBy(oid)) + made)
      && made >= 0
  {
    if oid in f.status.Keys {
      TotalSnoc(f.status[oid].fills, fill, SizeOf());
      TotalSnoc(f.status[oid].fills, fill, MadeBy(oid));
    }
  }

  lemma {:induction false} MadeAtMost(fills: seq<OrderFill>, oid: U64)
    ensures 0 <= Total(fills, MadeBy(oid)) <= Total(fills, SizeOf())
  {
    if fills != [] {
      MadeAtMost(fills[..|fills| - 1], oid);
    }
  }

  /** No `filled_size` addition of this request wraps around. */
  ghost predicate NoFillWrap(s: State, fills: seq<OrderFill>) {
    forall oid :: oid in s.status.Keys ==> s.status[oid].filledSize + Total(fills, MadeBy(oid)) < TWO64
  }

  lemma LockKeepsStatus(s: State, o: Order)
    ensures Locked(s, o).status == s.status
  {
  }

  lemma AddAgrees(s: State, request: Request)
    requires Sound(s) && Agree(s) && request.AddOrder? && s.oid + 1 < TWO64
    requires NoFillWrap(s, Limit(s.book, OrderOf(s, request)).fills)
    ensures Agree(Tick(s, request).state)
  {
    hide BookOk, Live, Limit;
    var o := OrderOf(s, request);
    if Accepts(s, o) {
      var l := Limit(s.book, o);
      var s' := Tick(s, request).state;
      forall oid | oid in s'.status.Keys
        ensures StatusOk(s'.status[oid], oid, Live(s'.book))
      {
        LimitLive(s.book, o, oid);
        if oid == o.oid {
          NewStatus(s, o);
        } else {
          SettledStatus(Locked(s, o), l.fills, oid);
          MadeAtMost(s.status[oid].fills, oid);
        }
      }
    }
  }

  // The status of the taker itself, if it rests.
  lemma NewStatus(s: State, o: Order)
    requires Sound(s) && o.oid == s.oid
    ensures var l := Limit(s.book, o);
      && (o.oid in SettleAll(Locked(s, o), l.fills).status.Keys ==> false)
      && Total(l.fills, SizeOf()) == o.size - l.remaining
      && Total(l.fills, MadeBy(o.oid)) == 0
  {
    hide Live, Limit;
    var l := Limit(s.book, o);
    LimitFills(s.book, o);
    LimitIsGreedy(s.book, o);
    var q := QueueOf(s.book, !o.isBuy);
    FillsComplete(q[..PriceTime.Reach(o, q)], o, o.size);
    OnlyLiveMakers(l.fills, Live(s.book), o, o.oid);
    SettledStatus(Locked(s, o), l.fills, o.oid);
  }

  /** A status whose `filled_size` addition wraps stays open with the wrong count. */
  lemma {:induction false} WrappedStatus(f: Funds, fills: seq<OrderFill>, live: map<U64, Order>, taker: Order, oid: U64)
    requires FillsGood(fills, live, taker) && oid in f.status.Keys
    requires f.status[oid].filledSize < f.status[oid].size
    requires Total(fills, MadeBy(oid)) <= 0 || f.status[oid].filledSize + Total(fills, MadeBy(oid)) >= TWO64
    ensures var status := SettleAll(f, fills).status;
      var made := Total(fills, MadeBy(oid));
      && oid in status.Keys
      && (made <= 0 ==> made == 0 && status[oid] == f.status[oid])
      && (made > 0 ==>
            && status[oid].filledSize as int == f.status[oid].filledSize + made - TWO64
            && Total(status[oid].fills, SizeOf()) == Total(f.status[oid].fills, SizeOf()) + made)
  {
    if fills != [] {
      var before, fill := fills[..|fills| - 1], fills[|fills| - 1];
      WrappedStatus(f, before, live, taker, oid);
      if fill.makerOid == oid {
        TotalSnoc(f.status[oid].fills, fill, SizeOf());
      }
    }
  }

  /** Adding an order keeps statuses and book in agreement exactly when no `filled_size`
      addition wraps. */
  lemma AgreeIff(s: State, request: Request)
    requires Sound(s) && Agree(s) && request.AddOrder? && s.oid + 1 < TWO64
    requires Accepts(s, OrderOf(s, request))
    ensures Agree(Tick(s, request).state) <==> NoFillWrap(s, Limit(s.book, OrderOf(s, request)).fills)
  {
    hide BookOk, Live, Limit;
    var o := OrderOf(s, request);
    var l := Limit(s.book, o);
    if NoFillWrap(s, l.fills) {
      AddAgrees(s, request);
    } else {
      var oid :| oid in s.status.Keys && s.status[oid].filledSize + Total(l.fills, MadeBy(oid)) >= TWO64;
      LimitFills(s.book, o);
      WrappedStatus(Locked(s, o), l.fills, Live(s.book), o, oid);
      assert !StatusOk(Tick(s, request).state.status[oid], oid, Live(Tick(s, request).state.book));
    }
  }

  // ---- All requests ----

  lemma AgreeWithout(status: Statuses, live: map<U64, Order>, oid: U64)
    requires AgreeOn(status, live)
    ensures AgreeOn(status - {oid}, live - {oid})
  {
    forall o | o in (status - {oid}).Keys
      ensures StatusOk((status - {oid})[o], o, live - {oid})
    {
      assert StatusOk(status[o], o, live);
    }
  }

  // What `cancel_order` leaves untouched.
  lemma CancelFrame(s: State, oid: U64)
    requires Cancel(s.book, oid).order.Some? || oid !in s.status.Keys
    ensures var s' := DoCancel(s, oid).state;
      && s'.oid == s.oid && s'.book == Cancel(s.book, oid).book
      && s'.status == s.status - {oid}
      && s'.base.Keys == s.base.Keys && s'.quote.Keys == s.quote.Keys
  {
  }

  lemma CancelFinds(s: State, oid: U64)
    requires Sound(s) && Agree(s)
    ensures Cancel(s.book, oid).order.Some? || oid !in s.status.Keys
  {
    hide BookOk, Live, Limit;
    if oid in s.status.Keys {
      assert StatusOk(s.status[oid], oid, Live(s.book));
      CancelTakes(s.book, oid);
    }
  }

  lemma CancelAgrees(s: State, oid: U64)
    requires Sound(s) && Agree(s)
    ensures Agree(DoCancel(s, oid).state)
    ensures DoCancel(s, oid).state.status == s.status - {oid}
  {
    hide BookOk, Live, Limit;
    CancelFinds(s, oid);
    CancelFrame(s, oid);
    CancelOk(s.book, oid);
    AgreeWithout(s.status, Live(s.book), oid);
  }

  lemma {:induction false} CancelSound(s: State, oid: U64)
    requires Sound(s)
    ensures Sound(DoCancel(s, oid).state)
  {
    hide BookOk, Live, Limit;
    CancelOk(s.book, oid);
    var s' := DoCancel(s, oid).state;
    assert s'.book == Cancel(s.book, oid).book && s'.status.Keys <= s.status.Keys;
  }

  lemma AddSound(s: State, request: Request)
    requires Sound(s) && request.AddOrder? && s.oid + 1 < TWO64
    ensures Sound(Tick(s, request).state)
  {
    hide BookOk, Live, Limit;
    var o := OrderOf(s, request);
    if Accepts(s, o) {
      LimitOk(s.book, o);
      LiveBelow(s.book, o);
      SettledKeys(Locked(s, o), Limit(s.book, o).fills);
    }
  }

  lemma LiveBelow(book: Book, o: Order)
    requires BookOk(book) && Below(Live(book).Keys, o.oid) && o.oid + 1 < TWO64
    ensures Below(Live(Limit(book, o).book).Keys, o.oid + 1)
  {
    forall oid | oid in Live(Limit(book, o).book).Keys
      ensures oid < o.oid + 1
    {
      LimitLive(book, o, oid);
    }
  }

  lemma {:induction false} SettledKeys(f: Funds, fills: seq<OrderFill>)
    ensures var f' := SettleAll(f, fills);
      f'.base.Keys == f.base.Keys && f'.quote.Keys == f.quote.Keys && f'.status.Keys <= f.status.Keys
  {
    if fills != [] {
      SettledKeys(f, fills[..|fills| - 1]);
    }
  }

  // Deposits and withdrawals touch only balances.
  lemma FundsFrame(s: State, request: Request)
    requires request.Deposit? || request.Withdraw?
    ensures var s' := Tick(s, request).state;
      && s'.oid == s.oid && s'.book == s.book && s'.status == s.status
      && (s.base.Keys == s.quote.Keys ==> s'.base.Keys == s'.quote.Keys)
  {
  }

  lemma {:induction false} TickSound(s: State, request: Request)
    requires Sound(s) && s.oid + 1 < TWO64
    ensures Sound(Tick(s, request).state) && s.oid <= Tick(s, request).state.oid <= s.oid + 1
  {
    hide BookOk, Live;
    match request
    case AddOrder(_, _, _, _) =>
      AddSound(s, request);
    case CancelOrder(oid) =>
      CancelSound(s, oid);
    case Deposit(_, _, _) =>
      FundsFrame(s, request);
    case Withdraw(_, _, _) =>
      FundsFrame(s, request);
  }

  /** The book invariant holds on every run short enough not to exhaust the order ids. */
  lemma {:induction false} BookOkOnAllRuns(requests: seq<Request>)
    requires |requests| < TWO64
    ensures Sound(Run(GENESIS, requests)) && Run(GENESIS, requests).oid <= |requests|
  {
    hide BookOk, Live, Tick;
    if requests == [] {
      EmptyBookOk();
    } else {
      var before := requests[..|requests| - 1];
      BookOkOnAllRuns(before);
      TickSound(Run(GENESIS, before), requests[|requests| - 1]);
    }
  }

  // Sizes that leave room for a fill to be counted twice.
  ghost predicate HalfRange(requests: seq<Request>) {
    forall i :: 0 <= i < |requests| ==> requests[i].AddOrder? ==> requests[i].size <= TWO64 / 2
  }

  ghost predicate SmallStatuses(s: State) {
    forall oid :: oid in s.status.Keys ==> s.status[oid].size <= TWO64 / 2
  }

  lemma SmallNoWrap(s: State, taker: Order)
    requires Sound(s) && Agree(s) && SmallStatuses(s) && taker.oid == s.oid
    ensures NoFillWrap(s, Limit(s.book, taker).fills)
  {
    hide BookOk, Live, Limit;
    forall oid | oid in s.status.Keys
      ensures s.status[oid].filledSize + Total(Limit(s.book, taker).fills, MadeBy(oid)) < TWO64
    {
      assert StatusOk(s.status[oid], oid, Live(s.book));
      LimitLive(s.book, taker, oid);
      MadeAtMost(s.status[oid].fills, oid);
    }
  }

  lemma AddSmall(s: State, request: Request)
    requires SmallStatuses(s) && request.AddOrder? && request.size <= TWO64 / 2
    requires NoFillWrap(s, Limit(s.book, OrderOf(s, request)).fills)
    requires forall oid :: oid in s.status.Keys ==> s.status[oid].filledSize < s.status[oid].size
    ensures SmallStatuses(Tick(s, request).state)
  {
    hide Live, Limit;
    var o := OrderOf(s, request);
    if Accepts(s, o) {
      var s' := Tick(s, request).state;
      forall oid | oid in s'.status.Keys
        ensures s'.status[oid].size <= TWO64 / 2
      {
        SettledStatus(Locked(s, o), Limit(s.book, o).fills, oid);
      }
    }
  }

  lemma TickSmall(s: State, request: Request)
    requires Sound(s) && Agree(s) && SmallStatuses(s) && s.oid + 1 < TWO64
    requires request.AddOrder? ==> request.size <= TWO64 / 2
    ensures Agree(Tick(s, request).state) && SmallStatuses(Tick(s, request).state)
  {
    hide BookOk, Live, Limit;
    match request
    case AddOrder(_, _, _, _) =>
      SmallNoWrap(s, OrderOf(s, request));
      AddAgrees(s, request);
      assert forall oid :: oid in s.status.Keys ==> StatusOk(s.status[oid], oid, Live(s.book));
      AddSmall(s, request);
    case CancelOrder(oid) =>
      CancelAgrees(s, oid);
    case Deposit(_, _, _) =>
      FundsFrame(s, request);
    case Withdraw(_, _, _) =>
      FundsFrame(s, request);
  }

  /** Statuses and book agree on every run whose order sizes stay within half the 64-bit range. */
  lemma {:induction false} AgreeOnAllRuns(requests: seq<Request>)
    requires |requests| < TWO64 && HalfRange(requests)
    ensures var s := Run(GENESIS, requests); Agree(s) && SmallStatuses(s)
  {
    hide BookOk, Live, Tick;
    if requests != [] {
      var before := requests[..|requests| - 1];
      AgreeOnAllRuns(before);
      BookOkOnAllRuns(before);
      TickSmall(Run(GENESIS, before), requests[|requests| - 1]);
    }
  }

  // ---- Exactly which runs keep the agreement ----

  /** Statuses and book agree now and did at every moment before. */
  ghost predicate AlwaysAgrees(requests: seq<Request>) {
    && (requests == [] || AlwaysAgrees(requests[..|requests| - 1]))
    && Agree(Run(GENESIS, requests))
  }

  /** No accepted order of the run makes a `filled_size` addition wrap. */
  ghost predicate NeverWraps(requests: seq<Request>) {
    requests == [] ||
    var before, last := requests[..|requests| - 1], requests[|requests| - 1];
    && NeverWraps(before)
    && (last.AddOrder? ==> AddFits(Run(GENESIS, before), last))
  }

  ghost predicate AddFits(s: State, request: Request)
    requires request.AddOrder?
  {
    Accepts(s, OrderOf(s, request)) ==> NoFillWrap(s, Limit(s.book, OrderOf(s, request)).fills)
  }

  lemma {:induction false} TickAgreesIff(s: State, request: Request)
    requires Sound(s) && Agree(s) && s.oid + 1 < TWO64
    ensures Agree(Tick(s, request).state) <==> (request.AddOrder? ==> AddFits(s, request))
  {
    hide BookOk, Live, Limit, NoFillWrap;
    match request
    case AddOrder(_, _, _, _) =>
      if Accepts(s, OrderOf(s, request)) {
        AgreeIff(s, request);
      }
    case CancelOrder(oid) =>
      CancelAgrees(s, oid);
    case Deposit(_, _, _) =>
      FundsFrame(s, request);
    case Withdraw(_, _, _) =>
      FundsFrame(s, request);
  }

  /** Throughout a run statuses and book agree if and only if no `filled_size` addition wraps. */
  lemma {:induction false} AgreeAlongRunIff(requests: seq<Request>)
    requires |requests| < TWO64
    ensures AlwaysAgrees(requests) <==> NeverWraps(requests)
  {
    hide BookOk, Live, Tick, AddFits;
    if requests == [] {
      EmptyBookOk();
    } else {
      var before := requests[..|requests| - 1];
      AgreeAlongRunIff(before);
      BookOkOnAllRuns(before);
      if AlwaysAgrees(before) {
        TickAgreesIff(Run(GENESIS, before), requests[|requests| - 1]);
      }
    }
  }
}
