/** Concrete runs that reach the failing side of the exact conditions: an overcharged buyer,
    a cancel of a touched order, a count that wraps, and Noop diffs with a changed state. */
module FailingRuns {
  import opened Api
  import opened BookSpec
  import opened Resting
  import opened BookInvariant
  import opened ClobSpec
  import opened StatusBook
  import opened Accounts
  import opened Owed
  import opened Solvency
  import opened PartialTaker

  lemma RunSnoc(requests: seq<Request>, r: Request)
    ensures Run(GENESIS, requests + [r]) == Tick(Run(GENESIS, requests), r).state
  {
    assert (requests + [r])[..|requests|] == requests;
  }

  lemma RunNothing()
    ensures Run(GENESIS, []) == GENESIS
  {
  }

  lemma Reduces(maker: Order, o: Order, oidToLevel: map<U64, U64>)
    requires 0 < o.size < maker.size
    ensures Left([maker], o.size) == 0 && Rest([maker], o.size) == [maker.(size := maker.size - o.size)]
    ensures Drop([maker], o.size, oidToLevel) == oidToLevel
    ensures Fills([maker], o, o.size) == [FillOf(maker, o, o.size)]
  {
    assert [maker][1..] == [];
  }

  // A taker that meets a single, larger maker.
  lemma MeetsLarger(book: Book, o: Order, maker: Order)
    requires Side(book, !o.isBuy) == map[maker.limitPrice := [maker]]
    requires Crosses(o, maker.limitPrice) && 0 < o.size < maker.size
    ensures var levels := map[maker.limitPrice := [maker.(size := maker.size - o.size)]];
      Limit(book, o) == Limited(if o.isBuy then book.(asks := levels) else book.(bids := levels),
                                0, [FillOf(maker, o, o.size)])
  {
    hide Left, Rest, Drop, Fills;
    var levels, p := Side(book, !o.isBuy), maker.limitPrice;
    assert levels.Keys == {p};
    assert IsBest(!o.isBuy, levels.Keys, p);
    PriceTime.BestIs(!o.isBuy, levels, p);
    Reduces(maker, o, book.oidToLevel);
    assert levels[p := [maker.(size := maker.size - o.size)]] == map[p := [maker.(size := maker.size - o.size)]];
  }

  // ---- A sell that overcharges a resting bid ----

  const ASK_FOUR := AddOrder(SELLER, false, 1, 4)
  const BID_TEN := AddOrder(BUYER, true, 1, 10)
  const ASK_TEN := AddOrder(SELLER, false, 1, 10)

  const OVERCHARGED: seq<Request> :=
    [Deposit(SELLER, 14, 0)] + [Deposit(BUYER, 0, 10)] + [ASK_FOUR] + [BID_TEN] + [ASK_TEN]

  const ASK0 := Order(false, 1, 4, 0, SELLER)
  const BID1 := Order(true, 1, 10, 1, BUYER)
  const ASK2 := Order(false, 1, 10, 2, SELLER)

  const PAID_IN := State(0, map[SELLER := AssetBalance(14, 0), BUYER := AssetBalance(0, 0)],
                         map[SELLER := AssetBalance(0, 0), BUYER := AssetBalance(10, 0)], EMPTY_BOOK, map[])

  const ASKED := State(1, map[SELLER := AssetBalance(10, 4), BUYER := AssetBalance(0, 0)], PAID_IN.quote,
                       Book(map[], map[1 := [ASK0]], map[0 := 1]), map[0 := FillStatus(0, 4, SELLER, 0, [])])

  const HALF_BOUGHT := State(2, map[SELLER := AssetBalance(10, 0), BUYER := AssetBalance(4, 0)],
                             map[SELLER := AssetBalance(4, 0), BUYER := AssetBalance(0, 6)],
                             Book(map[1 := [BID1]], map[], map[1 := 1]),
                             map[1 := FillStatus(1, 10, BUYER, 4, [FILL_FOUR])])

  const IN_DEBT := State(3, map[SELLER := AssetBalance(0, 0), BUYER := AssetBalance(14, 0)],
                         map[SELLER := AssetBalance(14, 0), BUYER := AssetBalance(0, 0xFFFF_FFFF_FFFF_FFFC)],
                         Book(map[], map[], map[]), map[])

  lemma PaidInState()
    ensures Run(GENESIS, [Deposit(SELLER, 14, 0)] + [Deposit(BUYER, 0, 10)]) == PAID_IN
  {
    RunNothing();
    RunSnoc([], Deposit(SELLER, 14, 0));
    assert [] + [Deposit(SELLER, 14, 0)] == [Deposit(SELLER, 14, 0)];
    RunSnoc([Deposit(SELLER, 14, 0)], Deposit(BUYER, 0, 10));
  }

  lemma AskedState()
    ensures Tick(PAID_IN, ASK_FOUR).state == ASKED
  {
    RestsWhole(PAID_IN.book, ASK0);
    assert [] + [ASK0] == [ASK0];
    assert SettleAll(Locked(PAID_IN, ASK0), []) == Locked(PAID_IN, ASK0);
    assert Locked(PAID_IN, ASK0).base == ASKED.base;
  }

  lemma HalfBoughtFunds()
    ensures Settle(Locked(ASKED, BID1), FILL_FOUR) == Funds(HALF_BOUGHT.base, HALF_BOUGHT.quote, map[])
  {
  }

  lemma HalfBoughtState()
    ensures Tick(ASKED, BID_TEN).state == HALF_BOUGHT
  {
    hide Settle, Locked, Limit, Tick, DoAddOrder;
    MeetsOne(ASKED.book, BID1, ASK0);
    HalfBoughtFunds();
    assert [] + [BID1] == [BID1];
    OneFill(ASKED, BID_TEN, Limited(HALF_BOUGHT.book, 6, [FILL_FOUR]), FILL_FOUR,
            Funds(HALF_BOUGHT.base, HALF_BOUGHT.quote, map[]));
  }

  lemma InDebtFunds()
    ensures Settle(Locked(HALF_BOUGHT, ASK2), FILL_TEN) == Funds(IN_DEBT.base, IN_DEBT.quote, map[])
  {
  }

  lemma InDebtState()
    ensures Limit(HALF_BOUGHT.book, ASK2).fills == [FILL_TEN]
    ensures Tick(HALF_BOUGHT, ASK_TEN).state == IN_DEBT
  {
    hide Settle, Locked, Limit, Tick, DoAddOrder;
    MeetsOne(HALF_BOUGHT.book, ASK2, BID1);
    InDebtFunds();
    OneFill(HALF_BOUGHT, ASK_TEN, Limited(IN_DEBT.book, 0, [FILL_TEN]), FILL_TEN,
            Funds(IN_DEBT.base, IN_DEBT.quote, map[]));
  }

  /** The mirror of the oversold seller: of 10 quote deposited the buyer ends with 2^64 - 4
      locked and no open order. The fill charges 10 where 6 are due. */
  lemma SellBreaksLedger()
    ensures var before, s := Run(GENESIS, OVERCHARGED[..4]), Run(GENESIS, OVERCHARGED);
      && LockedOf(before.quote, BUYER) == QuoteOwed(before.status, Live(before.book), BUYER) == 6
      && LockedOf(s.quote, BUYER) == TWO64 - 4 && QuoteOwed(s.status, Live(s.book), BUYER) == 0
      && Free(s.quote, SELLER) == 14
  {
    hide Run, QuoteOwed, Live;
    var two := [Deposit(SELLER, 14, 0)] + [Deposit(BUYER, 0, 10)];
    PaidInState();
    AskedState();
    HalfBoughtState();
    InDebtState();
    RunSnoc(two, ASK_FOUR);
    RunSnoc(two + [ASK_FOUR], BID_TEN);
    RunSnoc(two + [ASK_FOUR] + [BID_TEN], ASK_TEN);
    assert OVERCHARGED[..4] == two + [ASK_FOUR] + [BID_TEN];
    SixOwed();
    OwedNothing(IN_DEBT.status, Live(IN_DEBT.book), BUYER);
  }

  lemma SixOwed()
    ensures QuoteOwed(HALF_BOUGHT.status, Live(HALF_BOUGHT.book), BUYER) == 6
  {
    OneLive(HALF_BOUGHT.book, BID1);
    var st := HALF_BOUGHT.status[1];
    var fill := FILL_FOUR;
    assert st.fills == [] + [fill];
    TotalSnoc([], fill, QuoteOf());
    assert QuoteDue(st, BID1) == 6;
    var none: Statuses := map[];
    OwedNothing(none, Live(HALF_BOUGHT.book), BUYER);
    OwedOpen(none, Live(HALF_BOUGHT.book), 1, st, BUYER);
    assert none[1 := st] == HALF_BOUGHT.status;
  }

  // The only resting order of a book.
  lemma OneLive(book: Book, o: Order)
    requires book.bids == map[o.limitPrice := [o]] && book.asks == map[]
    ensures Live(book) == map[o.oid := o]
  {
    var levels, p := book.bids, o.limitPrice;
    assert levels.Keys == {p};
    assert IsBest(true, levels.Keys, p);
    PriceTime.BestIs(true, levels, p);
    assert levels - {p} == map[];
    assert PriceTime.Queue(true, levels) == [o] + [];
    assert [o] + [] == [o] && [o][1..] == [];
  }

  // ---- A cancel of an order that a maker fill has touched ----

  const BID_FOUR := AddOrder(BUYER, true, 1, 4)

  const TOUCHED: seq<Request> := [Deposit(SELLER, 10, 0)] + [Deposit(BUYER, 0, 4)] + [ASK_TEN] + [BID_FOUR]

  const ASK0_TEN := Order(false, 1, 10, 0, SELLER)
  const ASK0_SIX := Order(false, 1, 6, 0, SELLER)
  const BID1_FOUR := Order(true, 1, 4, 1, BUYER)

  const FOUR_IN := State(0, map[SELLER := AssetBalance(10, 0), BUYER := AssetBalance(0, 0)],
                         map[SELLER := AssetBalance(0, 0), BUYER := AssetBalance(4, 0)], EMPTY_BOOK, map[])

  const TEN_ASKED := State(1, map[SELLER := AssetBalance(0, 10), BUYER := AssetBalance(0, 0)], FOUR_IN.quote,
                           Book(map[], map[1 := [ASK0_TEN]], map[0 := 1]),
                           map[0 := FillStatus(0, 10, SELLER, 0, [])])

  const SIX_LEFT := State(2, map[SELLER := AssetBalance(0, 6), BUYER := AssetBalance(4, 0)],
                          map[SELLER := AssetBalance(4, 0), BUYER := AssetBalance(0, 0)],
                          Book(map[], map[1 := [ASK0_SIX]], map[0 := 1]),
                          map[0 := FillStatus(0, 10, SELLER, 4, [FILL_FOUR])])

  const FOUR_STUCK := State(2, map[SELLER := AssetBalance(2, 4), BUYER := AssetBalance(4, 0)], SIX_LEFT.quote,
                            Book(map[], map[1 := []], map[]), map[])

  lemma FourInState()
    ensures Run(GENESIS, [Deposit(SELLER, 10, 0)] + [Deposit(BUYER, 0, 4)]) == FOUR_IN
  {
    RunNothing();
    RunSnoc([], Deposit(SELLER, 10, 0));
    assert [] + [Deposit(SELLER, 10, 0)] == [Deposit(SELLER, 10, 0)];
    RunSnoc([Deposit(SELLER, 10, 0)], Deposit(BUYER, 0, 4));
  }

  lemma TenAskedState()
    ensures Tick(FOUR_IN, ASK_TEN).state == TEN_ASKED
  {
    RestsWhole(FOUR_IN.book, ASK0_TEN);
    assert [] + [ASK0_TEN] == [ASK0_TEN];
    assert SettleAll(Locked(FOUR_IN, ASK0_TEN), []) == Locked(FOUR_IN, ASK0_TEN);
    assert Locked(FOUR_IN, ASK0_TEN).base == TEN_ASKED.base;
  }

  lemma SixLeftFunds()
    ensures Settle(Locked(TEN_ASKED, BID1_FOUR), FILL_FOUR) == Funds(SIX_LEFT.base, SIX_LEFT.quote, SIX_LEFT.status)
  {
    assert [] + [FILL_FOUR] == [FILL_FOUR];
  }

  lemma SixLeftState()
    ensures Tick(TEN_ASKED, BID_FOUR).state == SIX_LEFT
  {
    hide Settle, Locked, Limit, Tick, DoAddOrder;
    MeetsLarger(TEN_ASKED.book, BID1_FOUR, ASK0_TEN);
    SixLeftFunds();
    OneFill(TEN_ASKED, BID_FOUR, Limited(SIX_LEFT.book, 0, [FILL_FOUR]), FILL_FOUR,
            Funds(SIX_LEFT.base, SIX_LEFT.quote, SIX_LEFT.status));
  }

  lemma FourStuckState()
    ensures Tick(SIX_LEFT, CancelOrder(0)).state == FOUR_STUCK
  {
    assert Position([ASK0_SIX], 0) == Some(0);
    assert [ASK0_SIX][..0] + [ASK0_SIX][1..] == [];
  }

  /** An ask of 10 of which 4 are sold, then cancelled: 2 base are freed, and 4 stay locked
      for an account without open orders. */
  lemma CancelBreaksLedger()
    ensures var before, s := Run(GENESIS, TOUCHED), Run(GENESIS, TOUCHED + [CancelOrder(0)]);
      && LockedOf(before.base, SELLER) == 6 && !Untouched(before, 0)
      && Free(s.base, SELLER) == Free(before.base, SELLER) + 2
      && LockedOf(s.base, SELLER) == 4 && BaseOwed(s.status, Live(s.book), SELLER) == 0
  {
    hide Run, BaseOwed, Live;
    var two := [Deposit(SELLER, 10, 0)] + [Deposit(BUYER, 0, 4)];
    FourInState();
    TenAskedState();
    SixLeftState();
    FourStuckState();
    RunSnoc(two, ASK_TEN);
    RunSnoc(two + [ASK_TEN], BID_FOUR);
    RunSnoc(TOUCHED, CancelOrder(0));
    OneAsk(SIX_LEFT.book, ASK0_SIX);
    OwedNothing(FOUR_STUCK.status, Live(FOUR_STUCK.book), SELLER);
  }

  lemma OneAsk(book: Book, o: Order)
    requires book.asks == map[o.limitPrice := [o]] && book.bids == map[]
    ensures Live(book) == map[o.oid := o]
  {
    var levels, p := book.asks, o.limitPrice;
    assert levels.Keys == {p};
    assert IsBest(false, levels.Keys, p);
    PriceTime.BestIs(false, levels, p);
    assert levels - {p} == map[];
    assert PriceTime.Queue(false, levels) == [o] + [];
    assert [o] + [] == [o] && [o][1..] == [];
  }

  // ---- Noop diffs with a changed state ----

  const BID_SIX := AddOrder(BUYER, true, 1, 6)

  const FILL_SIX := OrderFill(1, 2, 6, 1, BUYER, SELLER)
  const BID2_SIX := Order(true, 1, 6, 2, BUYER)
  const ASK1_FOUR := Order(false, 1, 4, 1, SELLER)

  // After the partly filled ask of 10 has been bought 6 more: closed, yet 4 of it rest.
  const LEFTOVER := State(3, map[SELLER := AssetBalance(0, 0), BUYER := AssetBalance(10, 0)],
                          map[SELLER := AssetBalance(10, 0), BUYER := AssetBalance(90, 0)],
                          Book(map[], map[1 := [ASK1_FOUR]], map[1 := 1]), map[])

  lemma LeftoverFunds()
    ensures Settle(Locked(PARTLY, BID2_SIX), FILL_SIX) == Funds(LEFTOVER.base, LEFTOVER.quote, map[])
  {
  }

  lemma LeftoverState()
    ensures Tick(PARTLY, BID_SIX).state == LEFTOVER
  {
    hide Settle, Locked, Limit, Tick, DoAddOrder;
    MeetsLarger(PARTLY.book, BID2_SIX, ASK1);
    LeftoverFunds();
    OneFill(PARTLY, BID_SIX, Limited(LEFTOVER.book, 0, [FILL_SIX]), FILL_SIX,
            Funds(LEFTOVER.base, LEFTOVER.quote, map[]));
  }

  /** An order nobody can pay for uses up an id. */
  lemma UnaffordableChanges()
    ensures var s := Run(GENESIS, [Deposit(SELLER, 10, 0)]);
      var t := Tick(s, AddOrder(SELLER, false, 1, 20));
      t.diffs == [Noop] && t.state == s.(oid := 1)
  {
    RunNothing();
    RunSnoc([], Deposit(SELLER, 10, 0));
    assert [] + [Deposit(SELLER, 10, 0)] == [Deposit(SELLER, 10, 0)];
  }

  /** Cancelling an order that rests without a status takes it off the book. */
  lemma CancelOfLeftoverChanges()
    ensures var s := Run(GENESIS, START + [ASK] + [BID_SIX]);
      var t := Tick(s, CancelOrder(1));
      && t.diffs == [Noop] && s.book.asks == map[1 := [ASK1_FOUR]]
      && t.state == s.(book := Book(map[], map[1 := []], map[]))
  {
    hide Run;
    RunPartly();
    LeftoverState();
    RunSnoc(START + [ASK], BID_SIX);
    assert Position([ASK1_FOUR], 1) == Some(0);
    assert [ASK1_FOUR][..0] + [ASK1_FOUR][1..] == [];
  }

  // ---- A filled_size that wraps ----

  const OTHER: Address := 3

  const HALF: U64 := 0x8000_0000_0000_0000
  const ALL: U64 := 0xFFFF_FFFF_FFFF_FFFF

  const BID_HALF := AddOrder(BUYER, true, 1, HALF)
  const ASK_ALL := AddOrder(SELLER, false, 1, ALL)
  const BID_MORE := AddOrder(OTHER, true, 1, HALF)

  const WRAPPING: seq<Request> :=
    [Deposit(SELLER, ALL, 0)] + [Deposit(BUYER, 0, HALF)] + [Deposit(OTHER, 0, HALF)] + [BID_HALF] + [ASK_ALL]

  const BID0_HALF := Order(true, 1, HALF, 0, BUYER)
  const ASK1_ALL := Order(false, 1, ALL, 1, SELLER)
  const BID2_MORE := Order(true, 1, HALF, 2, OTHER)

  const FIRST_FILL := OrderFill(0, 1, HALF, 1, BUYER, SELLER)
  const SECOND_FILL := OrderFill(1, 2, HALF, 1, OTHER, SELLER)

  const RICH := State(0, map[SELLER := AssetBalance(ALL, 0), BUYER := AssetBalance(0, 0), OTHER := AssetBalance(0, 0)],
                      map[SELLER := AssetBalance(0, 0), BUYER := AssetBalance(HALF, 0), OTHER := AssetBalance(HALF, 0)],
                      EMPTY_BOOK, map[])

  const HALF_BID := State(1, RICH.base,
                          map[SELLER := AssetBalance(0, 0), BUYER := AssetBalance(0, HALF),
                              OTHER := AssetBalance(HALF, 0)],
                          Book(map[1 := [BID0_HALF]], map[], map[0 := 1]),
                          map[0 := FillStatus(0, HALF, BUYER, 0, [])])

  const HALF_SOLD := State(2,
                           map[SELLER := AssetBalance(0, HALF - 1), BUYER := AssetBalance(HALF, 0),
                               OTHER := AssetBalance(0, 0)],
                           map[SELLER := AssetBalance(HALF, 0), BUYER := AssetBalance(0, 0),
                               OTHER := AssetBalance(HALF, 0)],
                           Book(map[], map[1 := [ASK1_ALL]], map[1 := 1]),
                           map[1 := FillStatus(1, ALL, SELLER, HALF, [FIRST_FILL])])

  lemma RichState()
    ensures Run(GENESIS, [Deposit(SELLER, ALL, 0)] + [Deposit(BUYER, 0, HALF)] + [Deposit(OTHER, 0, HALF)]) == RICH
  {
    RunNothing();
    RunSnoc([], Deposit(SELLER, ALL, 0));
    assert [] + [Deposit(SELLER, ALL, 0)] == [Deposit(SELLER, ALL, 0)];
    RunSnoc([Deposit(SELLER, ALL, 0)], Deposit(BUYER, 0, HALF));
    RunSnoc([Deposit(SELLER, ALL, 0)] + [Deposit(BUYER, 0, HALF)], Deposit(OTHER, 0, HALF));
  }

  lemma HalfBidState()
    ensures Tick(RICH, BID_HALF).state == HALF_BID
  {
    RestsWhole(RICH.book, BID0_HALF);
    assert [] + [BID0_HALF] == [BID0_HALF];
    assert SettleAll(Locked(RICH, BID0_HALF), []) == Locked(RICH, BID0_HALF);
    assert BID0_HALF.QuoteSize() == HALF;
    assert Locked(RICH, BID0_HALF).quote == HALF_BID.quote;
  }

  lemma HalfSoldFunds()
    ensures Settle(Locked(HALF_BID, ASK1_ALL), FIRST_FILL) == Funds(HALF_SOLD.base, HALF_SOLD.quote, map[])
  {
    assert FIRST_FILL.QuoteSize() == HALF;
  }

  lemma HalfSoldState()
    ensures Tick(HALF_BID, ASK_ALL).state == HALF_SOLD
  {
    hide Settle, Locked, Limit, Tick, DoAddOrder;
    MeetsOne(HALF_BID.book, ASK1_ALL, BID0_HALF);
    HalfSoldFunds();
    assert [] + [ASK1_ALL] == [ASK1_ALL];
    OneFill(HALF_BID, ASK_ALL, Limited(HALF_SOLD.book, HALF - 1, [FIRST_FILL]), FIRST_FILL,
            Funds(HALF_SOLD.base, HALF_SOLD.quote, map[]));
  }

  lemma WrappedState()
    ensures Limit(HALF_SOLD.book, BID2_MORE).fills == [SECOND_FILL]
    ensures Tick(HALF_SOLD, BID_MORE).state.status == map[1 := FillStatus(1, ALL, SELLER, 0, [FIRST_FILL, SECOND_FILL])]
  {
    MeetsLarger(HALF_SOLD.book, BID2_MORE, ASK1_ALL);
    SettleOne(Locked(HALF_SOLD, BID2_MORE), SECOND_FILL);
    assert BID2_MORE.QuoteSize() == HALF;
    assert [FIRST_FILL] + [SECOND_FILL] == [FIRST_FILL, SECOND_FILL];
  }

  /** An ask of 2^64 - 1 sells 2^63 and rests; selling 2^63 more wraps its count to 0, so it
      stays open although 2^64 are recorded as sold. */
  lemma CountWraps()
    ensures var before, s := Run(GENESIS, WRAPPING), Run(GENESIS, WRAPPING + [BID_MORE]);
      && !NoFillWrap(before, Limit(before.book, OrderOf(before, BID_MORE)).fills)
      && 1 in s.status.Keys && s.status[1].filledSize == 0 && Total(s.status[1].fills, SizeOf()) == TWO64
      && !Agree(s)
  {
    hide Run, Live, Limit, Tick;
    var three := [Deposit(SELLER, ALL, 0)] + [Deposit(BUYER, 0, HALF)] + [Deposit(OTHER, 0, HALF)];
    RichState();
    HalfBidState();
    HalfSoldState();
    WrappedState();
    RunSnoc(three, BID_HALF);
    RunSnoc(three + [BID_HALF], ASK_ALL);
    RunSnoc(WRAPPING, BID_MORE);
    assert [SECOND_FILL] == [] + [SECOND_FILL] && [FIRST_FILL, SECOND_FILL] == [] + [FIRST_FILL] + [SECOND_FILL];
    TotalSnoc([], SECOND_FILL, MadeBy(1));
    TotalSnoc([], FIRST_FILL, SizeOf());
    TotalSnoc([] + [FIRST_FILL], SECOND_FILL, SizeOf());
    var s := Run(GENESIS, WRAPPING + [BID_MORE]);
    assert !StatusOk(s.status[1], 1, Live(s.book));
  }
}
