/** A concrete run in which a partly filled taker rests at its original size and its
    seller is then charged more base than it ever locked. */
module PartialTaker {
  import opened Api
  import opened BookSpec
  import opened Sums
  import opened BookInvariant
  import opened ClobSpec
  import opened StatusBook
  import opened Accounts
  import opened Owed
  import opened Ledger
  import opened Runs

  // ---- Matching against at most one maker ----

  // A taker that finds the other side empty rests whole.
  lemma RestsWhole(book: Book, o: Order)
    requires Side(book, !o.isBuy) == map[] && o.size > 0
    ensures Limit(book, o) == Limited(Enqueue(book, o), o.size, [])
  {
  }

  lemma UsedUp(maker: Order, o: Order, oidToLevel: map<U64, U64>)
    requires 0 < o.size && maker.size <= o.size
    ensures Left([maker], o.size) == o.size - maker.size && Rest([maker], o.size) == []
    ensures Drop([maker], o.size, oidToLevel) == oidToLevel - {maker.oid}
    ensures Fills([maker], o, o.size) == [FillOf(maker, o, maker.size)]
  {
    assert [maker][1..] == [];
  }

  // A taker that meets a single maker, and uses it up.
  lemma MeetsOne(book: Book, o: Order, maker: Order)
    requires Side(book, !o.isBuy) == map[maker.limitPrice := [maker]]
    requires Crosses(o, maker.limitPrice) && 0 < o.size && maker.size <= o.size
    ensures var index := book.oidToLevel - {maker.oid};
      var matched := if o.isBuy then Book(book.bids, map[], index) else Book(map[], book.asks, index);
      var left := o.size - maker.size;
      Limit(book, o) == Limited(if left > 0 then Enqueue(matched, o) else matched, left, [FillOf(maker, o, maker.size)])
  {
    hide Left, Rest, Drop, Fills;
    var levels, p := Side(book, !o.isBuy), maker.limitPrice;
    var left := o.size - maker.size;
    assert levels.Keys == {p};
    assert IsBest(!o.isBuy, levels.Keys, p);
    PriceTime.BestIs(!o.isBuy, levels, p);
    var index := book.oidToLevel - {maker.oid};
    UsedUp(maker, o, book.oidToLevel);
    assert levels - {p} == map[];
    assert Sweep(map[], index, o, left) == Swept(map[], index, left, []);
    assert Sweep(levels, book.oidToLevel, o, o.size) == Swept(map[], index, left, [FillOf(maker, o, maker.size)]);
  }

  // ---- The run ----

  const SELLER: Address := 1
  const BUYER: Address := 2

  const START: seq<Request> := [Deposit(SELLER, 10, 0), Deposit(BUYER, 0, 100), AddOrder(BUYER, true, 1, 4)]

  // The seller's ask of 10 meets 4 and rests at 10; then a buy of 10 takes all of it.
  const ASK := AddOrder(SELLER, false, 1, 10)
  const BID := AddOrder(BUYER, true, 1, 10)

  const OVERSOLD: seq<Request> := START + [ASK, BID]

  const BID0 := Order(true, 1, 4, 0, BUYER)
  const ASK1 := Order(false, 1, 10, 1, SELLER)
  const BID2 := Order(true, 1, 10, 2, BUYER)

  // The states after two, three, four and five requests.
  const FUNDED := State(0, map[SELLER := AssetBalance(10, 0), BUYER := AssetBalance(0, 0)],
                        map[SELLER := AssetBalance(0, 0), BUYER := AssetBalance(100, 0)], EMPTY_BOOK, map[])

  const RESTING := State(1, FUNDED.base, map[SELLER := AssetBalance(0, 0), BUYER := AssetBalance(96, 4)],
                         Book(map[1 := [BID0]], map[], map[0 := 1]),
                         map[0 := FillStatus(0, 4, BUYER, 0, [])])

  const PARTLY := State(2, map[SELLER := AssetBalance(0, 6), BUYER := AssetBalance(4, 0)],
                        map[SELLER := AssetBalance(4, 0), BUYER := AssetBalance(96, 0)],
                        Book(map[], map[1 := [ASK1]], map[1 := 1]),
                        map[1 := FillStatus(1, 10, SELLER, 4, [OrderFill(0, 1, 4, 1, BUYER, SELLER)])])

  const BROKEN := State(3, map[SELLER := AssetBalance(0, 0xFFFF_FFFF_FFFF_FFFC), BUYER := AssetBalance(14, 0)],
                        map[SELLER := AssetBalance(14, 0), BUYER := AssetBalance(86, 0)],
                        Book(map[], map[], map[]), map[])

  lemma FundedState()
    ensures Run(GENESIS, START[..2]) == FUNDED
  {
    assert START[..2][..1] == START[..1] && START[..1][..0] == [];
    assert Run(GENESIS, []) == GENESIS;
    assert Run(GENESIS, START[..1]) == Tick(GENESIS, START[0]).state;
  }

  lemma RestingState()
    ensures Tick(FUNDED, START[2]).state == RESTING
  {
    RestsWhole(FUNDED.book, BID0);
    assert [] + [BID0] == [BID0];
    assert Enqueue(EMPTY_BOOK, BID0) == RESTING.book;
    assert SettleAll(Locked(FUNDED, BID0), []) == Locked(FUNDED, BID0);
    assert Locked(FUNDED, BID0).quote == RESTING.quote;
  }

  // One fill settled.
  lemma SettleOne(f: Funds, fill: OrderFill)
    ensures SettleAll(f, [fill]) == Settle(f, fill)
  {
    assert [fill][..0] == [];
    assert SettleAll(f, []) == f;
  }

  // An accepted order with one fill: what it leaves behind, given its matching and settling.
  lemma OneFill(s: State, request: Request, l: Limited, fill: OrderFill, f: Funds)
    requires request.AddOrder? && Accepts(s, OrderOf(s, request))
    requires Limit(s.book, OrderOf(s, request)) == l && l.fills == [fill]
    requires Settle(Locked(s, OrderOf(s, request)), fill) == f
    ensures var mine := FillStatus(s.oid, request.size, request.address, request.size - l.remaining, [fill]);
      var status := if l.remaining != 0 then f.status[s.oid := mine] else f.status;
      Tick(s, request).state == State(Add64(s.oid, 1), f.base, f.quote, l.book, status)
  {
    hide Settle, Locked, Limit;
    SettleOne(Locked(s, OrderOf(s, request)), fill);
  }

  const FILL_FOUR := OrderFill(0, 1, 4, 1, BUYER, SELLER)
  const FILL_TEN := OrderFill(1, 2, 10, 1, BUYER, SELLER)

  lemma PartlyFunds()
    ensures Settle(Locked(RESTING, ASK1), FILL_FOUR) == Funds(PARTLY.base, PARTLY.quote, map[])
  {
  }

  lemma PartlyState()
    ensures Tick(RESTING, ASK).state == PARTLY
  {
    hide Settle, Locked, Limit;
    MeetsOne(RESTING.book, ASK1, BID0);
    PartlyFunds();
    assert [] + [ASK1] == [ASK1];
    OneFill(RESTING, ASK, Limited(PARTLY.book, 6, [FILL_FOUR]), FILL_FOUR, Funds(PARTLY.base, PARTLY.quote, map[]));
  }

  lemma BrokenFunds()
    ensures Settle(Locked(PARTLY, BID2), FILL_TEN) == Funds(BROKEN.base, BROKEN.quote, map[])
  {
  }

  lemma BrokenState()
    ensures Tick(PARTLY, BID).state == BROKEN
  {
    hide Settle, Locked, Limit;
    MeetsOne(PARTLY.book, BID2, ASK1);
    BrokenFunds();
    OneFill(PARTLY, BID, Limited(BROKEN.book, 0, [FILL_TEN]), FILL_TEN, Funds(BROKEN.base, BROKEN.quote, map[]));
  }

  lemma RunPartly()
    ensures Run(GENESIS, START + [ASK]) == PARTLY
  {
    var r := START + [ASK];
    FundedState();
    RestingState();
    PartlyState();
    assert r[..3] == START && r[3] == ASK;
    assert Run(GENESIS, START) == Tick(FUNDED, START[2]).state;
  }

  lemma NotWithin()
    ensures !AllFit(PARTLY.status, Limit(PARTLY.book, BID2).fills)
  {
    MeetsOne(PARTLY.book, BID2, ASK1);
    var fills := Limit(PARTLY.book, BID2).fills;
    assert fills == [FILL_TEN];
    assert !FitsStatus(PARTLY.status, fills[0]);
  }

  lemma BrokenTotals()
    ensures TotalOf(BROKEN.base) == TWO64 + 10
  {
    SumPick({SELLER, BUYER}, Worth(BROKEN.base), SELLER);
    assert {SELLER, BUYER} - {SELLER} == {BUYER};
    SumPick({BUYER}, Worth(BROKEN.base), BUYER);
    assert BROKEN.base.Keys == {SELLER, BUYER};
  }

  lemma DepositsOfRun()
    ensures DepositsOf(OVERSOLD, false) == 10
  {
    var r := OVERSOLD;
    assert r[..4][..3] == START && START[..2] == [START[0], START[1]];
    assert START[..2][..1] == [START[0]] && START[..1][..0] == [];
    assert DepositsOf(START[..1], false) == 10;
    assert DepositsOf(START[..2], false) == 10;
    assert DepositsOf(START, false) == 10;
    assert DepositsOf(r[..4], false) == 10;
  }

  /** The run deposits 10 base, all of it the seller's. It ends with 2^64 - 4 base locked
      for the seller, who has no open order, and 14 base free for the buyer; the last
      request is the one outside the statuses. */
  lemma PartialTakerBreaksLedger()
    ensures var s := Run(GENESIS, OVERSOLD);
      && DepositsOf(OVERSOLD, false) == 10 && TotalOf(s.base) == TWO64 + 10
      && LockedOf(s.base, SELLER) == TWO64 - 4 && BaseOwed(s.status, Live(s.book), SELLER) == 0
      && Free(s.base, BUYER) == 14
      && !WithinStep(Run(GENESIS, START + [ASK]), BID)
  {
    hide Run, TotalOf, DepositsOf, BaseOwed, Limit;
    RunPartly();
    BrokenState();
    RunLast();
    NotWithin();
    BrokenTotals();
    DepositsOfRun();
    OwedNothing(BROKEN.status, Live(BROKEN.book), SELLER);
  }

  lemma RunLast()
    ensures Run(GENESIS, OVERSOLD) == Tick(Run(GENESIS, START + [ASK]), BID).state
  {
    assert OVERSOLD == START + [ASK] + [BID];
  }
}
