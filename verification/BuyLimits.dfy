/** Exactly when an accepted buy leaves the ledger as it should: its fills are within their
    makers' open statuses, and what it locks pays for them. */
module BuyLimits {
  import opened Api
  import opened BookSpec
  import opened Resting
  import opened BookInvariant
  import opened TakerPrice
  import opened ClobSpec
  import opened StatusBook
  import opened Accounts
  import opened Owed
  import opened Ledger
  import opened Solvency
  import opened SolvencyLimits
  import opened PaidFills

  // ---- What a buy needs ----

  /** An order that rests has a price and a notional that fits 64 bits. */
  ghost predicate RestsFitting(s: State, o: Order) {
    Limit(s.book, o).remaining > 0 ==> o.limitPrice > 0 && o.size * o.limitPrice < TWO64
  }

  ghost function PaidIn(s: State, o: Order): int {
    Total(FillsOf(s, o), PaidBy(o.address))
  }

  /** What an accepted buy needs: fills within their makers' open statuses; if it rests, a
      price and a notional that fits; if not, fills that cost no more than it locks and its
      account's unreleased improvement. */
  ghost predicate BuyFits(s: State, o: Order, gap: Gaps) {
    && AllFit(s.status, FillsOf(s, o))
    && RestsFitting(s, o)
    && (Limit(s.book, o).remaining == 0 ==> PaidIn(s, o) <= o.QuoteSize() + GapOf(gap, o.address))
  }

  /** What a completed buy has locked beyond its fills joins the unreleased improvement. */
  ghost function GapAfterBuy(s: State, o: Order, gap: Gaps): Gaps {
    if Limit(s.book, o).remaining > 0 then gap else AddGap(gap, o.address, o.QuoteSize() - PaidIn(s, o))
  }

  // ---- What bids and asks owe through the fills of a buy ----

  // A fill with a resting ask, within its status if it has one.
  ghost predicate AskFill(f: Funds, live: Orders, fill: OrderFill) {
    && fill.makerOid in live.Keys && !live[fill.makerOid].isBuy
    && (fill.makerOid in f.status.Keys ==> FitsStatus(f.status, fill))
  }

  lemma {:induction false} AskOwed(f: Funds, live: Orders, fill: OrderFill, a: Address)
    requires AllCovered(f.status, live) && AskFill(f, live, fill)
    ensures var status := Settle(f, fill).status;
      && AllCovered(status, live) && status.Keys <= f.status.Keys
      && QuoteOwed(status, live, a) == QuoteOwed(f.status, live, a)
  {
    hide BaseOwed, QuoteOwed, Total, Covered, Mul64;
    var oid := fill.makerOid;
    if oid in f.status.Keys {
      var st := f.status[oid];
      assert Covered(st, live[oid]);
      if st.filledSize + fill.size < st.size {
        FillDue(st, live[oid], fill);
        OwedReplace(f.status, live, oid, AddFill(st, fill), a);
      } else {
        OwedClose(f.status, live, oid, a);
      }
    }
  }

  /** Buying from asks leaves what the bids owe alone. */
  lemma {:induction false} AsksOwed(f: Funds, live: Orders, o: Order, fills: seq<OrderFill>, a: Address)
    requires FillsGood(fills, live, o) && AllCovered(f.status, live)
    requires forall i :: 0 <= i < |fills| ==> AskFill(f, live, fills[i])
    ensures var status := SettleAll(f, fills).status;
      && AllCovered(status, live) && status.Keys <= f.status.Keys
      && QuoteOwed(status, live, a) == QuoteOwed(f.status, live, a)
  {
    hide QuoteOwed, AllCovered, Settle, FillGood;
    if fills != [] {
      var before, fill := fills[..|fills| - 1], fills[|fills| - 1];
      assert forall i :: 0 <= i < |before| ==> before[i] == fills[i];
      AsksOwed(f, live, o, before, a);
      MakersOnce(before, live, o, fill.makerOid);
      EntryKept(f, before, fill.makerOid);
      AskOwed(SettleAll(f, before), live, fill, a);
    }
  }

  lemma {:induction false} NoneOversold(fills: seq<OrderFill>, status: Statuses, a: Address)
    requires AllFit(status, fills)
    ensures Total(fills, Oversold(status, a)) == 0
  {
    if fills != [] {
      var before := fills[..|fills| - 1];
      assert forall i :: 0 <= i < |before| ==> before[i] == fills[i];
      NoneOversold(before, status, a);
    }
  }

  lemma {:induction false} OneBuyer(fills: seq<OrderFill>, buyer: Address, a: Address)
    requires forall i :: 0 <= i < |fills| ==> fills[i].buyer == buyer
    ensures a != buyer ==> Total(fills, PaidBy(a)) == 0
  {
    if fills != [] {
      OneBuyer(fills[..|fills| - 1], buyer, a);
    }
  }

  // Fills worth less than 2^64 in all wrap no quote.
  lemma {:induction false} PaidIsQuote(fills: seq<OrderFill>, buyer: Address)
    requires forall i :: 0 <= i < |fills| ==> fills[i].buyer == buyer
    requires Total(fills, QuoteOf()) < TWO64
    ensures Total(fills, PaidBy(buyer)) == Total(fills, QuoteOf())
  {
    hide Mul64;
    if fills != [] {
      var before, fill := fills[..|fills| - 1], fills[|fills| - 1];
      QuoteNonNegative(before);
      Product(fill.size, fill.price);
      PaidIsQuote(before, buyer);
      Mul64Exact(fill.size, fill.price);
    }
  }

  // ---- An accepted buy ----

  lemma BuyFacts(s: State, o: Order)
    requires Sound(s) && Agree(s) && o.oid == s.oid && o.isBuy && AllFit(s.status, FillsOf(s, o))
    ensures FillsGood(FillsOf(s, o), Live(s.book), o) && NoFillWrap(s, FillsOf(s, o))
    ensures forall i :: 0 <= i < |FillsOf(s, o)| ==>
      AskFill(Locked(s, o), Live(s.book), FillsOf(s, o)[i]) && FillsOf(s, o)[i].buyer == o.address
  {
    hide BookOk, Live, Limit, FillsGood, Total;
    var fills := FillsOf(s, o);
    AddFacts(s, o);
    LockKeepsStatus(s, o);
    BuyersAre(fills, Live(s.book), o);
    MakersPositive(fills, Live(s.book), o);
  }

  /** After an accepted buy within the statuses, asks owe what they owed less what was sold;
      bids owe what they owed, plus what the order has not spent if it rests. */
  lemma {:induction false} BuyOwed(s: State, request: Request, gap: Gaps, a: Address)
    requires Solvent(s, gap) && request.AddOrder? && request.isBuy && Accepts(s, OrderOf(s, request))
    requires s.oid + 1 < TWO64 && AllFit(s.status, FillsOf(s, OrderOf(s, request)))
    ensures var o, s' := OrderOf(s, request), Tick(s, request).state;
      && BaseOwed(s'.status, Live(s'.book), a) == LockedOf(s.base, a) - Total(FillsOf(s, o), SoldBy(a))
      && BaseOwed(s'.status, Live(s'.book), a) >= 0
      && QuoteOwed(s'.status, Live(s'.book), a) == LockedOf(s.quote, a) - GapOf(gap, a)
           + (if a == o.address then RestsDue(o, Limit(s.book, o)) else 0)
      && LockedOf(s.quote, a) >= GapOf(gap, a)
      && AllCovered(SettleAll(Locked(s, o), FillsOf(s, o)).status, Live(s.book))
  {
    hide BookOk, Live, Limit, SettleAll, BaseOwed, QuoteOwed, TotalOf, FillsGood, Tick, AskFill, RestsDue;
    var o := OrderOf(s, request);
    BuyFacts(s, o);
    LockKeepsStatus(s, o);
    StatusRoom(s);
    FillsOwed(Locked(s, o), Live(s.book), o, FillsOf(s, o), a);
    NoneOversold(FillsOf(s, o), s.status, a);
    AsksOwed(Locked(s, o), Live(s.book), o, FillsOf(s, o), a);
    OwedNonNegative(s.status, Live(s.book), a);
    OwedNonNegative(SettleAll(Locked(s, o), FillsOf(s, o)).status, Live(s.book), a);
    AddAgrees(s, request);
    BuyResult(s, request, a);
    assert LockedOf(s.base, a) == BaseOwed(s.status, Live(s.book), a);
    assert LockedOf(s.quote, a) == QuoteOwed(s.status, Live(s.book), a) + GapOf(gap, a);
  }

  // What a buy with a notional that fits locks pays for its fills and what it is still due.
  lemma LockPays(s: State, o: Order)
    requires Sound(s) && Agree(s) && o.oid == s.oid && o.isBuy && AllFit(s.status, FillsOf(s, o))
    requires o.size * o.limitPrice < TWO64
    ensures Total(FillsOf(s, o), QuoteOf()) == PaidIn(s, o) <= o.QuoteSize() == o.size * o.limitPrice
  {
    hide BookOk, Live, Limit, Total, Mul64, AskFill;
    BuyFacts(s, o);
    OwnLockCovers(s.book, o);
    Product(Limit(s.book, o).remaining, o.limitPrice);
    Mul64Exact(o.size, o.limitPrice);
    PaidIsQuote(FillsOf(s, o), o.address);
  }

  lemma BuyPaidFor(s: State, request: Request, gap: Gaps)
    requires Solvent(s, gap) && request.AddOrder? && request.isBuy && Accepts(s, OrderOf(s, request))
    requires s.oid + 1 < TWO64 && BuyFits(s, OrderOf(s, request), gap)
    ensures PaidFor(Locked(s, OrderOf(s, request)), FillsOf(s, OrderOf(s, request)))
  {
    hide BookOk, Live, Limit, SettleAll, BaseOwed, QuoteOwed, TotalOf, AllCovered, Agree, Locked, Tick, RestsDue;
    var o := OrderOf(s, request);
    var fills := FillsOf(s, o);
    BuyFacts(s, o);
    LockedExact(s, o);
    if Limit(s.book, o).remaining > 0 {
      LockPays(s, o);
    }
    SellersThere(s, o, gap);
    forall a
      ensures Total(fills, SoldBy(a)) <= LockedOf(Locked(s, o).base, a)
      ensures Total(fills, PaidBy(a)) <= LockedOf(Locked(s, o).quote, a)
    {
      OneBuyer(fills, o.address, a);
      BuyOwed(s, request, gap, a);
    }
  }

  // The owners of open statuses have accounts.
  lemma SellersThere(s: State, o: Order, gap: Gaps)
    requires Solvent(s, gap) && o.isBuy && AllFit(s.status, FillsOf(s, o))
    ensures forall i :: 0 <= i < |FillsOf(s, o)| ==> FillsOf(s, o)[i].seller in s.base.Keys
  {
    hide BookOk, Live, Limit, FillsGood, TotalOf, BaseOwed, QuoteOwed, AllCovered, Agree;
    LimitFills(s.book, o);
    MakersPositive(FillsOf(s, o), Live(s.book), o);
    assert forall i :: 0 <= i < |FillsOf(s, o)| ==>
      FillGood(FillsOf(s, o)[i], Live(s.book), o) && FitsStatus(s.status, FillsOf(s, o)[i]);
  }

  // What a truthful buy leaves locked.
  lemma BuyLocked(s: State, request: Request, a: Address)
    requires Sound(s) && Agree(s) && request.AddOrder? && request.isBuy && Accepts(s, OrderOf(s, request))
    requires AllFit(s.status, FillsOf(s, OrderOf(s, request))) && Truthful(s, Tick(s, request))
    ensures var o, s' := OrderOf(s, request), Tick(s, request).state;
      && LockedOf(s'.base, a) == LockedOf(s.base, a) - Total(FillsOf(s, o), SoldBy(a))
      && LockedOf(s'.quote, a)
         == LockedOf(s.quote, a) + if a == o.address then o.QuoteSize() - PaidIn(s, o) else 0
  {
    hide BookOk, Live, Limit, SettleAll, Tick, FillDiffs, AskFill, DiffsAt, Mul64;
    var o, t := OrderOf(s, request), Tick(s, request);
    AddDiffsAt(s, request, a, LockedBase);
    AddDiffsAt(s, request, a, LockedQuote);
    FillDiffsAt(FillsOf(s, o), a);
    BuyFacts(s, o);
    OneBuyer(FillsOf(s, o), o.address, a);
    assert Holds(t.state.base, t.state.quote, a, LockedBase)
        == Holds(s.base, s.quote, a, LockedBase) + DiffsAt(t.diffs, a, LockedBase);
    assert Holds(t.state.base, t.state.quote, a, LockedQuote)
        == Holds(s.base, s.quote, a, LockedQuote) + DiffsAt(t.diffs, a, LockedQuote);
  }

  // The statuses after an accepted buy are covered if it rests within 64 bits.
  lemma BuyCovered(s: State, request: Request)
    requires Sound(s) && Agree(s) && request.AddOrder? && request.isBuy && Accepts(s, OrderOf(s, request))
    requires Agree(Tick(s, request).state) && RestsFitting(s, OrderOf(s, request))
    requires AllCovered(SettleAll(Locked(s, OrderOf(s, request)), FillsOf(s, OrderOf(s, request))).status, Live(s.book))
    ensures AllCovered(Tick(s, request).state.status, Live(Tick(s, request).state.book))
  {
    hide BookOk, Live, Limit, SettleAll, Locked, Total;
    var o, s' := OrderOf(s, request), Tick(s, request).state;
    var fills := FillsOf(s, o);
    AddTerms(s, request);
    NewStatus(s, o);
    TakerPays(s.book, o);
    QuoteNonNegative(fills);
    var live := Live(s.book)[o.oid := o];
    forall oid | oid in s'.status.Keys
      ensures oid in Live(s'.book).Keys && Covered(s'.status[oid], Live(s'.book)[oid])
    {
      assert oid != o.oid ==> Covered(s'.status[oid], Live(s.book)[oid]);
      SameTermsCovered(s'.status[oid], live[oid], Live(s'.book)[oid]);
    }
  }

  /** A buy that fits leaves the ledger solvent. */
  lemma {:induction false} BuySolvent(s: State, request: Request, gap: Gaps)
    requires Solvent(s, gap) && request.AddOrder? && request.isBuy && Accepts(s, OrderOf(s, request))
    requires s.oid + 1 < TWO64 && BuyFits(s, OrderOf(s, request), gap)
    ensures Solvent(Tick(s, request).state, GapAfterBuy(s, OrderOf(s, request), gap))
    ensures AddKept(s, Tick(s, request))
  {
    hide BookOk, Live, Limit, SettleAll, BaseOwed, QuoteOwed, TotalOf, AllCovered, PaidIn;
    hide AgreeOn, Locked, AskFill, Tick, Truthful, PaidFor, FillsOf, NoFillWrap, AllFit, Mul64;
    var o := OrderOf(s, request);
    var s', gap' := Tick(s, request).state, GapAfterBuy(s, o, gap);
    SameFills(s, o);
    BuyFacts(s, o);
    AddSound(s, request);
    AddAgrees(s, request);
    BuyPaidFor(s, request, gap);
    PaidTruthful(s, request);
    BuyOwed(s, request, gap, o.address);
    BuyCovered(s, request);
    OwnersStay(s, request, gap);
    if Limit(s.book, o).remaining > 0 {
      LockPays(s, o);
    }
    forall a
      ensures LockedOf(s'.base, a) == BaseOwed(s'.status, Live(s'.book), a)
      ensures LockedOf(s'.quote, a) == QuoteOwed(s'.status, Live(s'.book), a) + GapOf(gap', a)
      ensures GapOf(gap', a) >= 0
    {
      BuyOwed(s, request, gap, a);
      BuyLocked(s, request, a);
    }
  }

  // ---- The other direction ----

  lemma {:induction false} BuyNeeds(s: State, request: Request, gap: Gaps)
    requires Solvent(s, gap) && request.AddOrder? && request.isBuy && Accepts(s, OrderOf(s, request))
    requires s.oid + 1 < TWO64 && AddKept(s, Tick(s, request))
    ensures BuyFits(s, OrderOf(s, request), gap)
  {
    hide BookOk, Live, Limit, SettleAll, LedgerOk, AgreeOn, Tick, Truthful, FillsOf, TotalOf, FitsStatus, PaidIn, Mul64;
    var o := OrderOf(s, request);
    KeptBase(s, Tick(s, request));
    KeptAllFit(s, request, gap);
    var gap': Gaps :| Solvent(Tick(s, request).state, gap');
    RestsCovered(s, request, gap');
    if Limit(s.book, o).remaining == 0 {
      LockSuffices(s, request, gap, gap');
    }
  }

  lemma KeptAllFit(s: State, request: Request, gap: Gaps)
    requires Solvent(s, gap) && request.AddOrder? && request.isBuy && Accepts(s, OrderOf(s, request))
    requires s.oid + 1 < TWO64 && BaseKept(s, Tick(s, request).state)
    ensures AllFit(s.status, FillsOf(s, OrderOf(s, request)))
  {
    hide Solvent, Limit, FitsStatus, Tick, BaseKept;
    var fills := FillsOf(s, OrderOf(s, request));
    forall k | 0 <= k < |fills|
      ensures FitsStatus(s.status, fills[k])
    {
      KeptFits(s, request, gap, k);
    }
  }

  // A completed buy that leaves the ledger solvent has paid from its lock and its account's gap.
  lemma LockSuffices(s: State, request: Request, gap: Gaps, gap': Gaps)
    requires Solvent(s, gap) && request.AddOrder? && request.isBuy && Accepts(s, OrderOf(s, request))
    requires s.oid + 1 < TWO64 && AllFit(s.status, FillsOf(s, OrderOf(s, request)))
    requires Solvent(Tick(s, request).state, gap') && Truthful(s, Tick(s, request))
    requires Limit(s.book, OrderOf(s, request)).remaining == 0
    ensures var o := OrderOf(s, request); PaidIn(s, o) <= o.QuoteSize() + GapOf(gap, o.address)
  {
    hide BookOk, Live, Limit, SettleAll, BaseOwed, QuoteOwed, TotalOf, AllCovered, AgreeOn, Tick, Truthful, FillsOf;
    hide PaidIn, Mul64, AllFit;
    var o, s' := OrderOf(s, request), Tick(s, request).state;
    BuyOwed(s, request, gap, o.address);
    BuyLocked(s, request, o.address);
    assert LockedOf(s'.quote, o.address) == QuoteOwed(s'.status, Live(s'.book), o.address) + GapOf(gap', o.address);
  }

  // With a price and a notional that fits, fills within the statuses are all it takes.
  lemma FitsSuffice(s: State, request: Request, gap: Gaps)
    requires Solvent(s, gap) && request.AddOrder? && request.isBuy
    requires request.limitPrice > 0 && request.size * request.limitPrice < TWO64
    requires AllFit(s.status, FillsOf(s, OrderOf(s, request)))
    ensures BuyFits(s, OrderOf(s, request), gap)
  {
    hide BookOk, Live, Limit, SettleAll, BaseOwed, QuoteOwed, TotalOf, AllCovered, AgreeOn, FillsOf, PaidIn, AllFit;
    LockPays(s, OrderOf(s, request));
  }

  /** An accepted buy leaves the ledger as it should if and only if it fits. With a price and
      a notional that fits 64 bits, that is: every fill is within its maker's open status,
      and the base side alone tells. */
  lemma {:induction false} BuyIff(s: State, request: Request, gap: Gaps)
    requires Solvent(s, gap) && request.AddOrder? && request.isBuy && Accepts(s, OrderOf(s, request))
    requires s.oid + 1 < TWO64
    ensures AddKept(s, Tick(s, request)) <==> BuyFits(s, OrderOf(s, request), gap)
    ensures AddKept(s, Tick(s, request)) ==>
      Solvent(Tick(s, request).state, GapAfterBuy(s, OrderOf(s, request), gap))
    ensures request.limitPrice > 0 && request.size * request.limitPrice < TWO64 ==>
      var fits := AllFit(s.status, FillsOf(s, OrderOf(s, request)));
      && (BuyFits(s, OrderOf(s, request), gap) <==> fits)
      && (BaseKept(s, Tick(s, request).state) <==> fits)
  {
    hide Solvent, AddKept, Tick, FillsOf, Live, BaseKept, AllFit, RestsFitting, PaidIn, Limit;
    var o := OrderOf(s, request);
    if AddKept(s, Tick(s, request)) {
      BuyNeeds(s, request, gap);
      KeptBase(s, Tick(s, request));
    }
    if BuyFits(s, o, gap) {
      BuySolvent(s, request, gap);
    }
    if request.limitPrice > 0 && request.size * request.limitPrice < TWO64 {
      if AllFit(s.status, FillsOf(s, o)) {
        FitsSuffice(s, request, gap);
        BuySolvent(s, request, gap);
        KeptBase(s, Tick(s, request));
      }
      if BaseKept(s, Tick(s, request).state) {
        KeptAllFit(s, request, gap);
      }
    }
  }
}
