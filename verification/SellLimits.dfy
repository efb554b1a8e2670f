/** Exactly when an accepted sell leaves the ledger as it should: a fill beyond what its
    maker still has locked is paid out of the buyer's unreleased price improvement, and has
    to be covered by that. */
module SellLimits {
  import opened Api
  import opened BookSpec
  import opened Resting
  import opened BookInvariant
  import opened ClobSpec
  import opened StatusBook
  import opened Accounts
  import opened Owed
  import opened Ledger
  import opened Solvency
  import opened SolvencyLimits
  import opened PaidFills

  // ---- What bids owe through the fills of a sell ----

  /** What a fill takes from its buyer beyond what its status releases: nothing while the
      status stays open; what the status is not due if this closes it; all of it if the
      status is closed already. Negative where a completed bid leaves price improvement. */
  ghost function Overcharge(status: Statuses, live: Orders, fill: OrderFill): int {
    if fill.makerOid !in status.Keys || fill.makerOid !in live.Keys then fill.QuoteSize()
    else
      var st := status[fill.makerOid];
      if st.filledSize + fill.size < st.size then 0
      else fill.QuoteSize() - QuoteDue(st, live[fill.makerOid])
  }

  ghost function OverchargedTo(status: Statuses, live: Orders, a: Address): OrderFill -> int {
    (f: OrderFill) => if f.buyer == a then Overcharge(status, live, f) else 0
  }

  // A fill with a resting bid, at its price, that wraps no count.
  ghost predicate BidFill(f: Funds, live: Orders, fill: OrderFill) {
    && fill.makerOid in live.Keys && fill.size > 0
    && var o := live[fill.makerOid];
      && o.isBuy && o.address == fill.buyer && o.limitPrice == fill.price
      && (fill.makerOid in f.status.Keys ==> f.status[fill.makerOid].filledSize + fill.size < TWO64)
  }

  // While the status stays open, its quote is exact and comes off what it is due.
  lemma OpenBid(st: FillStatus, o: Order, fill: OrderFill)
    requires Covered(st, o) && o.isBuy && o.limitPrice == fill.price && st.filledSize + fill.size < st.size
    ensures fill.QuoteSize() == fill.size * fill.price
    ensures Covered(AddFill(st, fill), o) && QuoteDue(AddFill(st, fill), o) == QuoteDue(st, o) - fill.QuoteSize()
  {
    hide Total;
    FillDue(st, o, fill);
    WithinNotional(fill.size, st.size, o.limitPrice);
    Mul64Exact(fill.size, fill.price);
  }

  /** One fill: what the bids owe falls by what the buyer pays less the overcharge. */
  lemma {:induction false} BidOwed(f: Funds, live: Orders, fill: OrderFill, a: Address)
    requires AllCovered(f.status, live) && BidFill(f, live, fill)
    ensures var status := Settle(f, fill).status;
      && AllCovered(status, live) && status.Keys <= f.status.Keys
      && BaseOwed(status, live, a) == BaseOwed(f.status, live, a)
      && QuoteOwed(status, live, a) == QuoteOwed(f.status, live, a)
           - PaidBy(a)(fill) + OverchargedTo(f.status, live, a)(fill)
  {
    hide BaseOwed, QuoteOwed, Total, Covered, QuoteDue, Mul64;
    var oid := fill.makerOid;
    if oid in f.status.Keys {
      var st := f.status[oid];
      if st.filledSize + fill.size < st.size {
        OpenBid(st, live[oid], fill);
        OwedReplace(f.status, live, oid, AddFill(st, fill), a);
      } else {
        OwedClose(f.status, live, oid, a);
      }
    }
  }

  /** The whole loop, with overcharges read off the statuses before it. */
  lemma {:induction false} BidsOwed(f: Funds, live: Orders, o: Order, fills: seq<OrderFill>, a: Address)
    requires FillsGood(fills, live, o) && !o.isBuy && AllCovered(f.status, live)
    requires forall i :: 0 <= i < |fills| ==> BidFill(f, live, fills[i])
    ensures var status := SettleAll(f, fills).status;
      && AllCovered(status, live) && status.Keys <= f.status.Keys
      && BaseOwed(status, live, a) == BaseOwed(f.status, live, a)
      && QuoteOwed(status, live, a) == QuoteOwed(f.status, live, a)
           - Total(fills, PaidBy(a)) + Total(fills, OverchargedTo(f.status, live, a))
  {
    hide BaseOwed, QuoteOwed, AllCovered, Settle, FillGood, QuoteDue, Mul64;
    if fills != [] {
      var before, fill := fills[..|fills| - 1], fills[|fills| - 1];
      assert forall i :: 0 <= i < |before| ==> before[i] == fills[i];
      BidsOwed(f, live, o, before, a);
      MakersOnce(before, live, o, fill.makerOid);
      EntryKept(f, before, fill.makerOid);
      BidOwed(SettleAll(f, before), live, fill, a);
    }
  }

  // ---- An accepted sell ----

  /** What an accepted sell needs: a price if it rests, counts that do not wrap, buyers that
      still exist, and for every buyer no more overcharges than its unreleased improvement. */
  ghost predicate SellFits(s: State, o: Order, gap: Gaps) {
    && (Limit(s.book, o).remaining > 0 ==> o.limitPrice > 0)
    && NoFillWrap(s, FillsOf(s, o))
    && (forall i :: 0 <= i < |FillsOf(s, o)| ==> FillsOf(s, o)[i].buyer in s.base.Keys)
    && forall a :: Total(FillsOf(s, o), OverchargedTo(s.status, Live(s.book), a)) <= GapOf(gap, a)
  }

  // The fills of a sell, as the lemmas above need them.
  lemma SellFacts(s: State, o: Order)
    requires Sound(s) && !o.isBuy && NoFillWrap(s, FillsOf(s, o))
    ensures FillsGood(FillsOf(s, o), Live(s.book), o)
    ensures forall i :: 0 <= i < |FillsOf(s, o)| ==>
      BidFill(Locked(s, o), Live(s.book), FillsOf(s, o)[i]) && FillsOf(s, o)[i].seller == o.address
  {
    hide BookOk, Live, Limit, FillsGood, Total;
    var fills, live := FillsOf(s, o), Live(s.book);
    LimitFills(s.book, o);
    MakersPositive(fills, live, o);
    LockKeepsStatus(s, o);
    forall i | 0 <= i < |fills|
      ensures BidFill(Locked(s, o), live, fills[i])
    {
      AmongMade(fills, i);
    }
  }

  lemma {:induction false} OneSeller(fills: seq<OrderFill>, seller: Address, a: Address)
    requires forall i :: 0 <= i < |fills| ==> fills[i].seller == seller
    ensures Total(fills, SoldBy(a)) == if a == seller then Total(fills, SizeOf()) else 0
  {
    if fills != [] {
      OneSeller(fills[..|fills| - 1], seller, a);
    }
  }

  // Opening the taker's status adds what is left of it to the base owed.
  lemma SellOpens(status: Statuses, live: Orders, o: Order, mine: FillStatus, a: Address)
    requires !o.isBuy && o.oid !in status.Keys && forall oid :: oid in status.Keys ==> oid in live.Keys
    ensures BaseOwed(status, live[o.oid := o], a) == BaseOwed(status, live, a)
    ensures QuoteOwed(status, live[o.oid := o], a) == QuoteOwed(status, live, a)
    ensures BaseOwed(status[o.oid := mine], live[o.oid := o], a)
         == BaseOwed(status, live, a) + if a == o.address then mine.size - mine.filledSize else 0
    ensures QuoteOwed(status[o.oid := mine], live[o.oid := o], a) == QuoteOwed(status, live, a)
  {
    hide BaseOwed, QuoteOwed;
    OwedSameTerms(status, live, live[o.oid := o], a);
    OwedOpen(status, live[o.oid := o], o.oid, mine, a);
  }

  // The state after an accepted sell, as the fill loop leaves it.
  lemma SellResult(s: State, request: Request, a: Address)
    requires Sound(s) && Agree(s) && request.AddOrder? && !request.isBuy && Accepts(s, OrderOf(s, request))
    requires Agree(Tick(s, request).state)
    ensures var o, s' := OrderOf(s, request), Tick(s, request).state;
      var f := SettleAll(Locked(s, o), FillsOf(s, o));
      && s'.base == f.base && s'.quote == f.quote
      && BaseOwed(s'.status, Live(s'.book), a)
         == BaseOwed(f.status, Live(s.book), a) + (if a == o.address then Limit(s.book, o).remaining else 0)
      && QuoteOwed(s'.status, Live(s'.book), a) == QuoteOwed(f.status, Live(s.book), a)
  {
    hide BookOk, Live, Limit, SettleAll, BaseOwed, QuoteOwed, Locked;
    var o, s' := OrderOf(s, request), Tick(s, request).state;
    var l := Limit(s.book, o);
    var f := SettleAll(Locked(s, o), l.fills);
    AddTerms(s, request);
    OwedSameTerms(s'.status, Live(s.book)[o.oid := o], Live(s'.book), a);
    NewStatus(s, o);
    SettledLive(s, o, l.fills);
    SellOpens(f.status, Live(s.book), o, FillStatus(o.oid, o.size, o.address, o.size - l.remaining, l.fills), a);
  }

  /** After an accepted sell that wraps no count, bids owe what they owed less what was paid,
      plus the overcharges; asks owe what they owed plus what is left of the order. */
  lemma {:induction false} SellOwed(s: State, request: Request, gap: Gaps, a: Address)
    requires Solvent(s, gap) && request.AddOrder? && !request.isBuy && Accepts(s, OrderOf(s, request))
    requires s.oid + 1 < TWO64 && NoFillWrap(s, FillsOf(s, OrderOf(s, request)))
    ensures var o, s' := OrderOf(s, request), Tick(s, request).state;
      var fills := FillsOf(s, o);
      && BaseOwed(s'.status, Live(s'.book), a)
         == LockedOf(s.base, a) + (if a == o.address then Limit(s.book, o).remaining else 0)
      && QuoteOwed(s'.status, Live(s'.book), a) == LockedOf(s.quote, a) - GapOf(gap, a)
           - Total(fills, PaidBy(a)) + Total(fills, OverchargedTo(s.status, Live(s.book), a))
      && QuoteOwed(s'.status, Live(s'.book), a) >= 0
      && AllCovered(SettleAll(Locked(s, o), fills).status, Live(s.book))
  {
    hide BookOk, Live, Limit, SettleAll, BaseOwed, QuoteOwed, TotalOf, FillsGood, Tick, BidFill;
    var o := OrderOf(s, request);
    SellFacts(s, o);
    LockKeepsStatus(s, o);
    BidsOwed(Locked(s, o), Live(s.book), o, FillsOf(s, o), a);
    OwedNonNegative(SettleAll(Locked(s, o), FillsOf(s, o)).status, Live(s.book), a);
    AddAgrees(s, request);
    SellResult(s, request, a);
    assert LockedOf(s.base, a) == BaseOwed(s.status, Live(s.book), a);
    assert LockedOf(s.quote, a) == QuoteOwed(s.status, Live(s.book), a) + GapOf(gap, a);
  }

  // The statuses after an accepted sell are covered if it rests at a real price.
  lemma SellCovered(s: State, request: Request)
    requires Sound(s) && Agree(s) && request.AddOrder? && !request.isBuy && Accepts(s, OrderOf(s, request))
    requires Agree(Tick(s, request).state)
    requires AllCovered(SettleAll(Locked(s, OrderOf(s, request)), FillsOf(s, OrderOf(s, request))).status, Live(s.book))
    requires Limit(s.book, OrderOf(s, request)).remaining > 0 ==> request.limitPrice > 0
    ensures AllCovered(Tick(s, request).state.status, Live(Tick(s, request).state.book))
  {
    hide BookOk, Live, Limit, SettleAll, Locked, Total;
    var o, s' := OrderOf(s, request), Tick(s, request).state;
    var fills := FillsOf(s, o);
    AddTerms(s, request);
    NewStatus(s, o);
    QuoteNonNegative(fills);
    var live := Live(s.book)[o.oid := o];
    forall oid | oid in s'.status.Keys
      ensures oid in Live(s'.book).Keys && Covered(s'.status[oid], Live(s'.book)[oid])
    {
      assert oid != o.oid ==> Covered(s'.status[oid], Live(s.book)[oid]);
      SameTermsCovered(s'.status[oid], live[oid], Live(s'.book)[oid]);
    }
  }

  // Everybody's share of the fills is locked.
  lemma SellPaidFor(s: State, request: Request, gap: Gaps)
    requires Solvent(s, gap) && request.AddOrder? && !request.isBuy && Accepts(s, OrderOf(s, request))
    requires s.oid + 1 < TWO64 && SellFits(s, OrderOf(s, request), gap)
    ensures PaidFor(Locked(s, OrderOf(s, request)), FillsOf(s, OrderOf(s, request)))
  {
    hide BookOk, Live, Limit, SettleAll, BaseOwed, QuoteOwed, TotalOf, AllCovered, Agree, Locked, BidFill, Tick;
    var o := OrderOf(s, request);
    var fills := FillsOf(s, o);
    SellFacts(s, o);
    NewStatus(s, o);
    LockedExact(s, o);
    forall a
      ensures Total(fills, SoldBy(a)) <= LockedOf(Locked(s, o).base, a)
      ensures Total(fills, PaidBy(a)) <= LockedOf(Locked(s, o).quote, a)
    {
      OneSeller(fills, o.address, a);
      SellOwed(s, request, gap, a);
    }
  }

  // ---- The gap ----

  /** What remains of the unreleased improvement once the overcharges are paid from it. */
  ghost function GapAfterSell(status: Statuses, live: Orders, fills: seq<OrderFill>, gap: Gaps): Gaps {
    if fills == [] then gap
    else
      var fill := fills[|fills| - 1];
      AddGap(GapAfterSell(status, live, fills[..|fills| - 1], gap), fill.buyer, -Overcharge(status, live, fill))
  }

  lemma {:induction false} GapLeft(status: Statuses, live: Orders, fills: seq<OrderFill>, gap: Gaps, a: Address)
    ensures GapOf(GapAfterSell(status, live, fills, gap), a)
         == GapOf(gap, a) - Total(fills, OverchargedTo(status, live, a))
  {
    hide Overcharge;
    if fills != [] {
      GapLeft(status, live, fills[..|fills| - 1], gap, a);
    }
  }

  /** A sell that fits leaves the ledger solvent, with its overcharges taken off the gap. */
  lemma {:induction false} SellSolvent(s: State, request: Request, gap: Gaps)
    requires Solvent(s, gap) && request.AddOrder? && !request.isBuy && Accepts(s, OrderOf(s, request))
    requires s.oid + 1 < TWO64 && SellFits(s, OrderOf(s, request), gap)
    ensures var o := OrderOf(s, request);
      && Solvent(Tick(s, request).state, GapAfterSell(s.status, Live(s.book), FillsOf(s, o), gap))
      && AddKept(s, Tick(s, request))
  {
    hide BookOk, Live, Limit, SettleAll, BaseOwed, QuoteOwed, TotalOf, AllCovered;
    hide AgreeOn, Locked, BidFill, Tick, Truthful, PaidFor;
    var o := OrderOf(s, request);
    var fills, s' := FillsOf(s, o), Tick(s, request).state;
    var gap' := GapAfterSell(s.status, Live(s.book), fills, gap);
    AddSound(s, request);
    AddAgrees(s, request);
    SellPaidFor(s, request, gap);
    PaidTruthful(s, request);
    SellOwed(s, request, gap, o.address);
    SellCovered(s, request);
    OwnersStay(s, request, gap);
    forall a
      ensures LockedOf(s'.base, a) == BaseOwed(s'.status, Live(s'.book), a)
      ensures LockedOf(s'.quote, a) == QuoteOwed(s'.status, Live(s'.book), a) + GapOf(gap', a)
      ensures GapOf(gap', a) >= 0
    {
      SellOwed(s, request, gap, a);
      GapLeft(s.status, Live(s.book), fills, gap, a);
      SellLocked(s, request, a);
    }
  }

  // What a truthful sell leaves locked.
  lemma SellLocked(s: State, request: Request, a: Address)
    requires Sound(s) && request.AddOrder? && !request.isBuy && Accepts(s, OrderOf(s, request))
    requires NoFillWrap(s, FillsOf(s, OrderOf(s, request))) && Truthful(s, Tick(s, request))
    ensures var o, s' := OrderOf(s, request), Tick(s, request).state;
      && LockedOf(s'.base, a) == LockedOf(s.base, a) + (if a == o.address then Limit(s.book, o).remaining else 0)
      && LockedOf(s'.quote, a) == LockedOf(s.quote, a) - Total(FillsOf(s, o), PaidBy(a))
  {
    hide BookOk, Live, Limit, SettleAll, Tick, FillDiffs, BidFill, DiffsAt;
    var o, t := OrderOf(s, request), Tick(s, request);
    AddDiffsAt(s, request, a, LockedBase);
    AddDiffsAt(s, request, a, LockedQuote);
    FillDiffsAt(FillsOf(s, o), a);
    SellFacts(s, o);
    OneSeller(FillsOf(s, o), o.address, a);
    NewStatus(s, o);
    assert Holds(t.state.base, t.state.quote, a, LockedBase)
        == Holds(s.base, s.quote, a, LockedBase) + DiffsAt(t.diffs, a, LockedBase);
    assert Holds(t.state.base, t.state.quote, a, LockedQuote)
        == Holds(s.base, s.quote, a, LockedQuote) + DiffsAt(t.diffs, a, LockedQuote);
  }

  // ---- Modulo 2^64 ----

  // Base bought, and quote paid, by accounts that do not exist.

  ghost function BoughtByNone(keys: set<Address>): OrderFill -> int {
    (f: OrderFill) => if f.buyer in keys then 0 else f.size
  }

  ghost function PaidByNone(keys: set<Address>): OrderFill -> int {
    (f: OrderFill) => if f.buyer in keys then 0 else f.QuoteSize()
  }

  lemma SettleSold(f: Funds, fill: OrderFill, a: Address)
    requires fill.seller in f.base.Keys && f.quote.Keys == f.base.Keys
    ensures var g := Settle(f, fill);
      && g.base.Keys == f.base.Keys && g.quote.Keys == f.quote.Keys
      && (a in g.quote.Keys ==> (LockedOf(g.quote, a) - LockedOf(f.quote, a) + PaidBy(a)(fill)) % TWO64 == 0)
      && (TotalOf(g.base) - TotalOf(f.base) + BoughtByNone(f.base.Keys)(fill)) % TWO64 == 0
      && (TotalOf(g.quote) - TotalOf(f.quote) - PaidByNone(f.base.Keys)(fill)) % TWO64 == 0
  {
    hide TotalOf, Settle, Moves, LockedOf, Mul64;
    SettleMoves(f, fill);
    MovesLocked(f.base, fill.seller, fill.buyer, fill.size, a);
    MovesLocked(f.quote, fill.buyer, fill.seller, fill.QuoteSize(), a);
    MovesTotal(f.base, fill.seller, fill.buyer, fill.size);
    MovesTotal(f.quote, fill.buyer, fill.seller, fill.QuoteSize());
  }

  lemma {:induction false} FillsSold(f: Funds, fills: seq<OrderFill>, seller: Address, a: Address)
    requires seller in f.base.Keys && f.quote.Keys == f.base.Keys
    requires forall i :: 0 <= i < |fills| ==> fills[i].seller == seller
    ensures var g := SettleAll(f, fills);
      && g.base.Keys == f.base.Keys && g.quote.Keys == f.quote.Keys
      && (a in g.quote.Keys ==> (LockedOf(g.quote, a) - LockedOf(f.quote, a) + Total(fills, PaidBy(a))) % TWO64 == 0)
      && (TotalOf(g.base) - TotalOf(f.base) + Total(fills, BoughtByNone(f.base.Keys))) % TWO64 == 0
      && (TotalOf(g.quote) - TotalOf(f.quote) - Total(fills, PaidByNone(f.base.Keys))) % TWO64 == 0
  {
    hide TotalOf, Settle, LockedOf, Mul64;
    if fills != [] {
      var n := |fills| - 1;
      FillsSold(f, fills[..n], seller, a);
      SettleSold(SettleAll(f, fills[..n]), fills[n], a);
    }
  }

  /** Modulo 2^64, an accepted sell that wraps no count leaves every buyer with what its open
      bids owe plus its gap less what it was overcharged; base bought by accounts that no
      longer exist is gone, and the quote they pay comes from nowhere. */
  lemma {:induction false} SellMod(s: State, request: Request, gap: Gaps, a: Address)
    requires Solvent(s, gap) && request.AddOrder? && !request.isBuy && Accepts(s, OrderOf(s, request))
    requires s.oid + 1 < TWO64 && NoFillWrap(s, FillsOf(s, OrderOf(s, request)))
    ensures var o, s' := OrderOf(s, request), Tick(s, request).state;
      var fills := FillsOf(s, o);
      && (a in s.base.Keys ==>
            (LockedOf(s'.quote, a) - QuoteOwed(s'.status, Live(s'.book), a) - GapOf(gap, a)
              + Total(fills, OverchargedTo(s.status, Live(s.book), a))) % TWO64 == 0)
      && (TotalOf(s'.base) - TotalOf(s.base) + Total(fills, BoughtByNone(s.base.Keys))) % TWO64 == 0
      && (TotalOf(s'.quote) - TotalOf(s.quote) - Total(fills, PaidByNone(s.base.Keys))) % TWO64 == 0
  {
    hide BookOk, Live, Limit, SettleAll, BaseOwed, QuoteOwed, TotalOf, AllCovered, AgreeOn, Tick, FillsOf, Locked;
    var o := OrderOf(s, request);
    SellFacts(s, o);
    LockedExact(s, o);
    FillsSold(Locked(s, o), FillsOf(s, o), o.address, a);
    AddShape(s, request);
    SellOwed(s, request, gap, a);
  }

  // ---- The other direction ----

  lemma {:induction false} AmongBought(fills: seq<OrderFill>, i: nat)
    requires i < |fills|
    ensures Total(fills, BoughtBy(fills[i].buyer)) >= fills[i].size
  {
    PrefixAtMost(fills, BoughtBy(fills[i].buyer));
    var n := |fills| - 1;
    if i < n {
      AmongBought(fills[..n], i);
    }
  }

  // A buyer without an account gets nothing, whatever the diffs say.
  lemma BuyerThere(s: State, request: Request, i: nat)
    requires Sound(s) && request.AddOrder? && !request.isBuy && Accepts(s, OrderOf(s, request))
    requires NoFillWrap(s, FillsOf(s, OrderOf(s, request))) && Truthful(s, Tick(s, request))
    requires i < |FillsOf(s, OrderOf(s, request))|
    ensures FillsOf(s, OrderOf(s, request))[i].buyer in s.base.Keys
  {
    hide BookOk, Live, Limit, SettleAll, Tick, FillDiffs, DiffsAt, FillsOf;
    var o, t := OrderOf(s, request), Tick(s, request);
    var fills := FillsOf(s, o);
    var a := fills[i].buyer;
    SellFacts(s, o);
    AmongBought(fills, i);
    AddDiffsAt(s, request, a, FreeBase);
    FillDiffsAt(fills, a);
    AddShape(s, request);
    SettledKeys(Locked(s, o), fills);
    assert Holds(t.state.base, t.state.quote, a, FreeBase)
        == Holds(s.base, s.quote, a, FreeBase) + DiffsAt(t.diffs, a, FreeBase);
  }

  // A solvent ledger has the overcharges covered by the gap there was.
  lemma OverchargeCovered(s: State, request: Request, gap: Gaps, gap': Gaps, a: Address)
    requires Solvent(s, gap) && request.AddOrder? && !request.isBuy && Accepts(s, OrderOf(s, request))
    requires s.oid + 1 < TWO64 && NoFillWrap(s, FillsOf(s, OrderOf(s, request)))
    requires Solvent(Tick(s, request).state, gap') && Truthful(s, Tick(s, request))
    ensures Total(FillsOf(s, OrderOf(s, request)), OverchargedTo(s.status, Live(s.book), a)) <= GapOf(gap, a)
  {
    hide BookOk, Live, Limit, SettleAll, BaseOwed, QuoteOwed, TotalOf, AllCovered, AgreeOn, Tick, Truthful, FillsOf;
    var s' := Tick(s, request).state;
    SellOwed(s, request, gap, a);
    SellLocked(s, request, a);
    assert LockedOf(s'.quote, a) == QuoteOwed(s'.status, Live(s'.book), a) + GapOf(gap', a);
  }

  lemma {:induction false} SellNeeds(s: State, request: Request, gap: Gaps)
    requires Solvent(s, gap) && request.AddOrder? && !request.isBuy && Accepts(s, OrderOf(s, request))
    requires s.oid + 1 < TWO64 && AddKept(s, Tick(s, request))
    ensures SellFits(s, OrderOf(s, request), gap)
  {
    hide BookOk, Live, Limit, SettleAll, LedgerOk, AgreeOn, Tick, Truthful, FillsOf, NoFillWrap, TotalOf, Overcharge;
    var o := OrderOf(s, request);
    var gap': Gaps :| Solvent(Tick(s, request).state, gap');
    SameFills(s, o);
    AgreeIff(s, request);
    RestsCovered(s, request, gap');
    forall i | 0 <= i < |FillsOf(s, o)|
      ensures FillsOf(s, o)[i].buyer in s.base.Keys
    {
      BuyerThere(s, request, i);
    }
    forall a
      ensures Total(FillsOf(s, o), OverchargedTo(s.status, Live(s.book), a)) <= GapOf(gap, a)
    {
      OverchargeCovered(s, request, gap, gap', a);
    }
  }

  /** An accepted sell leaves the ledger as it should if and only if it fits; the gap is then
      the old one less the overcharges. */
  lemma {:induction false} SellIff(s: State, request: Request, gap: Gaps)
    requires Solvent(s, gap) && request.AddOrder? && !request.isBuy && Accepts(s, OrderOf(s, request))
    requires s.oid + 1 < TWO64
    ensures AddKept(s, Tick(s, request)) <==> SellFits(s, OrderOf(s, request), gap)
    ensures AddKept(s, Tick(s, request)) ==>
      Solvent(Tick(s, request).state,
              GapAfterSell(s.status, Live(s.book), FillsOf(s, OrderOf(s, request)), gap))
  {
    hide Solvent, AddKept, SellFits, Tick, FillsOf, Live;
    if AddKept(s, Tick(s, request)) {
      SellNeeds(s, request, gap);
    }
    if SellFits(s, OrderOf(s, request), gap) {
      SellSolvent(s, request, gap);
    }
  }
}
