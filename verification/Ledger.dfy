/** Solvency of the CLOB ledger. As long as every fill stays within its maker's open
    status and cancels hit orders without maker fills, locked balances are exactly what
    the open orders owe (plus unreleased price improvement), no 64-bit operation wraps,
    and each request changes the accounts by its diffs. */
module Ledger {
  import opened Api
  import opened BookSpec
  import opened Resting
  import opened BookInvariant
  import opened ClobSpec
  import opened StatusBook
  import opened Accounts
  import opened Owed

  type Gaps = map<Address, int>

  function GapOf(gap: Gaps, a: Address): int {
    if a in gap.Keys then gap[a] else 0
  }

  function AddGap(gap: Gaps, a: Address, x: int): Gaps {
    gap[a := GapOf(gap, a) + x]
  }

  /** The ledger invariant. `gap` is the price improvement of completed buys, which stays locked. */
  ghost predicate LedgerOk(f: Funds, live: Orders, gap: Gaps) {
    && f.base.Keys == f.quote.Keys
    && AllCovered(f.status, live)
    && (forall oid :: oid in f.status.Keys ==> live[oid].address in f.base.Keys)
    && (forall a :: LockedOf(f.base, a) == BaseOwed(f.status, live, a))
    && (forall a :: LockedOf(f.quote, a) == QuoteOwed(f.status, live, a) + GapOf(gap, a))
    && (forall a :: GapOf(gap, a) >= 0)
    && TotalOf(f.base) < TWO64 && TotalOf(f.quote) < TWO64
  }

  // ---- One fill ----

  /** What a fill needs to be harmless: the maker's status is open and has room for it. */
  predicate FitsStatus(status: Statuses, fill: OrderFill) {
    && fill.makerOid in status.Keys
    && status[fill.makerOid].filledSize <= status[fill.makerOid].size
    && fill.size <= status[fill.makerOid].size - status[fill.makerOid].filledSize
  }

  /** A fill between the taker (whose own status is tracked as if already open) and a maker. */
  ghost predicate Fillable(f: Funds, live: Orders, taker: U64, fill: OrderFill) {
    && FitsStatus(f.status, fill)
    && taker in f.status.Keys && taker != fill.makerOid
    && taker in live.Keys && fill.makerOid in live.Keys
    && f.status[taker].filledSize <= f.status[taker].size
    && fill.size <= f.status[taker].size - f.status[taker].filledSize
    && fill.size > 0
    && live[taker].isBuy != live[fill.makerOid].isBuy
    && fill == FillOf(live[fill.makerOid], live[taker], fill.size)
    && Crosses(live[taker], live[fill.makerOid].limitPrice)
  }

  // The order on the given side of the fill.
  function SideOid(live: Orders, taker: U64, fill: OrderFill, buyer: bool): U64
    requires taker in live.Keys
  {
    if live[taker].isBuy == buyer then taker else fill.makerOid
  }

  /** The funds after the fill, the taker's tracked status included. */
  ghost function FillFunds(f: Funds, taker: U64, fill: OrderFill): Funds {
    var g := Settle(f, fill);
    if taker in f.status.Keys then g.(status := g.status[taker := AddFill(f.status[taker], fill)]) else g
  }

  /** A buying maker that this fill completes leaves its price improvement locked. */
  ghost function GapAfterFill(status: Statuses, live: Orders, fill: OrderFill, gap: Gaps): Gaps {
    if fill.makerOid !in status.Keys || fill.makerOid !in live.Keys then gap
    else
      var st, o := status[fill.makerOid], live[fill.makerOid];
      if o.isBuy && st.filledSize + fill.size == st.size
      then AddGap(gap, o.address, Total(st.fills + [fill], SavedAt(o.limitPrice)))
      else gap
  }

  // Both orders of the fill with it added, the maker not yet closed.
  ghost function BothFilled(status: Statuses, taker: U64, fill: OrderFill): Statuses
    requires fill.makerOid in status.Keys && taker in status.Keys
  {
    status[fill.makerOid := AddFill(status[fill.makerOid], fill)][taker := AddFill(status[taker], fill)]
  }

  lemma {:induction false} BothFilledDue(f: Funds, live: Orders, taker: U64, fill: OrderFill, a: Address)
    requires AllCovered(f.status, live) && Fillable(f, live, taker, fill)
    ensures var status := BothFilled(f.status, taker, fill);
      var seller, buyer := live[SideOid(live, taker, fill, false)], live[SideOid(live, taker, fill, true)];
      && AllCovered(status, live) && status.Keys == f.status.Keys
      && seller.address == fill.seller && buyer.address == fill.buyer && !seller.isBuy && buyer.isBuy
      && BaseOwed(status, live, a) == BaseOwed(f.status, live, a) - (if a == fill.seller then fill.size else 0)
      && QuoteOwed(status, live, a)
         == QuoteOwed(f.status, live, a) - (if a == fill.buyer then fill.size * fill.price else 0)
  {
    hide BaseOwed, QuoteOwed, Total, Covered, BaseDue, QuoteDue;
    var m, t := f.status[fill.makerOid], f.status[taker];
    var mid := f.status[fill.makerOid := AddFill(m, fill)];
    FillDue(m, live[fill.makerOid], fill);
    FillDue(t, live[taker], fill);
    OwedReplace(f.status, live, fill.makerOid, AddFill(m, fill), a);
    OwedReplace(mid, live, taker, AddFill(t, fill), a);
  }

  /** The fill takes from the locked balances exactly what its two orders owe less. */
  lemma {:induction false} FillDueExact(f: Funds, live: Orders, taker: U64, fill: OrderFill, gap: Gaps, a: Address)
    requires AllCovered(f.status, live) && Fillable(f, live, taker, fill)
    requires forall x :: GapOf(gap, x) >= 0
    ensures var status := FillFunds(f, taker, fill).status;
      var gap' := GapAfterFill(f.status, live, fill, gap);
      && AllCovered(status, live) && status.Keys <= f.status.Keys
      && BaseOwed(status, live, a) == BaseOwed(f.status, live, a) - (if a == fill.seller then fill.size else 0)
      && QuoteOwed(status, live, a) + GapOf(gap', a)
         == QuoteOwed(f.status, live, a) + GapOf(gap, a) - (if a == fill.buyer then fill.size * fill.price else 0)
      && GapOf(gap', a) >= 0
  {
    hide BaseOwed, QuoteOwed, Total, Covered, BaseDue, QuoteDue;
    var both: Statuses := BothFilled(f.status, taker, fill);
    var m, o := f.status[fill.makerOid], live[fill.makerOid];
    var status := FillFunds(f, taker, fill).status;
    BothFilledDue(f, live, taker, fill, a);
    if m.filledSize + fill.size < m.size {
      assert status == both;
    } else {
      assert status == both - {fill.makerOid};
      OwedClose(both, live, fill.makerOid, a);
      CompletedDue(both[fill.makerOid], o);
    }
  }

  /** A completed order owes no base, and of quote exactly its price improvement. */
  lemma {:induction false} CompletedDue(st: FillStatus, o: Order)
    requires Covered(st, o) && st.filledSize == st.size
    ensures BaseDue(st, o) == 0
    ensures QuoteDue(st, o) == (if o.isBuy then Total(st.fills, SavedAt(o.limitPrice)) else 0) >= 0
  {
    DueBounds(st, o);
    LeftoverIsImprovement(st.fills, o.limitPrice);
  }

  /** No 64-bit operation of the fill wraps, and each account changes by the fill's diff. */
  lemma {:induction false} FillExact(f: Funds, live: Orders, taker: U64, fill: OrderFill, gap: Gaps)
    requires LedgerOk(f, live, gap) && Fillable(f, live, taker, fill)
    ensures var g := Settle(f, fill);
      && fill.QuoteSize() == fill.size * fill.price
      && g.base.Keys == f.base.Keys && g.quote.Keys == f.quote.Keys
      && TotalOf(g.base) == TotalOf(f.base) && TotalOf(g.quote) == TotalOf(f.quote)
      && (forall a :: LockedOf(g.base, a) == LockedOf(f.base, a) - (if a == fill.seller then fill.size else 0))
      && (forall a :: LockedOf(g.quote, a)
            == LockedOf(f.quote, a) - (if a == fill.buyer then fill.size * fill.price else 0))
      && forall a, slot :: Holds(g.base, g.quote, a, slot) == Holds(f.base, f.quote, a, slot)
           + DiffAt(FillDiff(fill.buyer, fill.seller, fill.size, fill.QuoteSize()), a, slot)
  {
    hide BaseOwed, QuoteOwed, Total, Covered, AllCovered, TotalOf;
    FillRoom(f, live, taker, fill, gap);
    SettleExact(f, fill);
    var g := Settle(f, fill);
    forall a
      ensures LockedOf(g.base, a) == LockedOf(f.base, a) - (if a == fill.seller then fill.size else 0)
      ensures LockedOf(g.quote, a) == LockedOf(f.quote, a) - (if a == fill.buyer then fill.size * fill.price else 0)
    {
      assert Holds(g.base, g.quote, a, LockedBase) == LockedOf(g.base, a);
      assert Holds(g.base, g.quote, a, LockedQuote) == LockedOf(g.quote, a);
    }
  }

  /** A fill between existing accounts that have its funds locked wraps nothing. */
  lemma {:induction false} SettleExact(f: Funds, fill: OrderFill)
    requires fill.seller in f.base.Keys && fill.buyer in f.base.Keys && f.base.Keys == f.quote.Keys
    requires f.base[fill.seller].locked >= fill.size && f.quote[fill.buyer].locked >= fill.QuoteSize()
    requires TotalOf(f.base) < TWO64 && TotalOf(f.quote) < TWO64
    ensures var g := Settle(f, fill);
      && g.base.Keys == f.base.Keys && g.quote.Keys == f.quote.Keys
      && TotalOf(g.base) == TotalOf(f.base) && TotalOf(g.quote) == TotalOf(f.quote)
      && forall a, slot :: Holds(g.base, g.quote, a, slot) == Holds(f.base, f.quote, a, slot)
           + DiffAt(FillDiff(fill.buyer, fill.seller, fill.size, fill.QuoteSize()), a, slot)
  {
    hide TotalOf;
    TransferExact(f.base, fill.seller, fill.buyer, fill.size);
    TransferOrder(f.quote, fill.buyer, fill.seller, fill.QuoteSize());
    TransferExact(f.quote, fill.buyer, fill.seller, fill.QuoteSize());
  }

  lemma {:induction false} FillRoom(f: Funds, live: Orders, taker: U64, fill: OrderFill, gap: Gaps)
    requires LedgerOk(f, live, gap) && Fillable(f, live, taker, fill)
    ensures fill.size * fill.price < TWO64 && fill.QuoteSize() == fill.size * fill.price
    ensures fill.seller in f.base.Keys && fill.buyer in f.base.Keys
    ensures f.base[fill.seller].locked >= fill.size
    ensures f.quote[fill.buyer].locked >= fill.size * fill.price
  {
    hide BaseOwed, QuoteOwed, Total, AllCovered;
    var s, b := SideOid(live, taker, fill, false), SideOid(live, taker, fill, true);
    OwedCovers(f.status, live, s);
    OwedCovers(f.status, live, b);
    DueBoundsAt(f.status, live, b);
    QuoteRoom(f.status[b].size - f.status[b].filledSize, live[b].limitPrice, fill.size, fill.price);
    Product(fill.size, fill.price);
    assert LockedOf(f.base, fill.seller) == BaseOwed(f.status, live, fill.seller);
    assert LockedOf(f.quote, fill.buyer) == QuoteOwed(f.status, live, fill.buyer) + GapOf(gap, fill.buyer);
  }

  lemma {:induction false} DueBoundsAt(status: Statuses, live: Orders, oid: U64)
    requires AllCovered(status, live) && oid in status.Keys
    ensures live[oid].isBuy ==>
      QuoteDue(status[oid], live[oid]) >= (status[oid].size - status[oid].filledSize) * live[oid].limitPrice
  {
    DueBounds(status[oid], live[oid]);
  }

  lemma QuoteRoom(room: int, limit: int, size: int, price: int)
    requires 0 <= size <= room && 0 <= price <= limit
    ensures size * price <= room * limit
  {
    Distribute(size, room - size, limit);
    Product(room - size, limit);
    Distribute(price, limit - price, size);
    Product(size, limit - price);
  }

  /** One fill keeps the ledger invariant. */
  lemma {:induction false} FillLedger(f: Funds, live: Orders, taker: U64, fill: OrderFill, gap: Gaps)
    requires LedgerOk(f, live, gap) && Fillable(f, live, taker, fill)
    ensures LedgerOk(FillFunds(f, taker, fill), live, GapAfterFill(f.status, live, fill, gap))
  {
    var g, gap' := FillFunds(f, taker, fill), GapAfterFill(f.status, live, fill, gap);
    FillExact(f, live, taker, fill, gap);
    forall a
      ensures LockedOf(g.base, a) == BaseOwed(g.status, live, a)
      ensures LockedOf(g.quote, a) == QuoteOwed(g.status, live, a) + GapOf(gap', a)
      ensures GapOf(gap', a) >= 0
    {
      FillDueExact(f, live, taker, fill, gap, a);
    }
    FillDueExact(f, live, taker, fill, gap, 0);
  }

  // ---- All fills of one order ----

  /** The funds through the fill loop, the taker's status tracked from the start. */
  ghost function Tracked(f: Funds, taker: U64, fills: seq<OrderFill>): Funds {
    if fills == [] then f
    else FillFunds(Tracked(f, taker, fills[..|fills| - 1]), taker, fills[|fills| - 1])
  }

  ghost function GapAfterFills(f: Funds, taker: U64, live: Orders, fills: seq<OrderFill>, gap: Gaps): Gaps {
    if fills == [] then gap
    else
      var before := fills[..|fills| - 1];
      GapAfterFill(Tracked(f, taker, before).status, live, fills[|fills| - 1],
                   GapAfterFills(f, taker, live, before, gap))
  }

  ghost predicate NotMaker(fills: seq<OrderFill>, taker: U64) {
    forall i :: 0 <= i < |fills| ==> fills[i].makerOid != taker
  }

  // The taker's status once it has made these fills.
  function TakerStatus(o: Order, filled: U64, fills: seq<OrderFill>): FillStatus {
    FillStatus(o.oid, o.size, o.address, filled, fills)
  }

  /** Tracking changes nothing but the taker's own entry. */
  lemma {:induction false} TrackedIs(f: Funds, o: Order, fills: seq<OrderFill>)
    requires o.oid !in f.status.Keys && NotMaker(fills, o.oid)
    requires Total(fills, SizeOf()) <= o.size
    ensures 0 <= Total(fills, SizeOf())
    ensures var g := SettleAll(f, fills);
      && Tracked(f.(status := f.status[o.oid := TakerStatus(o, 0, [])]), o.oid, fills)
         == g.(status := g.status[o.oid := TakerStatus(o, Total(fills, SizeOf()), fills)])
      && o.oid !in g.status.Keys
  {
    hide Settle, FillFunds;
    if fills != [] {
      var before, fill := fills[..|fills| - 1], fills[|fills| - 1];
      TrackedIs(f, o, before);
      var g := SettleAll(f, before);
      TrackedStep(g, o, Total(before, SizeOf()), before, fill);
      assert before + [fill] == fills;
    }
  }

  // A fill settles the other statuses as if the taker's were not there.
  lemma TrackedStatus(status: Statuses, oid: U64, t: FillStatus, fill: OrderFill)
    requires oid !in status.Keys && fill.makerOid != oid
    ensures SettleStatus(status[oid := t], fill) == SettleStatus(status, fill)[oid := t]
    ensures oid !in SettleStatus(status, fill).Keys
  {
  }

  lemma {:induction false} TrackedStep(g: Funds, o: Order, filled: U64, before: seq<OrderFill>, fill: OrderFill)
    requires o.oid !in g.status.Keys && fill.makerOid != o.oid && filled + fill.size <= o.size
    ensures FillFunds(g.(status := g.status[o.oid := TakerStatus(o, filled, before)]), o.oid, fill)
         == (var h := Settle(g, fill);
             h.(status := h.status[o.oid := TakerStatus(o, filled + fill.size, before + [fill])]))
    ensures o.oid !in Settle(g, fill).status.Keys
  {
    hide SettleStatus, AddFree, SubLocked;
    var t, t' := TakerStatus(o, filled, before), TakerStatus(o, filled + fill.size, before + [fill]);
    TrackedStatus(g.status, o.oid, t, fill);
    assert AddFill(t, fill) == t';
    assert SettleStatus(g.status, fill)[o.oid := t][o.oid := t'] == SettleStatus(g.status, fill)[o.oid := t'];
  }

  ghost predicate AllFit(status: Statuses, fills: seq<OrderFill>) {
    forall i :: 0 <= i < |fills| ==> FitsStatus(status, fills[i])
  }

  // The funds of an accepted order before matching, its own status already open.
  ghost function Opened(s: State, o: Order): Funds {
    var f := Locked(s, o);
    f.(status := f.status[o.oid := TakerStatus(o, 0, [])])
  }

  lemma {:induction false} GoodNotMaker(fills: seq<OrderFill>, live: Orders, o: Order)
    requires FillsGood(fills, live, o) && o.oid !in live.Keys
    ensures NotMaker(fills, o.oid)
  {
    if fills != [] {
      GoodNotMaker(fills[..|fills| - 1], live, o);
      assert forall i :: 0 <= i < |fills| - 1 ==> fills[i] == fills[..|fills| - 1][i];
    }
  }

  // Each fill of the loop finds its maker as it was before the order.
  lemma {:induction false} NextFillable(s: State, o: Order, fills: seq<OrderFill>)
    requires fills != [] && FillsGood(fills, Live(s.book), o) && AllFit(s.status, fills)
    requires Sound(s) && Agree(s) && o.oid == s.oid && Total(fills, SizeOf()) <= o.size
    ensures var before, fill := fills[..|fills| - 1], fills[|fills| - 1];
      Fillable(Tracked(Opened(s, o), o.oid, before), Live(s.book)[o.oid := o], o.oid, fill)
  {
    hide BookOk, Live, Settle, SettleAll, Tracked, FillsGood;
    var before, fill := fills[..|fills| - 1], fills[|fills| - 1];
    var f := Locked(s, o);
    GoodLast(fills, Live(s.book), o);
    GoodNotMaker(before, Live(s.book), o);
    TotalPrefix(fills, |fills| - 1, SizeOf());
    TrackedIs(f, o, before);
    assert StatusOk(s.status[fill.makerOid], fill.makerOid, Live(s.book));
    SettledStatus(f, before, fill.makerOid);
  }

  lemma GoodLast(fills: seq<OrderFill>, live: Orders, o: Order)
    requires fills != [] && FillsGood(fills, live, o)
    ensures var before, fill := fills[..|fills| - 1], fills[|fills| - 1];
      && FillsGood(before, live, o) && FillGood(fill, live, o) && Total(before, MadeBy(fill.makerOid)) == 0
      && Total(fills, SizeOf()) == Total(before, SizeOf()) + fill.size
  {
  }

  /** The fill loop keeps the ledger invariant, and changes every account by its diffs. */
  lemma {:induction false} FillsLedger(s: State, o: Order, fills: seq<OrderFill>, gap: Gaps)
    requires FillsGood(fills, Live(s.book), o) && AllFit(s.status, fills)
    requires Sound(s) && Agree(s) && o.oid == s.oid && Total(fills, SizeOf()) <= o.size
    requires LedgerOk(Opened(s, o), Live(s.book)[o.oid := o], gap)
    ensures var f, live := Opened(s, o), Live(s.book)[o.oid := o];
      var g := Tracked(f, o.oid, fills);
      && LedgerOk(g, live, GapAfterFills(f, o.oid, live, fills, gap))
      && TotalOf(g.base) == TotalOf(f.base) && TotalOf(g.quote) == TotalOf(f.quote)
      && forall a, slot :: Holds(g.base, g.quote, a, slot)
           == Holds(f.base, f.quote, a, slot) + DiffsAt(FillDiffs(fills), a, slot)
  {
    hide LedgerOk, Live, Sound, Agree, FillsGood, Settle, Opened, TotalOf;
    if fills != [] {
      var before, fill := fills[..|fills| - 1], fills[|fills| - 1];
      var f, live := Opened(s, o), Live(s.book)[o.oid := o];
      var g := Tracked(f, o.oid, before);
      GoodLast(fills, Live(s.book), o);
      FillsLedger(s, o, before, gap);
      NextFillable(s, o, fills);
      var gap' := GapAfterFills(f, o.oid, live, before, gap);
      FillExact(g, live, o.oid, fill, gap');
      FillLedger(g, live, o.oid, fill, gap');
      var d := FillDiff(fill.buyer, fill.seller, fill.size, fill.QuoteSize());
      forall a, slot
        ensures DiffsAt(FillDiffs(fills), a, slot) == DiffsAt(FillDiffs(before), a, slot) + DiffAt(d, a, slot)
      {
        DiffsAtAppend(FillDiffs(before), [d], a, slot);
        DiffsAtOne(d, a, slot);
      }
    }
  }

  // ---- Opening and closing the taker ----

  /** The same orders with other sizes leave the invariant alone. */
  lemma {:induction false} RelabelLedger(f: Funds, live: Orders, live': Orders, gap: Gaps)
    requires LedgerOk(f, live, gap)
    requires forall oid :: oid in f.status.Keys ==>
      oid in live.Keys && oid in live'.Keys && live'[oid] == live[oid].(size := live'[oid].size)
    ensures LedgerOk(f, live', gap)
  {
    hide BaseOwed, QuoteOwed, TotalOf;
    forall a
      ensures BaseOwed(f.status, live', a) == BaseOwed(f.status, live, a)
      ensures QuoteOwed(f.status, live', a) == QuoteOwed(f.status, live, a)
    {
      OwedSameTerms(f.status, live, live', a);
    }
  }

  /** Locking the order's funds moves them as its create diff says. */
  lemma LockedExact(s: State, o: Order)
    requires Accepts(s, o) && TotalOf(s.base) < TWO64 && TotalOf(s.quote) < TWO64
    ensures var f := Locked(s, o);
      && f.base.Keys == s.base.Keys && f.quote.Keys == s.quote.Keys
      && TotalOf(f.base) == TotalOf(s.base) && TotalOf(f.quote) == TotalOf(s.quote)
      && (forall a :: LockedOf(f.base, a) == LockedOf(s.base, a) + (if a == o.address && !o.isBuy then o.size else 0))
      && (forall a :: LockedOf(f.quote, a)
            == LockedOf(s.quote, a) + (if a == o.address && o.isBuy then o.QuoteSize() else 0))
      && forall a, slot :: Holds(f.base, f.quote, a, slot)
           == Holds(s.base, s.quote, a, slot) + DiffAt(CreateOf(o), a, slot)
  {
    hide TotalOf;
    if o.isBuy {
      LockExact(s.quote, o.address, o.QuoteSize());
    } else {
      LockExact(s.base, o.address, o.size);
    }
  }

  /** Locking the order's funds pays for opening its status. */
  lemma {:induction false} OpenLedger(s: State, o: Order, gap: Gaps)
    requires LedgerOk(Funds(s.base, s.quote, s.status), Live(s.book), gap)
    requires Accepts(s, o) && o.oid !in s.status.Keys
    requires o.limitPrice > 0 && (o.isBuy ==> o.size * o.limitPrice < TWO64)
    ensures var f := Opened(s, o);
      && LedgerOk(f, Live(s.book)[o.oid := o], gap)
      && TotalOf(f.base) == TotalOf(s.base) && TotalOf(f.quote) == TotalOf(s.quote)
      && forall a, slot :: Holds(f.base, f.quote, a, slot)
           == Holds(s.base, s.quote, a, slot) + DiffAt(CreateOf(o), a, slot)
  {
    hide BaseOwed, QuoteOwed, TotalOf, Live, Locked, Holds, DiffAt, CreateOf, LockedOf;
    LockKeepsStatus(s, o);
    var live := Live(s.book)[o.oid := o];
    var t := TakerStatus(o, 0, []);
    RelabelLedger(Funds(s.base, s.quote, s.status), Live(s.book), live, gap);
    LockedExact(s, o);
    Product(o.size, o.limitPrice);
    forall a
      ensures LockedOf(Opened(s, o).base, a) == BaseOwed(s.status[o.oid := t], live, a)
      ensures LockedOf(Opened(s, o).quote, a) == QuoteOwed(s.status[o.oid := t], live, a) + GapOf(gap, a)
    {
      OwedOpen(s.status, live, o.oid, t, a);
    }
  }

  ghost function GapAfterClose(o: Order, fills: seq<OrderFill>, gap: Gaps): Gaps {
    if o.isBuy then AddGap(gap, o.address, Total(fills, SavedAt(o.limitPrice))) else gap
  }

  /** A taker filled completely never opens; a buyer's improvement joins the gap. */
  lemma {:induction false} CloseLedger(f: Funds, live: Orders, oid: U64, gap: Gaps)
    requires LedgerOk(f, live, gap)
    requires oid in f.status.Keys && f.status[oid].filledSize == f.status[oid].size
    ensures LedgerOk(f.(status := f.status - {oid}), live, GapAfterClose(live[oid], f.status[oid].fills, gap))
  {
    hide BaseOwed, QuoteOwed, TotalOf, Total;
    var gap' := GapAfterClose(live[oid], f.status[oid].fills, gap);
    CompletedDue(f.status[oid], live[oid]);
    forall a
      ensures LockedOf(f.base, a) == BaseOwed(f.status - {oid}, live, a)
      ensures LockedOf(f.quote, a) == QuoteOwed(f.status - {oid}, live, a) + GapOf(gap', a)
      ensures GapOf(gap', a) >= 0
    {
      OwedClose(f.status, live, oid, a);
    }
  }

  // ---- Requests ----

  ghost predicate Solvent(s: State, gap: Gaps) {
    && Sound(s) && Agree(s)
    && LedgerOk(Funds(s.base, s.quote, s.status), Live(s.book), gap)
  }

  /** An order the ledger can carry: a real price, a notional that fits, and only fills
      within their makers' open statuses. */
  ghost predicate WithinAdd(s: State, o: Order) {
    && s.oid + 1 < TWO64
    && (Accepts(s, o) ==>
          && o.limitPrice > 0 && (o.isBuy ==> o.size * o.limitPrice < TWO64)
          && AllFit(s.status, Limit(s.book, o).fills))
  }

  ghost function GapAfterAdd(s: State, o: Order, gap: Gaps): Gaps {
    if !Accepts(s, o) then gap
    else
      var l := Limit(s.book, o);
      var gap' := GapAfterFills(Opened(s, o), o.oid, Live(s.book)[o.oid := o], l.fills, gap);
      if l.remaining == 0 then GapAfterClose(o, l.fills, gap') else gap'
  }

  // What `FillsGood` and the status invariant say of the matched order.
  lemma AddFacts(s: State, o: Order)
    requires Sound(s) && Agree(s) && o.oid == s.oid && AllFit(s.status, Limit(s.book, o).fills)
    ensures var l := Limit(s.book, o);
      && o.oid !in s.status.Keys && o.oid !in Live(s.book).Keys
      && FillsGood(l.fills, Live(s.book), o) && NotMaker(l.fills, o.oid)
      && Total(l.fills, SizeOf()) == o.size - l.remaining
      && NoFillWrap(s, l.fills)
  {
    hide BookOk, Live, Limit, FillsGood;
    var l := Limit(s.book, o);
    LimitFills(s.book, o);
    GoodNotMaker(l.fills, Live(s.book), o);
    NewStatus(s, o);
    forall oid | oid in s.status.Keys
      ensures s.status[oid].filledSize + Total(l.fills, MadeBy(oid)) < TWO64
    {
      FitMade(s.status, l.fills, Live(s.book), o, oid);
      assert StatusOk(s.status[oid], oid, Live(s.book));
    }
  }

  lemma {:induction false} FitMade(status: Statuses, fills: seq<OrderFill>, live: Orders, o: Order, oid: U64)
    requires FillsGood(fills, live, o) && AllFit(status, fills) && oid in status.Keys
    requires status[oid].filledSize <= status[oid].size
    ensures 0 <= Total(fills, MadeBy(oid)) <= status[oid].size - status[oid].filledSize
  {
    if fills != [] {
      var before := fills[..|fills| - 1];
      assert forall i :: 0 <= i < |before| ==> before[i] == fills[i];
      FitMade(status, before, live, o, oid);
    }
  }

  // The state after an accepted order, as the tracked funds leave it.
  lemma AddResult(s: State, request: Request)
    requires Sound(s) && Agree(s) && request.AddOrder?
    requires var o := OrderOf(s, request); WithinAdd(s, o) && Accepts(s, o)
    ensures var o := OrderOf(s, request);
      var l, s' := Limit(s.book, o), Tick(s, request).state;
      var g := Tracked(Opened(s, o), o.oid, l.fills);
      && s'.base == g.base && s'.quote == g.quote && s'.book == l.book
      && o.oid in g.status.Keys
      && g.status[o.oid] == TakerStatus(o, o.size - l.remaining, l.fills)
      && s'.status == (if l.remaining == 0 then g.status - {o.oid} else g.status)
      && Tick(s, request).diffs == [CreateOf(o)] + FillDiffs(l.fills)
  {
    hide BookOk, Live, Limit, FillsGood, SettleAll, Tracked, FillDiffs;
    var o := OrderOf(s, request);
    AddFacts(s, o);
    TrackedIs(Locked(s, o), o, Limit(s.book, o).fills);
  }

  // The orders with open statuses after an accepted order: the ones before and the taker.
  lemma AddTerms(s: State, request: Request)
    requires Sound(s) && request.AddOrder? && Accepts(s, OrderOf(s, request))
    requires Agree(Tick(s, request).state)
    ensures var o := OrderOf(s, request);
      var s', live := Tick(s, request).state, Live(s.book)[o.oid := o];
      forall oid :: oid in s'.status.Keys ==>
        oid in live.Keys && oid in Live(s'.book).Keys
        && Live(s'.book)[oid] == live[oid].(size := Live(s'.book)[oid].size)
  {
    hide BookOk, Live, Limit, FillsGood, SettleAll, Tracked;
    var o := OrderOf(s, request);
    var s' := Tick(s, request).state;
    forall oid | oid in s'.status.Keys
      ensures oid in Live(s'.book).Keys
      ensures oid == o.oid || (oid in Live(s.book).Keys
                && Live(s'.book)[oid] == Live(s.book)[oid].(size := Live(s'.book)[oid].size))
      ensures oid == o.oid ==> Live(s'.book)[oid] == o
    {
      assert StatusOk(s'.status[oid], oid, Live(s'.book));
      LimitLive(s.book, o, oid);
    }
  }

  /** Adding an order within the statuses keeps the ledger solvent and its diffs truthful. */
  lemma {:induction false} AddSolvent(s: State, request: Request, gap: Gaps)
    requires Solvent(s, gap) && request.AddOrder? && WithinAdd(s, OrderOf(s, request))
    ensures var t := Tick(s, request);
      && Solvent(t.state, GapAfterAdd(s, OrderOf(s, request), gap))
      && TotalOf(t.state.base) == TotalOf(s.base) && TotalOf(t.state.quote) == TotalOf(s.quote)
      && forall a, slot :: Holds(t.state.base, t.state.quote, a, slot)
           == Holds(s.base, s.quote, a, slot) + DiffsAt(t.diffs, a, slot)
  {
    hide BookOk, Live, Limit, FillsGood, SettleAll, Tracked, Settle, Opened;
    hide TotalOf, LedgerOk, GapAfterFills, FillDiffs;
    var o := OrderOf(s, request);
    AddSound(s, request);
    if Accepts(s, o) {
      var l, f, live := Limit(s.book, o), Opened(s, o), Live(s.book)[o.oid := o];
      AddFacts(s, o);
      AddAgrees(s, request);
      OpenLedger(s, o, gap);
      FillsLedger(s, o, l.fills, gap);
      AddResult(s, request);
      var g, gap' := Tracked(f, o.oid, l.fills), GapAfterFills(f, o.oid, live, l.fills, gap);
      if l.remaining == 0 {
        CloseLedger(g, live, o.oid, gap');
      }
      AddTerms(s, request);
      var s' := Tick(s, request).state;
      RelabelLedger(Funds(s'.base, s'.quote, s'.status), live, Live(s'.book), GapAfterAdd(s, o, gap));
      forall a, slot
        ensures DiffsAt([CreateOf(o)] + FillDiffs(l.fills), a, slot)
             == DiffAt(CreateOf(o), a, slot) + DiffsAt(FillDiffs(l.fills), a, slot)
      {
        DiffsAtAppend([CreateOf(o)], FillDiffs(l.fills), a, slot);
        DiffsAtOne(CreateOf(o), a, slot);
      }
    } else {
      forall a, slot
        ensures DiffsAt([Noop], a, slot) == 0
      {
        DiffsAtOne(Noop, a, slot);
      }
    }
  }
}
