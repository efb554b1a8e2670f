/** Fills whose parties have locked all they take: they are exact whatever the statuses say. */
module PaidFills {
  import opened Api
  import opened BookSpec
  import opened Resting
  import opened BookInvariant
  import opened ClobSpec
  import opened StatusBook
  import opened Accounts
  import opened Owed
  import opened Ledger
  import opened SolvencyLimits

  // ---- What the fills of one order move ----

  ghost function PaidBy(a: Address): OrderFill -> int {
    (f: OrderFill) => if f.buyer == a then f.QuoteSize() else 0
  }

  ghost function EarnedBy(a: Address): OrderFill -> int {
    (f: OrderFill) => if f.seller == a then f.QuoteSize() else 0
  }

  ghost function BoughtBy(a: Address): OrderFill -> int {
    (f: OrderFill) => if f.buyer == a then f.size else 0
  }

  /** The fill diffs of an account, slot by slot. */
  lemma {:induction false} FillDiffsAt(fills: seq<OrderFill>, a: Address)
    ensures var diffs := FillDiffs(fills);
      && DiffsAt(diffs, a, LockedBase) == -Total(fills, SoldBy(a))
      && DiffsAt(diffs, a, FreeBase) == Total(fills, BoughtBy(a))
      && DiffsAt(diffs, a, LockedQuote) == -Total(fills, PaidBy(a))
      && DiffsAt(diffs, a, FreeQuote) == Total(fills, EarnedBy(a))
  {
    hide Mul64;
    if fills != [] {
      var n := |fills| - 1;
      FillDiffsAt(fills[..n], a);
      DiffsSnoc(fills, a, LockedBase);
      DiffsSnoc(fills, a, FreeBase);
      DiffsSnoc(fills, a, LockedQuote);
      DiffsSnoc(fills, a, FreeQuote);
    }
  }

  ghost function DiffOf(fill: OrderFill): Diff {
    FillDiff(fill.buyer, fill.seller, fill.size, fill.QuoteSize())
  }

  lemma DiffsSnoc(fills: seq<OrderFill>, a: Address, slot: Slot)
    requires fills != []
    ensures var n := |fills| - 1;
      DiffsAt(FillDiffs(fills), a, slot) == DiffsAt(FillDiffs(fills[..n]), a, slot) + DiffAt(DiffOf(fills[n]), a, slot)
  {
    hide DiffAt, Mul64;
    var n := |fills| - 1;
    DiffsAtAppend(FillDiffs(fills[..n]), [DiffOf(fills[n])], a, slot);
    DiffsAtOne(DiffOf(fills[n]), a, slot);
  }

  lemma {:induction false} PrefixAtMost(fills: seq<OrderFill>, f: OrderFill -> int)
    requires fills != [] && forall x :: f(x) >= 0
    ensures var n := |fills| - 1;
      0 <= Total(fills[..n], f) <= Total(fills, f) && f(fills[n]) <= Total(fills, f) - Total(fills[..n], f)
  {
    TotalPrefix(fills, |fills| - 1, f);
  }

  // ---- Fills that are paid for ----

  /** Everybody is there, and has locked all the fills take from them. */
  ghost predicate PaidFor(f: Funds, fills: seq<OrderFill>) {
    && f.base.Keys == f.quote.Keys && TotalOf(f.base) < TWO64 && TotalOf(f.quote) < TWO64
    && (forall i :: 0 <= i < |fills| ==> fills[i].seller in f.base.Keys && fills[i].buyer in f.base.Keys)
    && (forall a :: Total(fills, SoldBy(a)) <= LockedOf(f.base, a))
    && (forall a :: Total(fills, PaidBy(a)) <= LockedOf(f.quote, a))
  }

  lemma PaidBefore(f: Funds, fills: seq<OrderFill>)
    requires fills != [] && PaidFor(f, fills)
    ensures PaidFor(f, fills[..|fills| - 1])
  {
    hide TotalOf, LockedOf, Mul64;
    forall a
      ensures Total(fills[..|fills| - 1], SoldBy(a)) <= LockedOf(f.base, a)
      ensures Total(fills[..|fills| - 1], PaidBy(a)) <= LockedOf(f.quote, a)
    {
      PrefixAtMost(fills, SoldBy(a));
      PrefixAtMost(fills, PaidBy(a));
    }
  }

  // What the last fill takes is still locked after the others.
  lemma LastPaid(f: Funds, g: Funds, fills: seq<OrderFill>)
    requires fills != [] && PaidFor(f, fills)
    requires forall a, slot ::
      Holds(g.base, g.quote, a, slot)
        == Holds(f.base, f.quote, a, slot) + DiffsAt(FillDiffs(fills[..|fills| - 1]), a, slot)
    ensures var fill := fills[|fills| - 1];
      LockedOf(g.base, fill.seller) >= fill.size && LockedOf(g.quote, fill.buyer) >= fill.QuoteSize()
  {
    hide TotalOf, Mul64;
    var before, fill := fills[..|fills| - 1], fills[|fills| - 1];
    FillDiffsAt(before, fill.seller);
    FillDiffsAt(before, fill.buyer);
    PrefixAtMost(fills, SoldBy(fill.seller));
    PrefixAtMost(fills, PaidBy(fill.buyer));
    assert Holds(g.base, g.quote, fill.seller, LockedBase) == LockedOf(g.base, fill.seller);
    assert Holds(g.base, g.quote, fill.buyer, LockedQuote) == LockedOf(g.quote, fill.buyer);
  }

  /** Such fills wrap nothing, conserve both totals and change every account by their diffs. */
  lemma {:induction false} PaidExact(f: Funds, fills: seq<OrderFill>)
    requires PaidFor(f, fills)
    ensures var g := SettleAll(f, fills);
      && g.base.Keys == f.base.Keys && g.quote.Keys == f.quote.Keys
      && TotalOf(g.base) == TotalOf(f.base) && TotalOf(g.quote) == TotalOf(f.quote)
      && forall a, slot :: Holds(g.base, g.quote, a, slot)
           == Holds(f.base, f.quote, a, slot) + DiffsAt(FillDiffs(fills), a, slot)
  {
    hide TotalOf, Settle, Holds, DiffsAt, Mul64;
    if fills == [] {
      NoDiffs();
    } else {
      var before, fill := fills[..|fills| - 1], fills[|fills| - 1];
      PaidBefore(f, fills);
      PaidExact(f, before);
      var g := SettleAll(f, before);
      LastPaid(f, g, fills);
      SettleExact(g, fill);
      forall a, slot
        ensures DiffsAt(FillDiffs(fills), a, slot)
             == DiffsAt(FillDiffs(before), a, slot) + DiffAt(DiffOf(fill), a, slot)
      {
        DiffsSnoc(fills, a, slot);
      }
    }
  }

  lemma NoDiffs()
    ensures forall a, slot :: DiffsAt([], a, slot) == 0
  {
  }

  // ---- Every maker once ----

  // Fills of other makers leave an entry alone.
  lemma {:induction false} EntryKept(f: Funds, fills: seq<OrderFill>, oid: U64)
    requires NotMaker(fills, oid)
    ensures var status := SettleAll(f, fills).status;
      (oid in status.Keys <==> oid in f.status.Keys) && (oid in status.Keys ==> status[oid] == f.status[oid])
  {
    if fills != [] {
      var n := |fills| - 1;
      assert forall i :: 0 <= i < n ==> fills[..n][i] == fills[i];
      EntryKept(f, fills[..n], oid);
    }
  }

  // Every fill of an order is with another resting maker.
  lemma {:induction false} MakersOnce(fills: seq<OrderFill>, live: Orders, o: Order, oid: U64)
    requires FillsGood(fills, live, o) && Total(fills, MadeBy(oid)) == 0
    ensures NotMaker(fills, oid)
  {
    MakersPositive(fills, live, o);
    forall i | 0 <= i < |fills|
      ensures fills[i].makerOid != oid
    {
      TotalZero(fills, MadeBy(oid), i);
    }
  }

  lemma {:induction false} MakersPositive(fills: seq<OrderFill>, live: Orders, o: Order)
    requires FillsGood(fills, live, o)
    ensures forall i :: 0 <= i < |fills| ==> FillGood(fills[i], live, o)
  {
    if fills != [] {
      var n := |fills| - 1;
      MakersPositive(fills[..n], live, o);
      assert forall i :: 0 <= i < n ==> fills[..n][i] == fills[i];
    }
  }

  lemma {:induction false} AmongMade(fills: seq<OrderFill>, i: nat)
    requires i < |fills|
    ensures fills[i].size <= Total(fills, MadeBy(fills[i].makerOid))
  {
    var n := |fills| - 1;
    if i < n {
      AmongMade(fills[..n], i);
    } else {
      MadeAtMost(fills[..n], fills[i].makerOid);
    }
  }

  // ---- An accepted order ----

  ghost function FillsOf(s: State, o: Order): seq<OrderFill> {
    Limit(s.book, o).fills
  }

  lemma SameFills(s: State, o: Order)
    ensures FillsOf(s, o) == Limit(s.book, o).fills
  {
  }

  // The balances and diffs of an accepted order that is paid for.
  lemma {:induction false} PaidTruthful(s: State, request: Request)
    requires request.AddOrder? && Accepts(s, OrderOf(s, request))
    requires TotalOf(s.base) < TWO64 && TotalOf(s.quote) < TWO64
    requires PaidFor(Locked(s, OrderOf(s, request)), FillsOf(s, OrderOf(s, request)))
    ensures var t := Tick(s, request);
      && Truthful(s, t)
      && t.state.base.Keys == s.base.Keys && t.state.quote.Keys == s.quote.Keys
      && TotalOf(t.state.base) == TotalOf(s.base) && TotalOf(t.state.quote) == TotalOf(s.quote)
  {
    hide Limit, SettleAll, TotalOf, Locked, PaidFor, Holds, DiffsAt, FillDiffs, CreateOf, FillsOf;
    var o := OrderOf(s, request);
    var t := Tick(s, request);
    AddShape(s, request);
    LockedExact(s, o);
    PaidExact(Locked(s, o), FillsOf(s, o));
    forall a, slot
      ensures Holds(t.state.base, t.state.quote, a, slot) == Holds(s.base, s.quote, a, slot) + DiffsAt(t.diffs, a, slot)
    {
      AddDiffsAt(s, request, a, slot);
    }
  }

  // An accepted order's funds and diffs.
  lemma AddShape(s: State, request: Request)
    requires request.AddOrder? && Accepts(s, OrderOf(s, request))
    ensures var o, t := OrderOf(s, request), Tick(s, request);
      var f := SettleAll(Locked(s, o), FillsOf(s, o));
      t.state.base == f.base && t.state.quote == f.quote && t.diffs == [CreateOf(o)] + FillDiffs(FillsOf(s, o))
  {
    hide Limit, SettleAll, Locked, FillDiffs, CreateOf;
  }

  lemma AddDiffsAt(s: State, request: Request, a: Address, slot: Slot)
    requires request.AddOrder? && Accepts(s, OrderOf(s, request))
    ensures var o := OrderOf(s, request);
      DiffsAt(Tick(s, request).diffs, a, slot)
        == DiffAt(CreateOf(o), a, slot) + DiffsAt(FillDiffs(FillsOf(s, o)), a, slot)
  {
    hide Tick, FillDiffs, CreateOf, DiffAt, FillsOf;
    var o := OrderOf(s, request);
    AddShape(s, request);
    DiffsAtAppend([CreateOf(o)], FillDiffs(FillsOf(s, o)), a, slot);
    DiffsAtOne(CreateOf(o), a, slot);
  }

  // The owners of open orders still have accounts.
  lemma OwnersStay(s: State, request: Request, gap: Gaps)
    requires Solvent(s, gap) && request.AddOrder? && Accepts(s, OrderOf(s, request))
    requires Agree(Tick(s, request).state)
    ensures var s' := Tick(s, request).state;
      forall oid :: oid in s'.status.Keys ==> oid in Live(s'.book).Keys && Live(s'.book)[oid].address in s.base.Keys
  {
    hide BookOk, Live, Limit, SettleAll, BaseOwed, QuoteOwed, TotalOf, AllCovered, Locked, StatusOk;
    var o := OrderOf(s, request);
    AddTerms(s, request);
    SettledKeys(Locked(s, o), FillsOf(s, o));
    LockKeepsStatus(s, o);
  }

  lemma SameTermsCovered(st: FillStatus, o: Order, o': Order)
    requires o' == o.(size := o'.size)
    ensures Covered(st, o') <==> Covered(st, o)
  {
  }

  // An order that rests in a solvent ledger has a price, and if it buys a notional that fits.
  lemma RestsCovered(s: State, request: Request, gap': Gaps)
    requires Sound(s) && request.AddOrder? && Accepts(s, OrderOf(s, request))
    requires Solvent(Tick(s, request).state, gap')
    ensures Limit(s.book, OrderOf(s, request)).remaining > 0 ==>
      request.limitPrice > 0 && (request.isBuy ==> request.size * request.limitPrice < TWO64)
  {
    hide BookOk, Live, Limit, SettleAll, BaseOwed, QuoteOwed, TotalOf;
    var o, s' := OrderOf(s, request), Tick(s, request).state;
    LimitLive(s.book, o, o.oid);
    assert Limit(s.book, o).remaining > 0 ==>
      o.oid in s'.status.Keys && Covered(s'.status[o.oid], Live(s'.book)[o.oid]);
  }
}
