/** What holds of balances and diffs in every state, solvent or not: modulo 2^64 each
    request changes every existing account by its diffs, less what a cancelled order had
    already traded. */
module ModularDiffs {
  import opened Api
  import opened BookSpec
  import opened Resting
  import opened BookInvariant
  import opened ClobSpec
  import opened StatusBook
  import opened Accounts
  import opened Solvency
  import opened Runs
  import opened Responses

  predicate Congruent(x: int, y: int) {
    (x - y) % TWO64 == 0
  }

  lemma CongruentSum(x: int, y: int, z: int, d: int, e: int)
    requires Congruent(y, x + d) && Congruent(z, y + e)
    ensures Congruent(z, x + d + e)
  {
  }

  // ---- One side of a fill, or of a lock ----

  lemma SubLockedMod(b: Balances, from: Address, x: U64, a: Address)
    requires a in b.Keys
    ensures var b' := SubLocked(b, from, x);
      && b'.Keys == b.Keys && Free(b', a) == Free(b, a)
      && Congruent(LockedOf(b', a), LockedOf(b, a) - if a == from then x else 0)
  {
  }

  lemma AddFreeMod(b: Balances, whom: Address, x: U64, a: Address)
    requires a in b.Keys
    ensures var b' := AddFree(b, whom, x);
      && b'.Keys == b.Keys && LockedOf(b', a) == LockedOf(b, a)
      && Congruent(Free(b', a), Free(b, a) + if a == whom then x else 0)
  {
  }

  lemma {:induction false} SettleMod(f: Funds, fill: OrderFill, a: Address, slot: Slot)
    requires a in f.base.Keys && a in f.quote.Keys
    ensures var g := Settle(f, fill);
      && g.base.Keys == f.base.Keys && g.quote.Keys == f.quote.Keys
      && Congruent(Holds(g.base, g.quote, a, slot),
                   Holds(f.base, f.quote, a, slot)
                     + DiffAt(FillDiff(fill.buyer, fill.seller, fill.size, fill.QuoteSize()), a, slot))
  {
    hide SubLocked, AddFree, Mul64, Free, LockedOf;
    var base, quote := SubLocked(f.base, fill.seller, fill.size), AddFree(f.quote, fill.seller, fill.QuoteSize());
    SubLockedMod(f.base, fill.seller, fill.size, a);
    AddFreeMod(base, fill.buyer, fill.size, a);
    AddFreeMod(f.quote, fill.seller, fill.QuoteSize(), a);
    SubLockedMod(quote, fill.buyer, fill.QuoteSize(), a);
  }

  lemma {:induction false} SettleAllMod(f: Funds, fills: seq<OrderFill>, a: Address, slot: Slot)
    requires a in f.base.Keys && a in f.quote.Keys
    ensures var g := SettleAll(f, fills);
      && g.base.Keys == f.base.Keys && g.quote.Keys == f.quote.Keys
      && Congruent(Holds(g.base, g.quote, a, slot),
                   Holds(f.base, f.quote, a, slot) + DiffsAt(FillDiffs(fills), a, slot))
  {
    hide Settle, Holds, DiffAt, Mul64;
    if fills != [] {
      var n := |fills| - 1;
      var fill, mid := fills[n], SettleAll(f, fills[..n]);
      SettleAllMod(f, fills[..n], a, slot);
      SettleMod(mid, fill, a, slot);
      var d := FillDiff(fill.buyer, fill.seller, fill.size, fill.QuoteSize());
      assert FillDiffs(fills)[..|FillDiffs(fills)| - 1] == FillDiffs(fills[..n]);
      var g := SettleAll(f, fills);
      CongruentSum(Holds(f.base, f.quote, a, slot), Holds(mid.base, mid.quote, a, slot),
                   Holds(g.base, g.quote, a, slot), DiffsAt(FillDiffs(fills[..n]), a, slot), DiffAt(d, a, slot));
    }
  }

  lemma LockMod(s: State, o: Order, a: Address, slot: Slot)
    requires a in s.base.Keys && a in s.quote.Keys
    ensures var f := Locked(s, o);
      && f.base.Keys == s.base.Keys && f.quote.Keys == s.quote.Keys
      && Congruent(Holds(f.base, f.quote, a, slot), Holds(s.base, s.quote, a, slot) + DiffAt(CreateOf(o), a, slot))
  {
    hide Mul64, Lock;
    LockSlotsMod(s.quote, o.address, o.QuoteSize(), a);
    LockSlotsMod(s.base, o.address, o.size, a);
  }

  lemma LockSlotsMod(b: Balances, whom: Address, x: U64, a: Address)
    requires a in b.Keys
    ensures var b' := Lock(b, whom, x);
      && b'.Keys == b.Keys
      && Congruent(Free(b', a), Free(b, a) - if a == whom then x else 0)
      && Congruent(LockedOf(b', a), LockedOf(b, a) + if a == whom then x else 0)
  {
  }

  // ---- The requests ----

  // What the diffs of a placed order are: its lock first, then its fills in order.
  lemma AddDiffsAre(s: State, request: Request)
    requires request.AddOrder? && Tick(s, request).response.success
    ensures var t, fills := Tick(s, request), Limit(s.book, OrderOf(s, request)).fills;
      var notional := request.size * request.limitPrice % TWO64;
      && |t.diffs| == 1 + |fills|
      && t.diffs[0] == CreateDiff(request.address, if request.isBuy then 0 else request.size,
                                  if request.isBuy then notional else 0)
      && forall i :: 0 <= i < |fills| ==>
           t.diffs[i + 1] == FillDiff(fills[i].buyer, fills[i].seller, fills[i].size,
                                      fills[i].size * fills[i].price % TWO64)
  {
    hide Limit, SettleAll, FillDiffs;
    FillDiffsAre(Limit(s.book, OrderOf(s, request)).fills);
  }

  lemma {:induction false} FillDiffsAre(fills: seq<OrderFill>)
    ensures |FillDiffs(fills)| == |fills|
    ensures forall i :: 0 <= i < |fills| ==>
      FillDiffs(fills)[i] == FillDiff(fills[i].buyer, fills[i].seller, fills[i].size,
                                      fills[i].size * fills[i].price % TWO64)
  {
    if fills != [] {
      FillDiffsAre(fills[..|fills| - 1]);
    }
  }

  lemma {:induction false} AddMod(s: State, request: Request, a: Address, slot: Slot)
    requires request.AddOrder? && a in s.base.Keys && a in s.quote.Keys
    ensures var t := Tick(s, request);
      && t.state.base.Keys == s.base.Keys && t.state.quote.Keys == s.quote.Keys
      && Congruent(Holds(t.state.base, t.state.quote, a, slot),
                   Holds(s.base, s.quote, a, slot) + DiffsAt(t.diffs, a, slot))
  {
    hide Limit, SettleAll, Locked, FillDiffs, CreateOf, Holds, DiffsAt, DiffAt;
    var o, t := OrderOf(s, request), Tick(s, request);
    if Accepts(s, o) {
      var l, f := Limit(s.book, o), Locked(s, o);
      LockMod(s, o, a, slot);
      SettleAllMod(f, l.fills, a, slot);
      DiffsAtAppend([CreateOf(o)], FillDiffs(l.fills), a, slot);
      DiffsAtOne(CreateOf(o), a, slot);
      CongruentSum(Holds(s.base, s.quote, a, slot), Holds(f.base, f.quote, a, slot),
                   Holds(t.state.base, t.state.quote, a, slot), DiffAt(CreateOf(o), a, slot),
                   DiffsAt(FillDiffs(l.fills), a, slot));
    } else {
      DiffsAtOne(Noop, a, slot);
      NoopAt(a, slot);
    }
  }

  lemma NoopAt(a: Address, slot: Slot)
    ensures DiffAt(Noop, a, slot) == 0
  {
  }

  /** Wrapping or not, `filled_quote` is the true sum modulo 2^64. */
  lemma {:induction false} FilledQuoteMod(fills: seq<OrderFill>)
    ensures FilledQuote(fills) == Total(fills, QuoteOf()) % TWO64
  {
    hide Mul64;
    if fills != [] {
      var before, fill := fills[..|fills| - 1], fills[|fills| - 1];
      FilledQuoteMod(before);
      SumMod(Total(before, QuoteOf()), fill.size * fill.price);
      ProductMod(fill);
    }
  }

  lemma SumMod(x: int, y: int)
    ensures (x % TWO64 + y % TWO64) % TWO64 == (x + y) % TWO64
  {
  }

  lemma ProductMod(fill: OrderFill)
    ensures fill.QuoteSize() == fill.size * fill.price % TWO64
  {
  }

  // What is released of an announced amount, when some of it was traded.
  lemma ReleaseMod(x: int, y: int, announced: U64, traded: int)
    ensures Congruent(y, x + Sub64(announced, traded % TWO64)) ==> Congruent(y, x + announced - traded)
    ensures Congruent(y, x - Sub64(announced, traded % TWO64)) ==> Congruent(y, x - announced + traded)
  {
    hide Sub64, Congruent;
    SubMod(announced, traded);
    ShiftMod(x, y, Sub64(announced, traded % TWO64), announced - traded);
  }

  lemma SubMod(x: U64, y: int)
    ensures Congruent(Sub64(x, y % TWO64), x - y)
  {
  }

  lemma ShiftMod(x: int, y: int, d: int, d': int)
    requires Congruent(d, d')
    ensures Congruent(y, x + d) ==> Congruent(y, x + d')
    ensures Congruent(y, x - d) ==> Congruent(y, x - d')
  {
    if Congruent(y, x + d) {
      Multiples(y - x - d, d - d');
    }
    if Congruent(y, x - d) {
      Multiples(y - x + d, d - d');
    }
  }

  lemma Multiples(x: int, y: int)
    requires x % TWO64 == 0 && y % TWO64 == 0
    ensures (x + y) % TWO64 == 0 && (x - y) % TWO64 == 0
  {
  }

  lemma UnlockMod(b: Balances, whom: Address, x: U64, a: Address)
    requires a in b.Keys
    ensures var b' := Unlock(b, whom, x);
      && b'.Keys == b.Keys
      && Congruent(Free(b', a), Free(b, a) + if a == whom then x else 0)
      && Congruent(LockedOf(b', a), LockedOf(b, a) - if a == whom then x else 0)
  {
  }

  // What a cancel that succeeds leaves behind.
  lemma Cancelled(s: State, oid: U64)
    requires Sound(s) && Possible(s, CancelOrder(oid))
    ensures var o, st, t := Live(s.book)[oid], s.status[oid], DoCancel(s, oid);
      && t.state.base == (if o.isBuy then s.base else Unlock(s.base, o.address, Sub64(o.size, st.filledSize)))
      && t.state.quote ==
         (if o.isBuy then Unlock(s.quote, o.address, Sub64(o.QuoteSize(), FilledQuote(st.fills))) else s.quote)
      && t.diffs == [if o.isBuy then CancelDiff(o.address, 0, o.QuoteSize()) else CancelDiff(o.address, o.size, 0)]
  {
    hide BookOk, Live, Cancel;
    CancelTakes(s.book, oid);
  }

  // The slots of one asset after a release.
  lemma ReleasedMod(b: Balances, b': Balances, whom: Address, announced: U64, traded: int, a: Address)
    requires a in b.Keys && b' == Unlock(b, whom, Sub64(announced, traded % TWO64))
    ensures b'.Keys == b.Keys
    ensures a == whom ==> Congruent(Free(b', a), Free(b, a) + announced - traded)
    ensures a == whom ==> Congruent(LockedOf(b', a), LockedOf(b, a) - announced + traded)
    ensures a != whom ==> Free(b', a) == Free(b, a) && LockedOf(b', a) == LockedOf(b, a)
  {
    hide Sub64, Congruent;
    UnlockMod(b, whom, Sub64(announced, traded % TWO64), a);
    ReleaseMod(Free(b, a), Free(b', a), announced, traded);
    ReleaseMod(LockedOf(b, a), LockedOf(b', a), announced, traded);
  }

  lemma CancelSlots(s: State, oid: U64, a: Address)
    requires Sound(s) && a in s.base.Keys && Possible(s, CancelOrder(oid))
    ensures var o, s' := Live(s.book)[oid], DoCancel(s, oid).state;
      var n, q := (if o.isBuy then 0 else o.size), (if o.isBuy then o.QuoteSize() else 0);
      var sold, spent := FilledBase(s, oid), FilledQuoteOf(s, oid);
      && s'.base.Keys == s.base.Keys && s'.quote.Keys == s.quote.Keys
      && (a == o.address ==>
            && Congruent(Free(s'.base, a), Free(s.base, a) + n - sold)
            && Congruent(LockedOf(s'.base, a), LockedOf(s.base, a) - n + sold)
            && Congruent(Free(s'.quote, a), Free(s.quote, a) + q - spent)
            && Congruent(LockedOf(s'.quote, a), LockedOf(s.quote, a) - q + spent))
      && (a != o.address ==> forall slot :: Holds(s'.base, s'.quote, a, slot) == Holds(s.base, s.quote, a, slot))
  {
    hide BookOk, Live, Cancel, DoCancel, FilledQuote, Total, Mul64, Unlock, Sub64;
    var o, st, s' := Live(s.book)[oid], s.status[oid], DoCancel(s, oid).state;
    Cancelled(s, oid);
    FilledQuoteMod(st.fills);
    if o.isBuy {
      ReleasedMod(s.quote, s'.quote, o.address, o.QuoteSize(), Total(st.fills, QuoteOf()), a);
    } else {
      ReleasedMod(s.base, s'.base, o.address, o.size, st.filledSize, a);
    }
  }

  lemma {:induction false} CancelMod(s: State, oid: U64, a: Address, slot: Slot)
    requires Sound(s) && a in s.base.Keys
    ensures var t := DoCancel(s, oid);
      && t.state.base.Keys == s.base.Keys && t.state.quote.Keys == s.quote.Keys
      && Congruent(Holds(t.state.base, t.state.quote, a, slot),
                   Holds(s.base, s.quote, a, slot) + DiffsAt(t.diffs, a, slot) - CancelSurplus(s, oid, a, slot))
  {
    hide BookOk, Live, Cancel, DoCancel, FilledQuote, Total, Mul64, Unlock, FilledBase, FilledQuoteOf;
    var t := DoCancel(s, oid);
    CancelSucceeds(s, oid);
    if Possible(s, CancelOrder(oid)) {
      Cancelled(s, oid);
      CancelSlots(s, oid, a);
      DiffsAtOne(t.diffs[0], a, slot);
    } else {
      DiffsAtOne(Noop, a, slot);
    }
  }

  lemma CreditMod(b: Balances, whom: Address, x: U64, a: Address)
    ensures LockedOf(Credit(b, whom, x), a) == LockedOf(b, a)
    ensures Congruent(Free(Credit(b, whom, x), a), Free(b, a) + if a == whom then x else 0)
  {
  }

  lemma {:induction false} DepositMod(s: State, whom: Address, base: U64, quote: U64, a: Address, slot: Slot)
    ensures var t := DoDeposit(s, whom, base, quote);
      Congruent(Holds(t.state.base, t.state.quote, a, slot),
                Holds(s.base, s.quote, a, slot) + DiffsAt(t.diffs, a, slot))
  {
    hide Credit, Free, LockedOf;
    DiffsAtOne(DepositDiff(whom, base, quote), a, slot);
    CreditMod(s.base, whom, base, a);
    CreditMod(s.quote, whom, quote, a);
  }

  /** A withdrawal takes exactly its amounts or nothing. */
  lemma {:induction false} WithdrawExact(s: State, whom: Address, base: U64, quote: U64, a: Address, slot: Slot)
    ensures var t := DoWithdraw(s, whom, base, quote);
      Holds(t.state.base, t.state.quote, a, slot) == Holds(s.base, s.quote, a, slot) + DiffsAt(t.diffs, a, slot)
  {
    DiffsAtOne(DoWithdraw(s, whom, base, quote).diffs[0], a, slot);
  }

  /** Accounts come only by a deposit, and go only by a withdrawal that leaves nothing. */
  ghost function AccountsAfter(s: State, request: Request): set<Address> {
    match request
    case Deposit(a, _, _) => s.base.Keys + {a}
    case Withdraw(a, base, quote) => if Empties(s, a, base, quote) then s.base.Keys - {a} else s.base.Keys
    case AddOrder(_, _, _, _) => s.base.Keys
    case CancelOrder(_) => s.base.Keys
  }

  predicate Empties(s: State, a: Address, base: U64, quote: U64) {
    && a in s.base.Keys && a in s.quote.Keys
    && s.base[a] == AssetBalance(base, 0) && s.quote[a] == AssetBalance(quote, 0)
  }

  lemma {:induction false} AccountsComeAndGo(s: State, request: Request)
    requires s.base.Keys == s.quote.Keys
    ensures var s' := Tick(s, request).state;
      s'.base.Keys == s'.quote.Keys == AccountsAfter(s, request)
  {
    hide Cancel, Limit, SettleAll, FillDiffs, Locked;
    match request
    case AddOrder(_, _, _, _) =>
      var o := OrderOf(s, request);
      SettledKeys(Locked(s, o), Limit(s.book, o).fills);
      LockKeys(s, o);
    case CancelOrder(oid) =>
    case Deposit(_, _, _) =>
    case Withdraw(_, _, _) =>
  }

  lemma LockKeys(s: State, o: Order)
    ensures Locked(s, o).base.Keys == s.base.Keys && Locked(s, o).quote.Keys == s.quote.Keys
  {
  }

  // ---- Whole runs ----

  /** An account that is gone is not traded with any more. */
  ghost predicate Known(s: State, request: Request, a: Address) {
    request.AddOrder? || request.CancelOrder? ==>
      || a in s.base.Keys
      || forall slot :: DiffsAt(Tick(s, request).diffs, a, slot) == SurplusStep(s, request, a, slot) == 0
  }

  ghost predicate AlwaysKnown(s: State, requests: seq<Request>, a: Address) {
    requests == [] ||
    var before := requests[..|requests| - 1];
    AlwaysKnown(s, before, a) && Known(Run(s, before), requests[|requests| - 1], a)
  }

  /** In every state, modulo 2^64, a request changes each account it knows by its diffs, less
      what a cancelled order had already traded. */
  lemma {:induction false} TickMod(s: State, request: Request, a: Address, slot: Slot)
    requires Sound(s) && Known(s, request, a)
    ensures var t := Tick(s, request);
      Congruent(Holds(t.state.base, t.state.quote, a, slot),
                Holds(s.base, s.quote, a, slot) + DiffsAt(t.diffs, a, slot) - SurplusStep(s, request, a, slot))
  {
    hide BookOk, Live, DoAddOrder, DoCancel, DoDeposit, DoWithdraw, DiffsAt, CancelSurplus, Congruent, Below;
    match request
    case AddOrder(_, _, _, _) =>
      if a in s.base.Keys {
        AddMod(s, request, a, slot);
      } else {
        StaysAway(s, request, a, slot);
      }
    case CancelOrder(oid) =>
      if a in s.base.Keys {
        CancelMod(s, oid, a, slot);
      } else {
        StaysAway(s, request, a, slot);
      }
    case Deposit(whom, base, quote) =>
      DepositMod(s, whom, base, quote, a, slot);
    case Withdraw(whom, base, quote) =>
      WithdrawExact(s, whom, base, quote, a, slot);
      SameCongruent(Holds(s.base, s.quote, a, slot) + DiffsAt(Tick(s, request).diffs, a, slot));
  }

  lemma SameCongruent(x: int)
    ensures Congruent(x, x)
  {
  }

  lemma StaysAway(s: State, request: Request, a: Address, slot: Slot)
    requires s.base.Keys == s.quote.Keys && a !in s.base.Keys && (request.AddOrder? || request.CancelOrder?)
    requires Known(s, request, a)
    ensures var t := Tick(s, request);
      Congruent(Holds(t.state.base, t.state.quote, a, slot),
                Holds(s.base, s.quote, a, slot) + DiffsAt(t.diffs, a, slot) - SurplusStep(s, request, a, slot))
  {
    hide Tick, DiffsAt, CancelSurplus;
    AccountsComeAndGo(s, request);
  }

  /** On every run, from a solvent state or not: modulo 2^64, what an account holds changes
      by its diffs, less what its cancelled orders had traded, unless it was traded with
      after it had been dropped. */
  lemma {:induction false} RunMod(s: State, requests: seq<Request>, a: Address, slot: Slot)
    requires Sound(s) && s.oid + |requests| < TWO64 && AlwaysKnown(s, requests, a)
    ensures var s' := Run(s, requests);
      && Sound(s') && s'.oid <= s.oid + |requests|
      && Congruent(Holds(s'.base, s'.quote, a, slot),
                   Holds(s.base, s.quote, a, slot) + DiffsAt(RunDiffs(s, requests), a, slot)
                     - SurplusRun(s, requests, a, slot))
  {
    hide Tick, SurplusStep, Known, Holds, Sound, Congruent;
    if requests == [] {
      SameCongruent(Holds(s.base, s.quote, a, slot));
    } else {
      var before, last := requests[..|requests| - 1], requests[|requests| - 1];
      var mid, s' := Run(s, before), Run(s, requests);
      RunMod(s, before, a, slot);
      TickSound(mid, last);
      TickMod(mid, last, a, slot);
      DiffsAtAppend(RunDiffs(s, before), Tick(mid, last).diffs, a, slot);
      CongruentSum(Holds(s.base, s.quote, a, slot), Holds(mid.base, mid.quote, a, slot),
                   Holds(s'.base, s'.quote, a, slot),
                   DiffsAt(RunDiffs(s, before), a, slot) - SurplusRun(s, before, a, slot),
                   DiffsAt(Tick(mid, last).diffs, a, slot) - SurplusStep(mid, last, a, slot));
    }
  }
}
