/** Solvency, truthful diffs and conservation over whole runs of requests. */
module Solvency {
  import opened Api
  import opened Resting
  import opened BookInvariant
  import opened ClobSpec
  import opened StatusBook
  import opened Accounts
  import opened Owed
  import opened Ledger

  // ---- Deposit and withdraw ----

  lemma DepositSolvent(s: State, a: Address, base: U64, quote: U64, gap: Gaps)
    requires Solvent(s, gap) && TotalOf(s.base) + base < TWO64 && TotalOf(s.quote) + quote < TWO64
    ensures var t := DoDeposit(s, a, base, quote);
      && Solvent(t.state, gap)
      && TotalOf(t.state.base) == TotalOf(s.base) + base && TotalOf(t.state.quote) == TotalOf(s.quote) + quote
      && forall x, slot :: Holds(t.state.base, t.state.quote, x, slot)
           == Holds(s.base, s.quote, x, slot) + DiffsAt(t.diffs, x, slot)
  {
    hide BookOk, Live, BaseOwed, QuoteOwed, TotalOf, Covered, DiffsAt;
    forall x, slot
      ensures DiffsAt([DepositDiff(a, base, quote)], x, slot) == DiffAt(DepositDiff(a, base, quote), x, slot)
    {
      DiffsAtOne(DepositDiff(a, base, quote), x, slot);
    }
    CreditExact(s.base, a, base);
    CreditExact(s.quote, a, quote);
  }

  /** An account that owes nothing locked has no open order: `withdraw` never drops an owner. */
  lemma {:induction false} OwnerNeverDropped(s: State, gap: Gaps, a: Address)
    requires Solvent(s, gap) && LockedOf(s.base, a) == 0 && LockedOf(s.quote, a) == 0
    ensures forall oid :: oid in s.status.Keys ==> Live(s.book)[oid].address != a
  {
    hide BookOk, Live, BaseOwed, QuoteOwed, TotalOf;
    forall oid | oid in s.status.Keys
      ensures Live(s.book)[oid].address != a
    {
      assert StatusOk(s.status[oid], oid, Live(s.book));
      DueBounds(s.status[oid], Live(s.book)[oid]);
      OwedCovers(s.status, Live(s.book), oid);
      OwedNonNegative(s.status, Live(s.book), a);
    }
  }

  // What a successful withdrawal does before it looks for an empty account.
  function Debited(s: State, a: Address, base: U64, quote: U64): State {
    s.(base := Debit(s.base, a, base), quote := Debit(s.quote, a, quote))
  }

  lemma DebitSolvent(s: State, a: Address, base: U64, quote: U64, gap: Gaps)
    requires Solvent(s, gap) && a in s.base.Keys && s.base[a].free >= base && s.quote[a].free >= quote
    ensures var s' := Debited(s, a, base, quote);
      && Solvent(s', gap)
      && TotalOf(s'.base) == TotalOf(s.base) - base && TotalOf(s'.quote) == TotalOf(s.quote) - quote
      && forall x, slot :: Holds(s'.base, s'.quote, x, slot)
           == Holds(s.base, s.quote, x, slot) + DiffAt(WithdrawDiff(a, base, quote), x, slot)
  {
    hide BookOk, Live, BaseOwed, QuoteOwed, TotalOf, Covered;
    DebitExact(s.base, a, base);
    DebitExact(s.quote, a, quote);
  }

  lemma DropSolvent(s: State, a: Address, gap: Gaps)
    requires Solvent(s, gap) && a in s.base.Keys
    requires s.base[a] == AssetBalance(0, 0) && s.quote[a] == AssetBalance(0, 0)
    ensures var s' := s.(base := s.base - {a}, quote := s.quote - {a});
      && Solvent(s', gap)
      && TotalOf(s'.base) == TotalOf(s.base) && TotalOf(s'.quote) == TotalOf(s.quote)
      && forall x, slot :: Holds(s'.base, s'.quote, x, slot) == Holds(s.base, s.quote, x, slot)
  {
    hide LedgerOk, Agree, TotalOf, Live, BookOk;
    OwnerNeverDropped(s, gap, a);
    TotalDrop(s.base, a);
    TotalDrop(s.quote, a);
    DropLedger(s, a, gap);
  }

  lemma {:induction false} DropLedger(s: State, a: Address, gap: Gaps)
    requires Solvent(s, gap) && a in s.base.Keys
    requires s.base[a] == AssetBalance(0, 0) && s.quote[a] == AssetBalance(0, 0)
    requires forall oid :: oid in s.status.Keys ==> Live(s.book)[oid].address != a
    requires TotalOf(s.base - {a}) == TotalOf(s.base) && TotalOf(s.quote - {a}) == TotalOf(s.quote)
    ensures var s' := s.(base := s.base - {a}, quote := s.quote - {a}); Solvent(s', gap)
  {
    hide BookOk, Live, BaseOwed, QuoteOwed, TotalOf, Covered;
  }

  lemma {:induction false} WithdrawSolvent(s: State, a: Address, base: U64, quote: U64, gap: Gaps)
    requires Solvent(s, gap)
    ensures var t := DoWithdraw(s, a, base, quote);
      var paid := t.response.success;
      && Solvent(t.state, gap)
      && TotalOf(t.state.base) == TotalOf(s.base) - (if paid then base else 0)
      && TotalOf(t.state.quote) == TotalOf(s.quote) - (if paid then quote else 0)
      && forall x, slot :: Holds(t.state.base, t.state.quote, x, slot)
           == Holds(s.base, s.quote, x, slot) + DiffsAt(t.diffs, x, slot)
  {
    hide BookOk, Live, LedgerOk, TotalOf, Agree, DiffsAt;
    forall x, slot
      ensures DiffsAt([Noop], x, slot) == 0
      ensures DiffsAt([WithdrawDiff(a, base, quote)], x, slot) == DiffAt(WithdrawDiff(a, base, quote), x, slot)
    {
      NoopNothing(x, slot);
      DiffsAtOne(WithdrawDiff(a, base, quote), x, slot);
    }
    if a in s.base.Keys && a in s.quote.Keys && s.base[a].free >= base && s.quote[a].free >= quote {
      var s' := Debited(s, a, base, quote);
      DebitSolvent(s, a, base, quote, gap);
      if s'.base[a] == AssetBalance(0, 0) && s'.quote[a] == AssetBalance(0, 0) {
        DropSolvent(s', a, gap);
      }
    }
  }

  // ---- Cancel ----

  /** The wrapping sum of the source is the exact one while that fits. */
  lemma {:induction false} FilledQuoteExact(fills: seq<OrderFill>)
    requires Total(fills, QuoteOf()) < TWO64
    ensures 0 <= FilledQuote(fills) == Total(fills, QuoteOf())
  {
    hide Mul64;
    if fills != [] {
      var n := |fills| - 1;
      Product(fills[n].size, fills[n].price);
      QuoteNonNegative(fills[..n]);
      Mul64Exact(fills[n].size, fills[n].price);
      FilledQuoteExact(fills[..n]);
    }
  }

  lemma {:induction false} QuoteNonNegative(fills: seq<OrderFill>)
    ensures Total(fills, QuoteOf()) >= 0
  {
    if fills != [] {
      var n := |fills| - 1;
      Product(fills[n].size, fills[n].price);
      QuoteNonNegative(fills[..n]);
    }
  }

  /** An open order that no maker fill has touched since it rested. */
  ghost predicate Untouched(s: State, oid: U64) {
    oid in Live(s.book).Keys && oid in s.status.Keys ==> Live(s.book)[oid].size == s.status[oid].size
  }

  /** That is the same as no fill in its status naming it as the maker. */
  lemma UntouchedIff(s: State, oid: U64)
    requires Agree(s) && oid in s.status.Keys
    ensures Untouched(s, oid) <==> Total(s.status[oid].fills, MadeBy(oid)) == 0
  {
    hide Live;
    assert StatusOk(s.status[oid], oid, Live(s.book));
  }

  // The base and the quote a cancelled order had already traded.
  ghost function FilledBase(s: State, oid: U64): int
    requires oid in s.status.Keys && oid in Live(s.book).Keys
  {
    if Live(s.book)[oid].isBuy then 0 else s.status[oid].filledSize
  }

  ghost function FilledQuoteOf(s: State, oid: U64): int
    requires oid in s.status.Keys && oid in Live(s.book).Keys
  {
    if Live(s.book)[oid].isBuy then Total(s.status[oid].fills, QuoteOf()) else 0
  }

  /** What the cancel diff announces beyond what it moves: everything already filled. */
  ghost function CancelSurplus(s: State, oid: U64, a: Address, slot: Slot): int {
    if oid in s.status.Keys && oid in Live(s.book).Keys && Live(s.book)[oid].address == a then
      Moved(slot, FilledBase(s, oid), -FilledBase(s, oid), FilledQuoteOf(s, oid), -FilledQuoteOf(s, oid))
    else 0
  }

  lemma {:induction false} CancelClosed(s: State, oid: U64, gap: Gaps, base: Balances, quote: Balances)
    requires Solvent(s, gap) && oid in s.status.Keys
    requires base.Keys == s.base.Keys && quote.Keys == s.quote.Keys
    requires TotalOf(base) < TWO64 && TotalOf(quote) < TWO64
    requires var o, st := Live(s.book)[oid], s.status[oid];
      && (forall a :: LockedOf(base, a) == LockedOf(s.base, a) - (if a == o.address then BaseDue(st, o) else 0))
      && (forall a :: LockedOf(quote, a) == LockedOf(s.quote, a) - (if a == o.address then QuoteDue(st, o) else 0))
    ensures LedgerOk(Funds(base, quote, s.status - {oid}), Live(s.book) - {oid}, gap)
  {
    hide BookOk, Live, BaseOwed, QuoteOwed, TotalOf, BaseDue, QuoteDue, Covered, StatusOk;
    forall a
      ensures LockedOf(base, a) == BaseOwed(s.status - {oid}, Live(s.book), a)
      ensures LockedOf(quote, a) == QuoteOwed(s.status - {oid}, Live(s.book), a) + GapOf(gap, a)
    {
      OwedClose(s.status, Live(s.book), oid, a);
    }
    RelabelLedger(Funds(base, quote, s.status - {oid}), Live(s.book), Live(s.book) - {oid}, gap);
  }

  // The amounts of a cancel of an untouched open order, without wrapping.
  lemma {:induction false} CancelAmounts(s: State, oid: U64, gap: Gaps)
    requires Solvent(s, gap) && oid in s.status.Keys && Untouched(s, oid)
    ensures var o, st := Live(s.book)[oid], s.status[oid];
      && o.address in s.base.Keys
      && BaseDue(st, o) <= s.base[o.address].locked && QuoteDue(st, o) <= s.quote[o.address].locked
      && (o.isBuy ==> o.QuoteSize() == o.size * o.limitPrice && FilledQuote(st.fills) == Total(st.fills, QuoteOf()))
      && (o.isBuy ==> Sub64(o.QuoteSize(), FilledQuote(st.fills)) == QuoteDue(st, o))
      && (!o.isBuy ==> Sub64(o.size, st.filledSize) == BaseDue(st, o))
  {
    hide BookOk, Live, BaseOwed, QuoteOwed, TotalOf, Mul64, Total;
    var o, st := Live(s.book)[oid], s.status[oid];
    assert StatusOk(st, oid, Live(s.book)) && Covered(st, o);
    DueBounds(st, o);
    OwedCovers(s.status, Live(s.book), oid);
    if o.isBuy {
      WithinNotional(st.filledSize, st.size, o.limitPrice);
      Mul64Exact(o.size, o.limitPrice);
      FilledQuoteExact(st.fills);
    }
    assert LockedOf(s.base, o.address) == BaseOwed(s.status, Live(s.book), o.address);
    assert LockedOf(s.quote, o.address) == QuoteOwed(s.status, Live(s.book), o.address) + GapOf(gap, o.address);
  }

  lemma WithinNotional(filled: int, size: int, limit: int)
    requires filled <= size && limit >= 0
    ensures filled * limit <= size * limit
  {
    Product(size - filled, limit);
    Distribute(filled, size - filled, limit);
  }

  // What cancelling an open order comes to.
  lemma {:induction false} CancelResult(s: State, oid: U64)
    requires Sound(s) && Agree(s) && oid in s.status.Keys
    requires Live(s.book)[oid].address in s.base.Keys
    ensures var o, st, t := Live(s.book)[oid], s.status[oid], DoCancel(s, oid);
      && t.state.base == (if o.isBuy then s.base else Unlock(s.base, o.address, Sub64(o.size, st.filledSize)))
      && t.state.quote ==
         (if o.isBuy then Unlock(s.quote, o.address, Sub64(o.QuoteSize(), FilledQuote(st.fills))) else s.quote)
      && t.diffs == [if o.isBuy then CancelDiff(o.address, 0, o.QuoteSize()) else CancelDiff(o.address, o.size, 0)]
      && t.state.status == s.status - {oid} && Live(t.state.book) == Live(s.book) - {oid}
  {
    hide Live, BookOk;
    assert StatusOk(s.status[oid], oid, Live(s.book));
    CancelTakes(s.book, oid);
    CancelAgrees(s, oid);
    CancelOk(s.book, oid);
  }

  /** Cancelling keeps the ledger solvent; its diff overstates the release by exactly what
      the order had already filled. */
  lemma {:induction false} CancelSolvent(s: State, oid: U64, gap: Gaps)
    requires Solvent(s, gap) && Untouched(s, oid)
    ensures var t := DoCancel(s, oid);
      && Solvent(t.state, gap)
      && TotalOf(t.state.base) == TotalOf(s.base) && TotalOf(t.state.quote) == TotalOf(s.quote)
      && forall a, slot :: Holds(t.state.base, t.state.quote, a, slot)
           == Holds(s.base, s.quote, a, slot) + DiffsAt(t.diffs, a, slot) - CancelSurplus(s, oid, a, slot)
  {
    hide BookOk, Live, LedgerOk, TotalOf, BaseOwed, QuoteOwed, DoCancel, AgreeOn, Holds, DiffAt, Moved, DiffsAt;
    CancelSound(s, oid);
    CancelAgrees(s, oid);
    if oid in s.status.Keys {
      CancelOpen(s, oid, gap);
    } else {
      CancelUnknown(s, oid, gap);
      forall a, slot
        ensures DiffsAt([Noop], a, slot) == 0
      {
        NoopNothing(a, slot);
      }
    }
  }

  lemma NoopNothing(a: Address, slot: Slot)
    ensures DiffsAt([Noop], a, slot) == 0
  {
    DiffsAtOne(Noop, a, slot);
  }

  lemma TotalsFit(s: State, gap: Gaps)
    requires Solvent(s, gap)
    ensures TotalOf(s.base) < TWO64 && TotalOf(s.quote) < TWO64 && s.base.Keys == s.quote.Keys
  {
  }

  lemma {:induction false} CancelOpen(s: State, oid: U64, gap: Gaps)
    requires Solvent(s, gap) && Untouched(s, oid) && oid in s.status.Keys
    ensures var t := DoCancel(s, oid);
      && LedgerOk(Funds(t.state.base, t.state.quote, t.state.status), Live(t.state.book), gap)
      && TotalOf(t.state.base) == TotalOf(s.base) && TotalOf(t.state.quote) == TotalOf(s.quote)
      && forall a, slot :: Holds(t.state.base, t.state.quote, a, slot)
           == Holds(s.base, s.quote, a, slot) + DiffsAt(t.diffs, a, slot) - CancelSurplus(s, oid, a, slot)
  {
    hide BookOk, Live, TotalOf, LedgerOk, DoCancel, Total, FilledQuote, Unlock, Holds, DiffAt, DiffsAt, CancelSurplus;
    var o, st, t := Live(s.book)[oid], s.status[oid], DoCancel(s, oid);
    TotalsFit(s, gap);
    CancelAmounts(s, oid, gap);
    CancelResult(s, oid);
    if o.isBuy {
      UnlockExact(s.quote, o.address, Sub64(o.QuoteSize(), FilledQuote(st.fills)));
    } else {
      UnlockExact(s.base, o.address, Sub64(o.size, st.filledSize));
    }
    CancelClosed(s, oid, gap, t.state.base, t.state.quote);
    assert StatusOk(st, oid, Live(s.book));
    forall a, slot
      ensures Holds(t.state.base, t.state.quote, a, slot)
           == Holds(s.base, s.quote, a, slot) + DiffsAt(t.diffs, a, slot) - CancelSurplus(s, oid, a, slot)
    {
      CancelMoves(s, oid, t.state.base, t.state.quote, a, slot);
      var d := if o.isBuy then CancelDiff(o.address, 0, o.QuoteSize()) else CancelDiff(o.address, o.size, 0);
      DiffsAtOne(d, a, slot);
    }
  }

  lemma CancelMoves(s: State, oid: U64, base: Balances, quote: Balances, a: Address, slot: Slot)
    requires oid in s.status.Keys && oid in Live(s.book).Keys
    requires var o, st := Live(s.book)[oid], s.status[oid];
      && o.size == st.size
      && (o.isBuy ==> o.QuoteSize() == o.size * o.limitPrice)
      && Free(base, a) == Free(s.base, a) + (if a == o.address then BaseDue(st, o) else 0)
      && LockedOf(base, a) == LockedOf(s.base, a) - (if a == o.address then BaseDue(st, o) else 0)
      && Free(quote, a) == Free(s.quote, a) + (if a == o.address then QuoteDue(st, o) else 0)
      && LockedOf(quote, a) == LockedOf(s.quote, a) - (if a == o.address then QuoteDue(st, o) else 0)
    ensures var o := Live(s.book)[oid];
      Holds(base, quote, a, slot) == Holds(s.base, s.quote, a, slot) - CancelSurplus(s, oid, a, slot)
        + DiffAt(if o.isBuy then CancelDiff(o.address, 0, o.QuoteSize()) else CancelDiff(o.address, o.size, 0), a, slot)
  {
    hide Live, Total;
  }

  // An order without an open status leaves the book and nothing else.
  lemma {:induction false} CancelUnknown(s: State, oid: U64, gap: Gaps)
    requires Solvent(s, gap) && oid !in s.status.Keys
    ensures var t := DoCancel(s, oid);
      && t.diffs == [Noop] && t.state.base == s.base && t.state.quote == s.quote && t.state.status == s.status
      && LedgerOk(Funds(s.base, s.quote, s.status), Live(t.state.book), gap)
  {
    hide BookOk, Live, TotalOf, BaseOwed, QuoteOwed;
    CancelOk(s.book, oid);
    RelabelLedger(Funds(s.base, s.quote, s.status), Live(s.book), Live(s.book) - {oid}, gap);
  }
}
