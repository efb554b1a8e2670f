/** What the responses and the Noop diff tell a caller. */
module Responses {
  import opened Api
  import opened BookSpec
  import opened Resting
  import opened BookInvariant
  import opened ClobSpec
  import opened StatusBook
  import opened Accounts
  import opened Owed
  import opened Ledger

  function Succeeds(response: Response): bool {
    match response
    case OrderAdded(success, _) => success
    case OrderCancelled(success, _) => success
    case Deposited(success) => success
    case Withdrawn(success) => success
  }

  /** What a request needs to succeed, as the caller can check beforehand. */
  ghost predicate Possible(s: State, request: Request) {
    match request
    case AddOrder(a, isBuy, limitPrice, size) =>
      && a in s.base.Keys && a in s.quote.Keys
      && if isBuy then s.quote[a].free >= size * limitPrice % TWO64 else s.base[a].free >= size
    case CancelOrder(oid) =>
      && oid in Live(s.book).Keys && oid in s.status.Keys
      && Live(s.book)[oid].address in s.base.Keys
    case Deposit(_, _, _) => true
    case Withdraw(a, base, quote) =>
      a in s.base.Keys && a in s.quote.Keys && s.base[a].free >= base && s.quote[a].free >= quote
  }

  // A cancel succeeds on open orders of existing accounts. Of other resting orders it clears
  // the book, and the status of one whose account is gone.
  lemma {:induction false} CancelSucceeds(s: State, oid: U64)
    requires Sound(s)
    ensures var t := DoCancel(s, oid);
      && (Succeeds(t.response) <==> Possible(s, CancelOrder(oid)))
      && (!Possible(s, CancelOrder(oid)) ==> t.response == OrderCancelled(false, None))
      && t.state.oid == s.oid && t.response.OrderCancelled?
      && (t.diffs == [Noop] <==> !Possible(s, CancelOrder(oid)))
      && t.state.book == Cancel(s.book, oid).book
      && (Possible(s, CancelOrder(oid)) ==> t.response == OrderCancelled(true, Some(s.status[oid])))
      && (!Possible(s, CancelOrder(oid)) ==> t.state == s.(book := t.state.book, status := t.state.status))
      && t.state.status == if oid in Live(s.book).Keys then s.status - {oid} else s.status
  {
    hide BookOk, Live, Cancel;
    CancelOk(s.book, oid);
    if oid in Live(s.book).Keys {
      CancelTakes(s.book, oid);
    }
  }

  // A cancel of an open order whose account is gone.
  ghost predicate Ownerless(s: State, request: Request) {
    && request.CancelOrder? && request.oid in Live(s.book).Keys && request.oid in s.status.Keys
    && Live(s.book)[request.oid].address !in s.base.Keys
  }

  /** Solvent states have no such orders. */
  lemma {:induction false} NoneOwnerless(s: State, request: Request, gap: Gaps)
    requires Solvent(s, gap)
    ensures !Ownerless(s, request)
  {
    hide BookOk, Live, TotalOf, BaseOwed, QuoteOwed, Covered, StatusOk;
  }

  /** An order is accepted if and only if its account exists with both balances and has free
      what the order locks: its notional, modulo 2^64, or its size. Nothing else matters, not
      what the account has locked, nor what it has in the other asset. */
  lemma {:induction false} AcceptsIff(s: State, request: Request)
    requires request.AddOrder?
    ensures var a := request.address;
      Tick(s, request).response.success <==>
        && a in s.base.Keys && a in s.quote.Keys
        && (request.isBuy ==> s.quote[a].free >= request.size * request.limitPrice % TWO64)
        && (!request.isBuy ==> s.base[a].free >= request.size)
    ensures Tick(s, request).response.success <==> Accepts(s, OrderOf(s, request))
  {
    hide Limit, SettleAll, FillDiffs;
  }

  // A response that reports no success reports no status either.
  predicate Empty(response: Response) {
    match response
    case OrderAdded(_, status) => status.None?
    case OrderCancelled(_, fillStatus) => fillStatus.None?
    case Deposited(_) => true
    case Withdrawn(_) => true
  }

  // The response is of the request's kind.
  predicate Answers(response: Response, request: Request) {
    match request
    case AddOrder(_, _, _, _) => response.OrderAdded?
    case CancelOrder(_) => response.OrderCancelled?
    case Deposit(_, _, _) => response.Deposited?
    case Withdraw(_, _, _) => response.Withdrawn?
  }

  /** A request succeeds exactly when it is possible. If not, it reports nothing, its diff is
      Noop, no balance has changed, and no status but that of an ownerless order. An order id
      is used up exactly by an order whose account exists. */
  lemma {:induction false} ResponseTells(s: State, request: Request)
    requires Sound(s)
    ensures var t := Tick(s, request);
      && (Succeeds(t.response) <==> Possible(s, request))
      && (t.diffs == [Noop] <==> !Possible(s, request))
      && Answers(t.response, request) && (!Possible(s, request) ==> Empty(t.response))
      && t.state.oid == (if request.AddOrder? && request.address in s.base.Keys then (s.oid + 1) % TWO64 else s.oid)
      && (!Possible(s, request) ==> t.state.base == s.base && t.state.quote == s.quote)
      && (!Possible(s, request) ==>
            t.state.status == if Ownerless(s, request) then s.status - {request.oid} else s.status)
  {
    hide BookOk, Live, DoCancel, Limit, SettleAll, FillDiffs;
    if request.CancelOrder? {
      CancelSucceeds(s, request.oid);
    }
    if request.AddOrder? && Accepts(s, OrderOf(s, request)) {
      assert Tick(s, request).diffs[0] == CreateOf(OrderOf(s, request));
    }
  }

  ghost predicate ChangesAnyway(s: State, request: Request) {
    || (request.AddOrder? && request.address in s.base.Keys)
    || (request.CancelOrder? && request.oid in Live(s.book).Keys)
  }

  /** Noop does not always mean that nothing changed: an order its account cannot afford
      uses up an order id, and cancelling a resting order without an open status, or without
      an account, takes it off the book. In all other cases it does. */
  lemma {:induction false} NoopIff(s: State, request: Request)
    requires Sound(s) && Tick(s, request).diffs == [Noop]
    ensures Tick(s, request).state == s <==> !ChangesAnyway(s, request)
  {
    hide BookOk, Live, DoCancel, Limit, SettleAll, FillDiffs;
    ResponseTells(s, request);
    if request.CancelOrder? {
      CancelSucceeds(s, request.oid);
      CancelChanges(s, request.oid);
    }
  }

  lemma CancelChanges(s: State, oid: U64)
    requires Sound(s)
    ensures Cancel(s.book, oid).book == s.book <==> oid !in Live(s.book).Keys
  {
    hide Live;
    CancelOk(s.book, oid);
    if oid in Live(s.book).Keys {
      CancelTakes(s.book, oid);
      assert oid !in Cancel(s.book, oid).book.oidToLevel.Keys;
    }
  }

  /** The status reported for an accepted order says exactly what was traded, and is the
      one stored if and only if something of the order is left. */
  lemma {:induction false} OrderStatusTells(s: State, request: Request)
    requires Sound(s) && request.AddOrder? && Accepts(s, OrderOf(s, request))
    ensures var o, t := OrderOf(s, request), Tick(s, request);
      var fills := Limit(s.book, o).fills;
      var st := FillStatus(s.oid, o.size, o.address, o.size - Limit(s.book, o).remaining, fills);
      && t.response == OrderAdded(true, Some(st))
      && st.filledSize == Total(fills, SizeOf())
      && (s.oid in t.state.status.Keys <==> st.filledSize < o.size)
      && (s.oid in t.state.status.Keys ==> t.state.status[s.oid] == st)
      && (s.oid in Live(t.state.book).Keys <==> st.filledSize < o.size)
  {
    hide BookOk, Live, Limit, SettleAll, FillDiffs;
    var o := OrderOf(s, request);
    NewStatus(s, o);
    LimitLive(s.book, o, s.oid);
  }

  /** Withdrawing what was just deposited restores the state, except that it also removes an
      account that had nothing before. */
  lemma WithdrawUndoesDepositIff(s: State, a: Address, base: U64, quote: U64)
    requires s.base.Keys == s.quote.Keys
    requires Free(s.base, a) + base < TWO64 && Free(s.quote, a) + quote < TWO64
    ensures var t := DoWithdraw(DoDeposit(s, a, base, quote).state, a, base, quote);
      && t.response == Withdrawn(true)
      && (t.state == s <==> !(a in s.base.Keys && s.base[a] == s.quote[a] == AssetBalance(0, 0)))
  {
    var mid := DoDeposit(s, a, base, quote).state;
    var b, q := Debit(mid.base, a, base), Debit(mid.quote, a, quote);
    if a in s.base.Keys {
      assert b == s.base && q == s.quote;
      assert a !in (b - {a}).Keys;
    } else {
      assert b - {a} == s.base && q - {a} == s.quote;
    }
  }
}
