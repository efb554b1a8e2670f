/** Whole runs: solvency, conservation and truthful batch deltas, from any solvent state. */
module Runs {
  import opened Api
  import opened BookSpec
  import opened BookInvariant
  import opened ClobSpec
  import opened StatusBook
  import opened Accounts
  import opened Owed
  import opened Ledger
  import opened Solvency

  /** A request within the statuses: orders the ledger can carry, cancels of orders no
      maker fill has touched, deposits that keep the totals within 64 bits. Withdrawals
      always are. */
  ghost predicate WithinStep(s: State, request: Request) {
    match request
    case AddOrder(_, _, _, _) => WithinAdd(s, OrderOf(s, request))
    case CancelOrder(oid) => Untouched(s, oid)
    case Deposit(_, base, quote) => TotalOf(s.base) + base < TWO64 && TotalOf(s.quote) + quote < TWO64
    case Withdraw(_, _, _) => true
  }

  /** A within-status run. */
  ghost predicate Within(s: State, requests: seq<Request>) {
    requests == [] ||
    var before := requests[..|requests| - 1];
    Within(s, before) && WithinStep(Run(s, before), requests[|requests| - 1])
  }

  /** Everything the requests deposit. */
  function DepositsOf(requests: seq<Request>, quote: bool): int {
    if requests == [] then 0
    else
      var last := requests[|requests| - 1];
      DepositsOf(requests[..|requests| - 1], quote)
        + (if last.Deposit? then if quote then last.quoteFree else last.baseFree else 0)
  }

  /** Everything the requests withdraw successfully. */
  ghost function WithdrawalsOf(s: State, requests: seq<Request>, quote: bool): int {
    if requests == [] then 0
    else
      var before, last := requests[..|requests| - 1], requests[|requests| - 1];
      WithdrawalsOf(s, before, quote)
        + (if last.Withdraw? && Tick(Run(s, before), last).response.success
           then if quote then last.quoteFree else last.baseFree else 0)
  }

  ghost function GapStep(s: State, request: Request, gap: Gaps): Gaps {
    if request.AddOrder? then GapAfterAdd(s, OrderOf(s, request), gap) else gap
  }

  /** The price improvement that the run leaves locked, account by account. */
  ghost function GapRun(s: State, requests: seq<Request>, gap: Gaps): Gaps {
    if requests == [] then gap
    else
      var before := requests[..|requests| - 1];
      GapStep(Run(s, before), requests[|requests| - 1], GapRun(s, before, gap))
  }

  ghost function SurplusStep(s: State, request: Request, a: Address, slot: Slot): int {
    if request.CancelOrder? then CancelSurplus(s, request.oid, a, slot) else 0
  }

  /** What the cancels of the run announce beyond what they move. */
  ghost function SurplusRun(s: State, requests: seq<Request>, a: Address, slot: Slot): int {
    if requests == [] then 0
    else
      var before := requests[..|requests| - 1];
      SurplusRun(s, before, a, slot) + SurplusStep(Run(s, before), requests[|requests| - 1], a, slot)
  }

  ghost predicate Changes(s: State, t: Ticked, request: Request, a: Address, slot: Slot) {
    Holds(t.state.base, t.state.quote, a, slot)
      == Holds(s.base, s.quote, a, slot) + DiffsAt(t.diffs, a, slot) - SurplusStep(s, request, a, slot)
  }

  lemma TickSolvent(s: State, request: Request, gap: Gaps)
    requires Solvent(s, gap) && WithinStep(s, request)
    ensures var t := Tick(s, request);
      && Solvent(t.state, GapStep(s, request, gap))
      && TotalOf(t.state.base) == TotalOf(s.base)
           + (if request.Deposit? then request.baseFree else 0)
           - (if request.Withdraw? && t.response.success then request.baseFree else 0)
      && TotalOf(t.state.quote) == TotalOf(s.quote)
           + (if request.Deposit? then request.quoteFree else 0)
           - (if request.Withdraw? && t.response.success then request.quoteFree else 0)
      && forall a, slot :: Changes(s, t, request, a, slot)
  {
    hide Solvent, TotalOf, DoAddOrder, DoCancel, DoDeposit, DoWithdraw;
    hide WithinAdd, GapAfterAdd, DiffsAt, Holds, CancelSurplus;
    match request
    case AddOrder(_, _, _, _) =>
      AddSolvent(s, request, gap);
    case CancelOrder(oid) =>
      CancelSolvent(s, oid, gap);
    case Deposit(a, base, quote) =>
      DepositSolvent(s, a, base, quote, gap);
    case Withdraw(a, base, quote) =>
      WithdrawSolvent(s, a, base, quote, gap);
  }

  /** On every within-status run locked funds are exactly what open orders owe plus the
      unreleased improvement, and totals are deposits minus withdrawals. */
  lemma {:induction false} RunSolvent(s: State, requests: seq<Request>, gap: Gaps)
    requires Solvent(s, gap) && Within(s, requests)
    ensures var s' := Run(s, requests);
      && Solvent(s', GapRun(s, requests, gap))
      && TotalOf(s'.base) == TotalOf(s.base) + DepositsOf(requests, false) - WithdrawalsOf(s, requests, false)
      && TotalOf(s'.quote) == TotalOf(s.quote) + DepositsOf(requests, true) - WithdrawalsOf(s, requests, true)
      && WithdrawalsOf(s, requests, false) >= 0 && WithdrawalsOf(s, requests, true) >= 0
  {
    hide Solvent, TotalOf, Tick, WithinStep;
    if requests != [] {
      var before := requests[..|requests| - 1];
      RunSolvent(s, before, gap);
      TickSolvent(Run(s, before), requests[|requests| - 1], GapRun(s, before, gap));
    }
  }

  /** The batch deltas tell the truth: what each account holds changes by the deltas of the
      batch, except for what cancelled orders had already filled. */
  lemma {:induction false} RunTruthful(s: State, requests: seq<Request>, gap: Gaps, a: Address, slot: Slot)
    requires Solvent(s, gap) && Within(s, requests)
    ensures var s' := Run(s, requests);
      Holds(s'.base, s'.quote, a, slot)
        == Holds(s.base, s.quote, a, slot) + DiffsAt(RunDiffs(s, requests), a, slot) - SurplusRun(s, requests, a, slot)
  {
    hide Solvent, TotalOf, Tick, WithinStep, Holds, SurplusStep;
    if requests != [] {
      var before, last := requests[..|requests| - 1], requests[|requests| - 1];
      RunTruthful(s, before, gap, a, slot);
      RunSolvent(s, before, gap);
      var mid := Run(s, before);
      TickSolvent(mid, last, GapRun(s, before, gap));
      assert Changes(mid, Tick(mid, last), last, a, slot);
      DiffsAtAppend(RunDiffs(s, before), Tick(mid, last).diffs, a, slot);
    }
  }

  lemma GenesisSolvent()
    ensures Solvent(GENESIS, map[]) && TotalOf(GENESIS.base) == 0 && TotalOf(GENESIS.quote) == 0
  {
    EmptyBookOk();
    forall a
      ensures BaseOwed(GENESIS.status, Live(GENESIS.book), a) == 0
      ensures QuoteOwed(GENESIS.status, Live(GENESIS.book), a) == 0
    {
      OwedNothing(GENESIS.status, Live(GENESIS.book), a);
    }
  }

  /** Solvency and conservation from the start, spelled out for every account. */
  lemma {:induction false} SolventFromGenesis(requests: seq<Request>)
    requires Within(GENESIS, requests)
    ensures var s, gap := Run(GENESIS, requests), GapRun(GENESIS, requests, map[]);
      && (forall a :: LockedOf(s.base, a) == BaseOwed(s.status, Live(s.book), a))
      && (forall a :: LockedOf(s.quote, a) == QuoteOwed(s.status, Live(s.book), a) + GapOf(gap, a))
      && (forall a :: GapOf(gap, a) >= 0)
      && TotalOf(s.base) == DepositsOf(requests, false) - WithdrawalsOf(GENESIS, requests, false)
      && TotalOf(s.quote) == DepositsOf(requests, true) - WithdrawalsOf(GENESIS, requests, true)
  {
    hide Live, BaseOwed, QuoteOwed, TotalOf, Sound, Agree, Run, GapRun;
    GenesisSolvent();
    RunSolvent(GENESIS, requests, map[]);
  }

  // ---- Runs in which no partly filled taker rests ----

  /** Every resting order has an open status with exactly what the book shows still unfilled. */
  ghost predicate AllCurrent(s: State) {
    forall oid :: oid in Live(s.book).Keys ==>
      oid in s.status.Keys && Live(s.book)[oid].size == s.status[oid].size - s.status[oid].filledSize
  }

  /** Then every fill of the next order is within its maker's status. */
  lemma CurrentFits(s: State, o: Order)
    requires Sound(s) && AllCurrent(s)
    ensures AllFit(s.status, Limit(s.book, o).fills)
  {
    hide BookOk, Live, Limit;
    var fills := Limit(s.book, o).fills;
    LimitFills(s.book, o);
    GoodFit(s.status, fills, Live(s.book), o);
  }

  lemma {:induction false} GoodFit(status: Statuses, fills: seq<OrderFill>, live: Orders, o: Order)
    requires FillsGood(fills, live, o)
    requires forall oid :: oid in live.Keys ==>
      oid in status.Keys && live[oid].size == status[oid].size - status[oid].filledSize
    ensures AllFit(status, fills)
  {
    if fills != [] {
      var before := fills[..|fills| - 1];
      GoodFit(status, before, live, o);
      assert forall i :: 0 <= i < |before| ==> fills[i] == before[i];
    }
  }

  ghost predicate WholeOrNone(s: State, o: Order) {
    var l := Limit(s.book, o); l.remaining == 0 || l.fills == []
  }

  /** An order that is filled completely, or not at all, keeps the statuses current. */
  lemma AddCurrent(s: State, request: Request)
    requires Sound(s) && Agree(s) && AllCurrent(s) && request.AddOrder? && WithinAdd(s, OrderOf(s, request))
    requires Accepts(s, OrderOf(s, request)) ==> WholeOrNone(s, OrderOf(s, request))
    ensures AllCurrent(Tick(s, request).state)
  {
    hide BookOk, Live, Limit, FillsGood;
    var o := OrderOf(s, request);
    if Accepts(s, o) {
      var l, s' := Limit(s.book, o), Tick(s, request).state;
      AddFacts(s, o);
      forall oid | oid in Live(s'.book).Keys
        ensures oid in s'.status.Keys
        ensures Live(s'.book)[oid].size == s'.status[oid].size - s'.status[oid].filledSize
      {
        LimitLive(s.book, o, oid);
        if oid != o.oid {
          assert StatusOk(s.status[oid], oid, Live(s.book));
          SettledStatus(Locked(s, o), l.fills, oid);
        }
      }
    }
  }

  lemma {:induction false} CancelCurrent(s: State, oid: U64)
    requires Sound(s) && Agree(s) && AllCurrent(s)
    ensures AllCurrent(DoCancel(s, oid).state)
  {
    hide BookOk, Live, AgreeOn;
    CancelAgrees(s, oid);
    CancelOk(s.book, oid);
    assert DoCancel(s, oid).state.book == Cancel(s.book, oid).book;
  }

  /** A request that rests no partly filled taker, as the caller sees it. */
  ghost predicate WholeStep(s: State, request: Request) {
    match request
    case AddOrder(_, isBuy, limitPrice, size) =>
      && s.oid + 1 < TWO64
      && (Accepts(s, OrderOf(s, request)) ==>
            && limitPrice > 0 && (isBuy ==> size * limitPrice < TWO64)
            && WholeOrNone(s, OrderOf(s, request)))
    case CancelOrder(oid) => Untouched(s, oid)
    case Deposit(_, base, quote) => TotalOf(s.base) + base < TWO64 && TotalOf(s.quote) + quote < TWO64
    case Withdraw(_, _, _) => true
  }

  ghost predicate Whole(s: State, requests: seq<Request>) {
    requests == [] ||
    var before := requests[..|requests| - 1];
    Whole(s, before) && WholeStep(Run(s, before), requests[|requests| - 1])
  }

  lemma {:induction false} TickCurrent(s: State, request: Request, gap: Gaps)
    requires Solvent(s, gap) && AllCurrent(s) && WholeStep(s, request)
    ensures WithinStep(s, request) && AllCurrent(Tick(s, request).state)
  {
    hide BookOk, Live, AgreeOn, LedgerOk, Limit, DoAddOrder, DoCancel, AllFit, AllCurrent, WholeOrNone, Untouched;
    match request
    case AddOrder(_, _, _, _) =>
      CurrentFits(s, OrderOf(s, request));
      AddCurrent(s, request);
    case CancelOrder(oid) =>
      CancelCurrent(s, oid);
    case Deposit(_, _, _) =>
      FundsCurrent(s, request);
    case Withdraw(_, _, _) =>
      FundsCurrent(s, request);
  }

  lemma FundsCurrent(s: State, request: Request)
    requires AllCurrent(s) && (request.Deposit? || request.Withdraw?)
    ensures AllCurrent(Tick(s, request).state)
  {
    hide Live;
    FundsFrame(s, request);
  }

  /** When no partly filled taker ever rests, every run stays within the statuses: its
      fills always fit, and only the cancels still have to be of untouched orders. */
  lemma {:induction false} WholeWithin(requests: seq<Request>)
    requires Whole(GENESIS, requests)
    ensures Within(GENESIS, requests) && AllCurrent(Run(GENESIS, requests))
  {
    hide Solvent, TotalOf, Tick, WithinStep, WholeStep, AllCurrent;
    if requests == [] {
      NothingCurrent();
    } else {
      var before := requests[..|requests| - 1];
      WholeWithin(before);
      GenesisSolvent();
      RunSolvent(GENESIS, before, map[]);
      TickCurrent(Run(GENESIS, before), requests[|requests| - 1], GapRun(GENESIS, before, map[]));
    }
  }

  lemma NothingCurrent()
    ensures AllCurrent(GENESIS)
  {
    EmptyBookOk();
  }
}
