/** The algebra of batch deltas: they do not depend on the order of the diffs, order
    deltas sum to zero, batches compose, and the deltas are the true changes. */
module DeltaAlgebra {
  import opened Api
  import opened Sums
  import opened ClobSpec
  import opened Accounts
  import opened Ledger
  import opened Solvency
  import opened Runs
  import opened DeltaSpec

  // ---- Order of the diffs ----

  ghost predicate SameAt(d: Deltas, e: Deltas, a: Address, slot: Slot) {
    && FundsAt(d.withdraws, a, slot) == FundsAt(e.withdraws, a, slot)
    && FundsAt(d.deposits, a, slot) == FundsAt(e.deposits, a, slot)
    && OrdersAt(d.orders, a, slot) == OrdersAt(e.orders, a, slot)
  }

  // Deltas are determined by their accounts and what they say of each.
  lemma SameDeltas(d: Deltas, e: Deltas)
    requires Keyed(d) && Keyed(e)
    requires d.withdraws.Keys == e.withdraws.Keys && d.deposits.Keys == e.deposits.Keys
    requires d.orders.Keys == e.orders.Keys
    requires forall a, slot :: SameAt(d, e, a, slot)
    ensures d == e
  {
    forall a | a in d.withdraws.Keys
      ensures d.withdraws[a] == e.withdraws[a]
    {
      assert SameAt(d, e, a, FreeBase) && SameAt(d, e, a, FreeQuote);
    }
    forall a | a in d.deposits.Keys
      ensures d.deposits[a] == e.deposits[a]
    {
      assert SameAt(d, e, a, FreeBase) && SameAt(d, e, a, FreeQuote);
    }
    forall a | a in d.orders.Keys
      ensures d.orders[a] == e.orders[a]
    {
      assert SameAt(d, e, a, FreeBase) && SameAt(d, e, a, FreeQuote);
      assert SameAt(d, e, a, LockedBase) && SameAt(d, e, a, LockedQuote);
    }
  }

  lemma CommutesAt(d: Deltas, x: Diff, y: Diff, a: Address, slot: Slot)
    ensures SameAt(Apply(Apply(d, x), y), Apply(Apply(d, y), x), a, slot)
  {
    hide Apply, FundsAt, OrdersAt, WithdrawAt, DepositAt, OrderAt;
    ApplyAt(d, x, a, slot);
    ApplyAt(d, y, a, slot);
    ApplyAt(Apply(d, x), y, a, slot);
    ApplyAt(Apply(d, y), x, a, slot);
  }

  /** `Diff::apply` commutes. */
  lemma {:induction false} ApplyCommutes(d: Deltas, x: Diff, y: Diff)
    requires Keyed(d)
    ensures Apply(Apply(d, x), y) == Apply(Apply(d, y), x)
  {
    hide Apply, Keyed, SameAt, WithdrawUsers, DepositUsers, OrderUsers;
    forall a, slot
      ensures SameAt(Apply(Apply(d, x), y), Apply(Apply(d, y), x), a, slot)
    {
      CommutesAt(d, x, y, a, slot);
    }
    ApplyKeys(d, x);
    ApplyKeys(d, y);
    ApplyKeys(Apply(d, x), y);
    ApplyKeys(Apply(d, y), x);
    SameDeltas(Apply(Apply(d, x), y), Apply(Apply(d, y), x));
  }

  lemma {:induction false} AllKeyed(d: Deltas, diffs: seq<Diff>)
    requires Keyed(d)
    ensures Keyed(ApplyAll(d, diffs))
  {
    hide Apply, Keyed;
    if diffs != [] {
      var n := |diffs| - 1;
      AllKeyed(d, diffs[..n]);
      ApplyKeys(ApplyAll(d, diffs[..n]), diffs[n]);
    }
  }

  lemma {:induction false} MoveToEnd(d: Deltas, diffs: seq<Diff>, k: nat)
    requires Keyed(d) && k < |diffs|
    ensures ApplyAll(d, diffs) == Apply(ApplyAll(d, diffs[..k] + diffs[k + 1..]), diffs[k])
  {
    hide Apply, Keyed;
    var n := |diffs| - 1;
    var rest := diffs[..k] + diffs[k + 1..];
    if k == n {
      assert rest == diffs[..n];
    } else {
      var front := diffs[..n][..k] + diffs[..n][k + 1..];
      MoveToEnd(d, diffs[..n], k);
      AllKeyed(d, front);
      ApplyCommutes(ApplyAll(d, front), diffs[k], diffs[n]);
      assert rest[..|rest| - 1] == front && rest[|rest| - 1] == diffs[n];
    }
  }

  /** The deltas depend only on which diffs there are, and how often. */
  lemma {:induction false} DeltasOfMultiset(d: Deltas, xs: seq<Diff>, ys: seq<Diff>)
    requires Keyed(d) && multiset(xs) == multiset(ys)
    ensures ApplyAll(d, xs) == ApplyAll(d, ys)
    decreases |xs|
  {
    hide Apply, Keyed;
    if xs == [] {
      assert |multiset(ys)| == 0;
    } else {
      var n := |xs| - 1;
      assert xs == xs[..n] + [xs[n]];
      assert xs[n] in multiset(ys);
      var k :| 0 <= k < |ys| && ys[k] == xs[n];
      assert ys == ys[..k] + [ys[k]] + ys[k + 1..];
      assert multiset(xs[..n]) == multiset(xs) - multiset{xs[n]};
      assert multiset(ys[..k] + ys[k + 1..]) == multiset(ys) - multiset{ys[k]};
      DeltasOfMultiset(d, xs[..n], ys[..k] + ys[k + 1..]);
      MoveToEnd(d, ys, k);
    }
  }

  // ---- Order deltas sum to zero ----

  ghost function BaseOf(m: OrderDeltas): Address -> int {
    (a: Address) => OrderFor(m, a).freeBase + OrderFor(m, a).lockedBase
  }

  ghost function QuoteIn(m: OrderDeltas): Address -> int {
    (a: Address) => OrderFor(m, a).freeQuote + OrderFor(m, a).lockedQuote
  }

  ghost function BaseSum(m: OrderDeltas): int { Sum(m.Keys, BaseOf(m)) }

  ghost function QuoteSum(m: OrderDeltas): int { Sum(m.Keys, QuoteIn(m)) }

  // Summing over one more account that has nothing yet changes nothing.
  lemma SumJoin(keys: set<Address>, f: Address -> int, a: Address)
    requires a !in keys ==> f(a) == 0
    ensures Sum(keys + {a}, f) == Sum(keys, f)
  {
    if a in keys {
      assert keys + {a} == keys;
    } else {
      SumPick(keys + {a}, f, a);
      assert keys + {a} - {a} == keys;
    }
  }

  lemma AddToOrdersSums(m: OrderDeltas, a: Address, freeBase: int, lockedBase: int, freeQuote: int, lockedQuote: int)
    ensures var m' := AddToOrders(m, a, freeBase, lockedBase, freeQuote, lockedQuote);
      && BaseSum(m') == BaseSum(m) + freeBase + lockedBase
      && QuoteSum(m') == QuoteSum(m) + freeQuote + lockedQuote
  {
    var m' := AddToOrders(m, a, freeBase, lockedBase, freeQuote, lockedQuote);
    assert m'.Keys == m.Keys + {a};
    SumJoin(m.Keys, BaseOf(m), a);
    SumJoin(m.Keys, QuoteIn(m), a);
    SumShift(m'.Keys, BaseOf(m), BaseOf(m'), a, freeBase + lockedBase);
    SumShift(m'.Keys, QuoteIn(m), QuoteIn(m'), a, freeQuote + lockedQuote);
  }

  lemma ApplySums(d: Deltas, x: Diff)
    ensures BaseSum(Apply(d, x).orders) == BaseSum(d.orders) && QuoteSum(Apply(d, x).orders) == QuoteSum(d.orders)
  {
    hide AddToOrders, BaseSum, QuoteSum;
    match x
    case FillDiff(buyer, seller, base, quote) =>
      AddToOrdersSums(d.orders, buyer, base, 0, 0, -(quote as int));
      AddToOrdersSums(AddToOrders(d.orders, buyer, base, 0, 0, -(quote as int)), seller, 0, -(base as int), quote, 0);
    case CancelDiff(user, base, quote) =>
      AddToOrdersSums(d.orders, user, base, -(base as int), quote, -(quote as int));
    case CreateDiff(user, base, quote) =>
      AddToOrdersSums(d.orders, user, -(base as int), base, -(quote as int), quote);
    case WithdrawDiff(_, _, _) =>
    case DepositDiff(_, _, _) =>
    case Noop =>
  }

  /** Over all accounts, the order deltas of any diffs create and destroy nothing. */
  lemma {:induction false} OrdersSumToZero(diffs: seq<Diff>)
    ensures BaseSum(ApplyAll(NO_DELTAS, diffs).orders) == 0 && QuoteSum(ApplyAll(NO_DELTAS, diffs).orders) == 0
  {
    hide Apply;
    if diffs != [] {
      var n := |diffs| - 1;
      OrdersSumToZero(diffs[..n]);
      ApplySums(ApplyAll(NO_DELTAS, diffs[..n]), diffs[n]);
    }
  }

  // ---- Net changes and composition ----

  /** Account by account, the folded deltas are the sums of the diffs. */
  lemma {:induction false} NetIsSum(diffs: seq<Diff>, a: Address, slot: Slot)
    ensures NetAt(ApplyAll(NO_DELTAS, diffs), a, slot) == DiffsAt(diffs, a, slot)
  {
    hide Apply, FundsAt, OrdersAt, DiffAt;
    if diffs == [] {
      NothingAt(a, slot);
    } else {
      var n := |diffs| - 1;
      NetIsSum(diffs[..n], a, slot);
      ApplyAt(ApplyAll(NO_DELTAS, diffs[..n]), diffs[n], a, slot);
      DiffParts(diffs[n], a, slot);
    }
  }

  lemma NothingAt(a: Address, slot: Slot)
    ensures FundsAt(map[], a, slot) == 0 && OrdersAt(map[], a, slot) == 0
  {
  }

  // A diff is a deposit, a withdrawal or a change of orders.
  lemma DiffParts(x: Diff, a: Address, slot: Slot)
    ensures DiffAt(x, a, slot) == DepositAt(x, a, slot) + OrderAt(x, a, slot) - WithdrawAt(x, a, slot)
  {
  }

  lemma {:induction false} RunCompose(s: State, xs: seq<Request>, ys: seq<Request>)
    ensures Run(s, xs + ys) == Run(Run(s, xs), ys)
    ensures RunDiffs(s, xs + ys) == RunDiffs(s, xs) + RunDiffs(Run(s, xs), ys)
  {
    hide Tick;
    if ys == [] {
      assert xs + ys == xs;
    } else {
      var n := |ys| - 1;
      RunCompose(s, xs, ys[..n]);
      assert (xs + ys)[..|xs + ys| - 1] == xs + ys[..n];
      assert (xs + ys)[|xs + ys| - 1] == ys[n];
      assert RunDiffs(s, xs) + (RunDiffs(Run(s, xs), ys[..n]) + Tick(Run(Run(s, xs), ys[..n]), ys[n]).diffs)
          == RunDiffs(s, xs) + RunDiffs(Run(s, xs), ys[..n]) + Tick(Run(Run(s, xs), ys[..n]), ys[n]).diffs;
    }
  }

  lemma {:induction false} ApplyAllAppend(d: Deltas, xs: seq<Diff>, ys: seq<Diff>)
    ensures ApplyAll(d, xs + ys) == ApplyAll(ApplyAll(d, xs), ys)
  {
    hide Apply;
    if ys == [] {
      assert xs + ys == xs;
    } else {
      var n := |ys| - 1;
      ApplyAllAppend(d, xs, ys[..n]);
      assert (xs + ys)[..|xs + ys| - 1] == xs + ys[..n];
    }
  }

  // Folding from `d` adds, account by account, what folding from nothing gives.
  ghost predicate Adds(d: Deltas, e: Deltas, both: Deltas, a: Address, slot: Slot) {
    && FundsAt(both.withdraws, a, slot) == FundsAt(d.withdraws, a, slot) + FundsAt(e.withdraws, a, slot)
    && FundsAt(both.deposits, a, slot) == FundsAt(d.deposits, a, slot) + FundsAt(e.deposits, a, slot)
    && OrdersAt(both.orders, a, slot) == OrdersAt(d.orders, a, slot) + OrdersAt(e.orders, a, slot)
  }

  lemma {:induction false} FoldAdds(d: Deltas, diffs: seq<Diff>, a: Address, slot: Slot)
    ensures Adds(d, ApplyAll(NO_DELTAS, diffs), ApplyAll(d, diffs), a, slot)
  {
    hide Apply, FundsAt, OrdersAt, WithdrawAt, DepositAt, OrderAt;
    if diffs == [] {
      NothingAt(a, slot);
    } else {
      var n := |diffs| - 1;
      FoldAdds(d, diffs[..n], a, slot);
      ApplyAt(ApplyAll(d, diffs[..n]), diffs[n], a, slot);
      ApplyAt(ApplyAll(NO_DELTAS, diffs[..n]), diffs[n], a, slot);
    }
  }

  lemma {:induction false} FoldKeys(d: Deltas, diffs: seq<Diff>)
    ensures var e, both := ApplyAll(NO_DELTAS, diffs), ApplyAll(d, diffs);
      && both.withdraws.Keys == d.withdraws.Keys + e.withdraws.Keys
      && both.deposits.Keys == d.deposits.Keys + e.deposits.Keys
      && both.orders.Keys == d.orders.Keys + e.orders.Keys
  {
    hide Apply, WithdrawUsers, DepositUsers, OrderUsers;
    if diffs != [] {
      var n := |diffs| - 1;
      FoldKeys(d, diffs[..n]);
      ApplyKeys(ApplyAll(d, diffs[..n]), diffs[n]);
      ApplyKeys(ApplyAll(NO_DELTAS, diffs[..n]), diffs[n]);
    }
  }

  /** Two batches in a row are one batch: same final state, the same accounts listed, and
      for every account each of the three kinds of delta adds up. */
  lemma {:induction false} BatchesCompose(s: State, xs: seq<Request>, ys: seq<Request>, a: Address, slot: Slot)
    ensures Run(s, xs + ys) == Run(Run(s, xs), ys)
    ensures var d, e, both := StfDeltas(s, xs), StfDeltas(Run(s, xs), ys), StfDeltas(s, xs + ys);
      && FundsAt(both.withdraws, a, slot) == FundsAt(d.withdraws, a, slot) + FundsAt(e.withdraws, a, slot)
      && FundsAt(both.deposits, a, slot) == FundsAt(d.deposits, a, slot) + FundsAt(e.deposits, a, slot)
      && OrdersAt(both.orders, a, slot) == OrdersAt(d.orders, a, slot) + OrdersAt(e.orders, a, slot)
      && both.withdraws.Keys == d.withdraws.Keys + e.withdraws.Keys
      && both.deposits.Keys == d.deposits.Keys + e.deposits.Keys
      && both.orders.Keys == d.orders.Keys + e.orders.Keys
  {
    hide FundsAt, OrdersAt, ApplyAll, Tick, Run, RunDiffs;
    RunCompose(s, xs, ys);
    ApplyAllAppend(NO_DELTAS, RunDiffs(s, xs), RunDiffs(Run(s, xs), ys));
    FoldAdds(StfDeltas(s, xs), RunDiffs(Run(s, xs), ys), a, slot);
    FoldKeys(StfDeltas(s, xs), RunDiffs(Run(s, xs), ys));
  }

  /** On every within-status run the batch deltas of an account are what it gained, but for
      what the orders cancelled in the batch had already traded. */
  lemma {:induction false} DeltasTruthful(s: State, requests: seq<Request>, gap: Gaps, a: Address, slot: Slot)
    requires Solvent(s, gap) && Within(s, requests)
    ensures var s' := Run(s, requests);
      NetAt(StfDeltas(s, requests), a, slot)
        == Holds(s'.base, s'.quote, a, slot) - Holds(s.base, s.quote, a, slot) + SurplusRun(s, requests, a, slot)
  {
    hide NetAt, Solvent, Within, TotalOf, Run, RunDiffs, SurplusRun, Holds;
    RunTruthful(s, requests, gap, a, slot);
    NetIsSum(RunDiffs(s, requests), a, slot);
  }

  // ---- When cancelled orders had traded nothing ----

  ghost predicate CancelsUnfilled(s: State, requests: seq<Request>) {
    requests == [] ||
    var before, last := requests[..|requests| - 1], requests[|requests| - 1];
    && CancelsUnfilled(s, before)
    && (last.CancelOrder? ==> Unfilled(Run(s, before), last.oid))
  }

  ghost predicate Unfilled(s: State, oid: U64) {
    oid in s.status.Keys ==> s.status[oid].fills == [] && s.status[oid].filledSize == 0
  }

  lemma UnfilledNoSurplus(s: State, oid: U64, a: Address, slot: Slot)
    requires Unfilled(s, oid)
    ensures CancelSurplus(s, oid, a, slot) == 0
  {
  }

  lemma {:induction false} NoSurplus(s: State, requests: seq<Request>, a: Address, slot: Slot)
    requires CancelsUnfilled(s, requests)
    ensures SurplusRun(s, requests, a, slot) == 0
  {
    hide Tick, CancelSurplus, Unfilled;
    if requests != [] {
      var before, last := requests[..|requests| - 1], requests[|requests| - 1];
      NoSurplus(s, before, a, slot);
      if last.CancelOrder? {
        UnfilledNoSurplus(Run(s, before), last.oid, a, slot);
      }
    }
  }

  /** Then the deltas tell the whole truth. */
  lemma {:induction false} DeltasExact(s: State, requests: seq<Request>, gap: Gaps, a: Address, slot: Slot)
    requires Solvent(s, gap) && Within(s, requests) && CancelsUnfilled(s, requests)
    ensures var s' := Run(s, requests);
      NetAt(StfDeltas(s, requests), a, slot) == Holds(s'.base, s'.quote, a, slot) - Holds(s.base, s.quote, a, slot)
  {
    hide NetAt, Solvent, Within, TotalOf, Run, RunDiffs, SurplusRun, Holds;
    DeltasTruthful(s, requests, gap, a, slot);
    NoSurplus(s, requests, a, slot);
  }
}
