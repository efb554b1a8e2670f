/** What the listed result of a batch says, account by account. */
module StfResults {
  import opened Api
  import opened ClobSpec
  import opened BookInvariant
  import opened StatusBook
  import opened FillHistory
  import opened Responses
  import opened Accounts
  import opened Ledger
  import opened Runs
  import opened ModularDiffs
  import opened DeltaSpec
  import opened DeltaAlgebra
  import opened Stf

  // ---- What accounts deposit and withdraw in a batch ----

  function Amount(request: Request, slot: Slot): int
    requires request.Deposit? || request.Withdraw?
  {
    Moved(slot, request.baseFree, 0, request.quoteFree, 0)
  }

  ghost function DepositsBy(requests: seq<Request>, a: Address, slot: Slot): int {
    if requests == [] then 0
    else
      var last := requests[|requests| - 1];
      DepositsBy(requests[..|requests| - 1], a, slot)
        + if last.Deposit? && last.address == a then Amount(last, slot) else 0
  }

  /** Only withdrawals that succeed. */
  ghost function WithdrawalsBy(s: State, requests: seq<Request>, a: Address, slot: Slot): int {
    if requests == [] then 0
    else
      var before, last := requests[..|requests| - 1], requests[|requests| - 1];
      WithdrawalsBy(s, before, a, slot)
        + if Withdraws(Run(s, before), last) && last.address == a then Amount(last, slot) else 0
  }

  ghost predicate Withdraws(s: State, request: Request) {
    request.Withdraw? && Tick(s, request).response.success
  }

  ghost function Depositors(requests: seq<Request>): set<Address> {
    if requests == [] then {}
    else
      var last := requests[|requests| - 1];
      Depositors(requests[..|requests| - 1]) + if last.Deposit? then {last.address} else {}
  }

  ghost function Withdrawers(s: State, requests: seq<Request>): set<Address> {
    if requests == [] then {}
    else
      var before, last := requests[..|requests| - 1], requests[|requests| - 1];
      Withdrawers(s, before) + if Withdraws(Run(s, before), last) then {last.address} else {}
  }

  // ---- The deltas of one request ----

  lemma {:induction false} OnlyOrders(d: Deltas, diffs: seq<Diff>)
    requires forall i :: 0 <= i < |diffs| ==> !diffs[i].DepositDiff? && !diffs[i].WithdrawDiff?
    ensures ApplyAll(d, diffs).deposits == d.deposits && ApplyAll(d, diffs).withdraws == d.withdraws
  {
    if diffs != [] {
      OnlyOrders(d, diffs[..|diffs| - 1]);
    }
  }

  lemma {:induction false} FillDiffsAreFills(fills: seq<OrderFill>)
    ensures forall i :: 0 <= i < |FillDiffs(fills)| ==> FillDiffs(fills)[i].FillDiff?
  {
    if fills != [] {
      FillDiffsAreFills(fills[..|fills| - 1]);
    }
  }

  // What kind of diffs a request leaves.
  lemma DiffKinds(s: State, request: Request)
    ensures var t := Tick(s, request);
      && (request.Deposit? ==> t.diffs == [DepositDiff(request.address, request.baseFree, request.quoteFree)])
      && (Withdraws(s, request) ==> t.diffs == [WithdrawDiff(request.address, request.baseFree, request.quoteFree)])
      && (!request.Deposit? && !Withdraws(s, request) ==>
            forall i :: 0 <= i < |t.diffs| ==> !t.diffs[i].DepositDiff? && !t.diffs[i].WithdrawDiff?)
  {
    hide BookSpec.Limit, BookSpec.Cancel, SettleAll, FillDiffs;
    if request.AddOrder? {
      FillDiffsAreFills(BookSpec.Limit(s.book, OrderOf(s, request)).fills);
    }
  }

  lemma OneDiff(d: Deltas, x: Diff)
    ensures ApplyAll(d, [x]) == Apply(d, x)
  {
    assert [x][..0] == [];
  }

  lemma RequestDeltas(d: Deltas, s: State, request: Request, a: Address, slot: Slot)
    ensures var d' := ApplyAll(d, Tick(s, request).diffs);
      && FundsAt(d'.deposits, a, slot)
         == FundsAt(d.deposits, a, slot)
              + (if request.Deposit? && request.address == a then Amount(request, slot) else 0)
      && FundsAt(d'.withdraws, a, slot)
         == FundsAt(d.withdraws, a, slot)
              + (if Withdraws(s, request) && request.address == a then Amount(request, slot) else 0)
      && d'.deposits.Keys == d.deposits.Keys + (if request.Deposit? then {request.address} else {})
      && d'.withdraws.Keys == d.withdraws.Keys + (if Withdraws(s, request) then {request.address} else {})
  {
    hide Tick, ApplyAll;
    DiffKinds(s, request);
    if request.Deposit? || Withdraws(s, request) {
      OneDiff(d, Tick(s, request).diffs[0]);
    } else {
      OnlyOrders(d, Tick(s, request).diffs);
    }
  }

  lemma {:induction false} BatchDeltas(s: State, requests: seq<Request>, a: Address, slot: Slot)
    ensures var d := StfDeltas(s, requests);
      && FundsAt(d.deposits, a, slot) == DepositsBy(requests, a, slot)
      && FundsAt(d.withdraws, a, slot) == WithdrawalsBy(s, requests, a, slot)
      && d.deposits.Keys == Depositors(requests) && d.withdraws.Keys == Withdrawers(s, requests)
  {
    hide Tick, Run, ApplyAll, FundsAt, Amount, Withdraws;
    if requests == [] {
      NoDeltas(a, slot);
    } else {
      var before, last := requests[..|requests| - 1], requests[|requests| - 1];
      var mid := Run(s, before);
      BatchDeltas(s, before, a, slot);
      ApplyAllAppend(NO_DELTAS, RunDiffs(s, before), Tick(mid, last).diffs);
      RequestDeltas(StfDeltas(s, before), mid, last, a, slot);
    }
  }

  lemma NoDeltas(a: Address, slot: Slot)
    ensures ApplyAll(NO_DELTAS, []) == NO_DELTAS
    ensures FundsAt(NO_DELTAS.deposits, a, slot) == FundsAt(NO_DELTAS.withdraws, a, slot) == 0
  {
  }

  // ---- The lists ----

  /** The accounts of a list rise strictly and are exactly these. */
  ghost predicate AccountsAre<T>(list: seq<T>, account: T -> Address, accounts: set<Address>) {
    && (forall i, j :: 0 <= i < j < |list| ==> account(list[i]) < account(list[j]))
    && (forall i :: 0 <= i < |list| ==> account(list[i]) in accounts)
    && (forall a :: a in accounts ==> exists i :: 0 <= i < |list| && account(list[i]) == a)
  }

  lemma {:induction false} ListAccounts<T(!new)>(list: seq<T>, m: map<Address, T>, account: T -> Address)
    requires Lists(list, m, account)
    ensures AccountsAre(list, account, m.Keys)
  {
    var accounts := AccountsOf(list, account);
    forall i, j | 0 <= i < j < |list|
      ensures account(list[i]) < account(list[j])
    {
      assert accounts[i] < accounts[j];
    }
    forall a | a in m.Keys
      ensures exists i :: 0 <= i < |list| && account(list[i]) == a
    {
      assert a in accounts;
      var i :| 0 <= i < |accounts| && accounts[i] == a;
      assert account(list[i]) == a;
    }
  }

  /** The deposit list has one entry, in rising order, for exactly the accounts that deposit
      in the batch, with the sums of their deposits; the withdrawal list likewise for the
      withdrawals that succeed. */
  lemma {:induction false} FundsListed(s: State, requests: seq<Request>, result: ClobResultDeltas)
    requires ListsDeltas(result, StfDeltas(s, requests))
    ensures AccountsAre(result.depositDeltas, FundsAccount(), Depositors(requests))
    ensures AccountsAre(result.withdrawDeltas, FundsAccount(), Withdrawers(s, requests))
    ensures forall i :: 0 <= i < |result.depositDeltas| ==>
      var entry := result.depositDeltas[i];
      && entry.base == DepositsBy(requests, entry.account, FreeBase)
      && entry.quote == DepositsBy(requests, entry.account, FreeQuote)
    ensures forall i :: 0 <= i < |result.withdrawDeltas| ==>
      var entry := result.withdrawDeltas[i];
      && entry.base == WithdrawalsBy(s, requests, entry.account, FreeBase)
      && entry.quote == WithdrawalsBy(s, requests, entry.account, FreeQuote)
  {
    hide StfDeltas, Ascending, DepositsBy, WithdrawalsBy, Depositors, Withdrawers, AccountsAre;
    var d := StfDeltas(s, requests);
    ListAccounts(result.depositDeltas, d.deposits, FundsAccount());
    ListAccounts(result.withdrawDeltas, d.withdraws, FundsAccount());
    BatchDeltas(s, requests, 0, FreeBase);
    forall i | 0 <= i < |result.depositDeltas|
      ensures var entry := result.depositDeltas[i];
        && entry.base == DepositsBy(requests, entry.account, FreeBase)
        && entry.quote == DepositsBy(requests, entry.account, FreeQuote)
    {
      BatchDeltas(s, requests, result.depositDeltas[i].account, FreeBase);
      BatchDeltas(s, requests, result.depositDeltas[i].account, FreeQuote);
    }
    forall i | 0 <= i < |result.withdrawDeltas|
      ensures var entry := result.withdrawDeltas[i];
        && entry.base == WithdrawalsBy(s, requests, entry.account, FreeBase)
        && entry.quote == WithdrawalsBy(s, requests, entry.account, FreeQuote)
    {
      BatchDeltas(s, requests, result.withdrawDeltas[i].account, FreeBase);
      BatchDeltas(s, requests, result.withdrawDeltas[i].account, FreeQuote);
    }
  }

  // ---- Whose orders a batch touches ----

  function Parties(fills: seq<OrderFill>): set<Address> {
    if fills == [] then {}
    else Parties(fills[..|fills| - 1]) + {fills[|fills| - 1].buyer, fills[|fills| - 1].seller}
  }

  /** The account that places an order and everybody it trades with; the owner of a
      cancelled order. */
  ghost function Traders(s: State, request: Request): set<Address> {
    if !Tick(s, request).response.success then {}
    else if request.AddOrder? then {request.address} + Parties(FillsOfRequest(s, request))
    else if request.CancelOrder? && request.oid in Live(s.book).Keys then {Live(s.book)[request.oid].address}
    else {}
  }

  ghost function TradersIn(s: State, requests: seq<Request>): set<Address> {
    if requests == [] then {}
    else
      var before := requests[..|requests| - 1];
      TradersIn(s, before) + Traders(Run(s, before), requests[|requests| - 1])
  }

  function UsersOf(diffs: seq<Diff>): set<Address> {
    if diffs == [] then {} else UsersOf(diffs[..|diffs| - 1]) + OrderUsers(diffs[|diffs| - 1])
  }

  lemma {:induction false} UsersListed(d: Deltas, diffs: seq<Diff>)
    ensures ApplyAll(d, diffs).orders.Keys == d.orders.Keys + UsersOf(diffs)
  {
    hide Apply, OrderUsers;
    if diffs != [] {
      var n := |diffs| - 1;
      UsersListed(d, diffs[..n]);
      ApplyKeys(ApplyAll(d, diffs[..n]), diffs[n]);
    }
  }

  lemma {:induction false} UsersAppend(xs: seq<Diff>, ys: seq<Diff>)
    ensures UsersOf(xs + ys) == UsersOf(xs) + UsersOf(ys)
  {
    if ys == [] {
      assert xs + ys == xs;
    } else {
      var n := |ys| - 1;
      UsersAppend(xs, ys[..n]);
      assert (xs + ys)[..|xs + ys| - 1] == xs + ys[..n];
    }
  }

  lemma OneUser(x: Diff)
    ensures UsersOf([x]) == OrderUsers(x)
  {
    assert [x][..0] == [];
  }

  lemma {:induction false} FillUsers(fills: seq<OrderFill>)
    ensures UsersOf(FillDiffs(fills)) == Parties(fills)
  {
    if fills != [] {
      var n := |fills| - 1;
      FillUsers(fills[..n]);
      var last := FillDiff(fills[n].buyer, fills[n].seller, fills[n].size, fills[n].QuoteSize());
      UsersAppend(FillDiffs(fills[..n]), [last]);
      OneUser(last);
    }
  }

  lemma {:induction false} RequestUsers(s: State, request: Request)
    requires Sound(s)
    ensures UsersOf(Tick(s, request).diffs) == Traders(s, request)
  {
    hide BookOk, Live, UsersOf, BookSpec.Limit, BookSpec.Cancel, SettleAll, FillDiffs, DoCancel, Below;
    if request.AddOrder? && Tick(s, request).response.success {
      var o := OrderOf(s, request);
      var l := BookSpec.Limit(s.book, o);
      UsersAppend([CreateOf(o)], FillDiffs(l.fills));
      OneUser(CreateOf(o));
      FillUsers(l.fills);
    } else if request.CancelOrder? {
      CancelSucceeds(s, request.oid);
      OneUser(Noop);
      if Possible(s, request) {
        Cancelled(s, request.oid);
        OneUser(Tick(s, request).diffs[0]);
      }
    } else {
      OneUser(Tick(s, request).diffs[0]);
    }
  }

  lemma {:induction false} BatchUsers(s: State, requests: seq<Request>)
    requires Sound(s) && s.oid + |requests| < TWO64
    ensures StfDeltas(s, requests).orders.Keys == TradersIn(s, requests)
    ensures Sound(Run(s, requests)) && Run(s, requests).oid <= s.oid + |requests|
  {
    hide Tick, ApplyAll, Traders, Sound, UsersOf;
    if requests == [] {
      NoDeltas(0, FreeBase);
    } else {
      var before, last := requests[..|requests| - 1], requests[|requests| - 1];
      var mid := Run(s, before);
      BatchUsers(s, before);
      TickSound(mid, last);
      ApplyAllAppend(NO_DELTAS, RunDiffs(s, before), Tick(mid, last).diffs);
      UsersListed(StfDeltas(s, before), Tick(mid, last).diffs);
      RequestUsers(mid, last);
    }
  }

  /** The order list has one entry, in rising order, for exactly the accounts that placed an
      order, traded, or had an order cancelled in the batch. */
  lemma {:induction false} TradersListed(s: State, requests: seq<Request>, result: ClobResultDeltas)
    requires Sound(s) && s.oid + |requests| < TWO64
    requires ListsDeltas(result, StfDeltas(s, requests))
    ensures AccountsAre(result.orderDeltas, OrderAccount(), TradersIn(s, requests))
  {
    hide Sound, StfDeltas, Ascending, TradersIn, AccountsAre;
    BatchUsers(s, requests);
    ListAccounts(result.orderDeltas, StfDeltas(s, requests).orders, OrderAccount());
  }

  // ---- What the order entries say ----

  // One balance of an order entry.
  function OrderSlot(entry: OrderDelta, slot: Slot): int {
    Moved(slot, entry.freeBase, entry.lockedBase, entry.freeQuote, entry.lockedQuote)
  }

  /** What a batch changes in one balance of an account by its orders: all but its deposits
      and withdrawals, plus what its cancelled orders had already traded. */
  ghost function ByOrders(s: State, requests: seq<Request>, a: Address, slot: Slot): int {
    var s' := Run(s, requests);
    Holds(s'.base, s'.quote, a, slot) - Holds(s.base, s.quote, a, slot)
      - DepositsBy(requests, a, slot) + WithdrawalsBy(s, requests, a, slot) + SurplusRun(s, requests, a, slot)
  }

  // What is listed for an account; nothing if it is not.
  lemma OrderEntry(s: State, requests: seq<Request>, result: ClobResultDeltas, i: nat, slot: Slot)
    requires ListsDeltas(result, StfDeltas(s, requests)) && i < |result.orderDeltas|
    ensures var a := result.orderDeltas[i].account;
      OrderSlot(result.orderDeltas[i], slot)
        == DiffsAt(RunDiffs(s, requests), a, slot) - DepositsBy(requests, a, slot) + WithdrawalsBy(s, requests, a, slot)
  {
    hide ApplyAll, Ascending, RunDiffs, DepositsBy, WithdrawalsBy, FundsAt;
    var a := result.orderDeltas[i].account;
    NetIsSum(RunDiffs(s, requests), a, slot);
    BatchDeltas(s, requests, a, slot);
    assert OrdersAt(StfDeltas(s, requests).orders, a, slot) == OrderSlot(result.orderDeltas[i], slot);
  }

  /** On within-status runs each entry of the order list says exactly what the orders of the
      batch did to its account. */
  lemma {:induction false} OrdersListed(s: State, requests: seq<Request>, gap: Gaps, result: ClobResultDeltas,
                                        i: nat, slot: Slot)
    requires Solvent(s, gap) && Within(s, requests)
    requires ListsDeltas(result, StfDeltas(s, requests)) && i < |result.orderDeltas|
    ensures OrderSlot(result.orderDeltas[i], slot) == ByOrders(s, requests, result.orderDeltas[i].account, slot)
  {
    hide Solvent, Within, Run, RunDiffs, ListsDeltas, OrderSlot, Holds, DepositsBy, WithdrawalsBy, SurplusRun;
    OrderEntry(s, requests, result, i, slot);
    RunTruthful(s, requests, gap, result.orderDeltas[i].account, slot);
  }

  /** On every other run it does so modulo 2^64. */
  lemma {:induction false} OrdersListedMod(s: State, requests: seq<Request>, result: ClobResultDeltas,
                                           i: nat, slot: Slot)
    requires Sound(s) && s.oid + |requests| < TWO64
    requires ListsDeltas(result, StfDeltas(s, requests)) && i < |result.orderDeltas|
    requires AlwaysKnown(s, requests, result.orderDeltas[i].account)
    ensures Congruent(OrderSlot(result.orderDeltas[i], slot),
                      ByOrders(s, requests, result.orderDeltas[i].account, slot))
  {
    hide Sound, AlwaysKnown, Run, RunDiffs, ListsDeltas, OrderSlot, Holds, DepositsBy, WithdrawalsBy, SurplusRun;
    OrderEntry(s, requests, result, i, slot);
    RunMod(s, requests, result.orderDeltas[i].account, slot);
    var a, s' := result.orderDeltas[i].account, Run(s, requests);
    Turned(Holds(s'.base, s'.quote, a, slot), Holds(s.base, s.quote, a, slot),
           DiffsAt(RunDiffs(s, requests), a, slot), SurplusRun(s, requests, a, slot),
           WithdrawalsBy(s, requests, a, slot) - DepositsBy(requests, a, slot));
  }

  lemma Turned(after: int, before: int, diffs: int, surplus: int, other: int)
    requires Congruent(after, before + diffs - surplus)
    ensures Congruent(diffs + other, after - before + surplus + other)
  {
  }
}
