/** Net deltas of a batch: what `Diff::apply` folds into three maps, and the algebra of
    that fold. The 256-bit sums of the source are unbounded integers here. */
module DeltaSpec {
  import opened Api
  import opened ClobSpec
  import opened Accounts

  datatype FundsDelta = FundsDelta(account: Address, base: nat, quote: nat)

  datatype OrderDelta =
    OrderDelta(account: Address, freeBase: int, lockedBase: int, freeQuote: int, lockedQuote: int)

  type FundsDeltas = map<Address, FundsDelta>
  type OrderDeltas = map<Address, OrderDelta>

  datatype Deltas = Deltas(withdraws: FundsDeltas, deposits: FundsDeltas, orders: OrderDeltas)

  const NO_DELTAS := Deltas(map[], map[], map[])

  function FundsFor(m: FundsDeltas, a: Address): FundsDelta {
    if a in m then m[a] else FundsDelta(a, 0, 0)
  }

  function OrderFor(m: OrderDeltas, a: Address): OrderDelta {
    if a in m then m[a] else OrderDelta(a, 0, 0, 0, 0)
  }

  // `entry(a).or_insert_with(..)` followed by the additions.

  function AddFunds(m: FundsDeltas, a: Address, base: U64, quote: U64): FundsDeltas {
    var d := FundsFor(m, a);
    m[a := d.(base := d.base + base, quote := d.quote + quote)]
  }

  function AddToOrders(m: OrderDeltas, a: Address,
                       freeBase: int, lockedBase: int, freeQuote: int, lockedQuote: int): OrderDeltas
  {
    var d := OrderFor(m, a);
    m[a := d.(freeBase := d.freeBase + freeBase, lockedBase := d.lockedBase + lockedBase,
              freeQuote := d.freeQuote + freeQuote, lockedQuote := d.lockedQuote + lockedQuote)]
  }

  function Apply(d: Deltas, x: Diff): Deltas {
    match x
    case WithdrawDiff(user, base, quote) => d.(withdraws := AddFunds(d.withdraws, user, base, quote))
    case DepositDiff(user, base, quote) => d.(deposits := AddFunds(d.deposits, user, base, quote))
    case FillDiff(buyer, seller, base, quote) =>
      var bought := AddToOrders(d.orders, buyer, base, 0, 0, -(quote as int));
      d.(orders := AddToOrders(bought, seller, 0, -(base as int), quote, 0))
    case CancelDiff(user, base, quote) =>
      d.(orders := AddToOrders(d.orders, user, base, -(base as int), quote, -(quote as int)))
    case CreateDiff(user, base, quote) =>
      d.(orders := AddToOrders(d.orders, user, -(base as int), base, -(quote as int), quote))
    case Noop => d
  }

  function ApplyAll(d: Deltas, diffs: seq<Diff>): Deltas {
    if diffs == [] then d
    else Apply(ApplyAll(d, diffs[..|diffs| - 1]), diffs[|diffs| - 1])
  }

  /** The deltas of a batch of requests. */
  ghost function StfDeltas(s: State, requests: seq<Request>): Deltas {
    ApplyAll(NO_DELTAS, RunDiffs(s, requests))
  }

  // ---- What the deltas say of one account ----

  function FundsAt(m: FundsDeltas, a: Address, slot: Slot): int {
    match slot
    case FreeBase => FundsFor(m, a).base
    case FreeQuote => FundsFor(m, a).quote
    case LockedBase => 0
    case LockedQuote => 0
  }

  function OrdersAt(m: OrderDeltas, a: Address, slot: Slot): int {
    match slot
    case FreeBase => OrderFor(m, a).freeBase
    case LockedBase => OrderFor(m, a).lockedBase
    case FreeQuote => OrderFor(m, a).freeQuote
    case LockedQuote => OrderFor(m, a).lockedQuote
  }

  /** Deposits and order changes in, withdrawals out. */
  function NetAt(d: Deltas, a: Address, slot: Slot): int {
    FundsAt(d.deposits, a, slot) + OrdersAt(d.orders, a, slot) - FundsAt(d.withdraws, a, slot)
  }

  // One diff's share of each of the three.

  function WithdrawAt(x: Diff, a: Address, slot: Slot): int {
    if x.WithdrawDiff? then -DiffAt(x, a, slot) else 0
  }

  function DepositAt(x: Diff, a: Address, slot: Slot): int {
    if x.DepositDiff? then DiffAt(x, a, slot) else 0
  }

  function OrderAt(x: Diff, a: Address, slot: Slot): int {
    if x.FillDiff? || x.CancelDiff? || x.CreateDiff? then DiffAt(x, a, slot) else 0
  }

  function WithdrawUsers(x: Diff): set<Address> {
    if x.WithdrawDiff? then {x.user} else {}
  }

  function DepositUsers(x: Diff): set<Address> {
    if x.DepositDiff? then {x.user} else {}
  }

  function OrderUsers(x: Diff): set<Address> {
    if x.FillDiff? then {x.buyer, x.seller}
    else if x.CancelDiff? || x.CreateDiff? then {x.user}
    else {}
  }

  ghost predicate Keyed(d: Deltas) {
    && (forall a :: a in d.withdraws.Keys ==> d.withdraws[a].account == a)
    && (forall a :: a in d.deposits.Keys ==> d.deposits[a].account == a)
    && (forall a :: a in d.orders.Keys ==> d.orders[a].account == a)
  }

  lemma ApplyAt(d: Deltas, x: Diff, a: Address, slot: Slot)
    ensures var d' := Apply(d, x);
      && FundsAt(d'.withdraws, a, slot) == FundsAt(d.withdraws, a, slot) + WithdrawAt(x, a, slot)
      && FundsAt(d'.deposits, a, slot) == FundsAt(d.deposits, a, slot) + DepositAt(x, a, slot)
      && OrdersAt(d'.orders, a, slot) == OrdersAt(d.orders, a, slot) + OrderAt(x, a, slot)
  {
  }

  lemma ApplyKeys(d: Deltas, x: Diff)
    ensures var d' := Apply(d, x);
      && d'.withdraws.Keys == d.withdraws.Keys + WithdrawUsers(x)
      && d'.deposits.Keys == d.deposits.Keys + DepositUsers(x)
      && d'.orders.Keys == d.orders.Keys + OrderUsers(x)
      && (Keyed(d) ==> Keyed(d'))
  {
  }
}
