/** What the open orders of an account still owe: the funds its locked balances must hold. */
module Owed {
  import opened Api
  import opened Sums
  import opened Resting
  import opened ClobSpec

  type Orders = map<U64, Order>

  /** A status with its order's terms: filled no further than its size, for no more than
      its limit price, and with a notional that fits 64 bits if it is a buy. */
  ghost predicate Covered(st: FillStatus, o: Order) {
    && st.address == o.address && o.limitPrice > 0
    && 0 <= Total(st.fills, SizeOf()) == st.filledSize <= st.size
    && 0 <= Total(st.fills, QuoteOf())
    && (o.isBuy ==>
          && st.size * o.limitPrice < TWO64
          && Total(st.fills, QuoteOf()) <= st.filledSize * o.limitPrice)
  }

  ghost predicate AllCovered(status: Statuses, live: Orders) {
    forall oid :: oid in status.Keys ==> oid in live.Keys && Covered(status[oid], live[oid])
  }

  /** Base an open ask has still to deliver. */
  ghost function BaseDue(st: FillStatus, o: Order): int {
    if o.isBuy then 0 else st.size - st.filledSize
  }

  /** Quote an open bid has locked and not spent. */
  ghost function QuoteDue(st: FillStatus, o: Order): int {
    if o.isBuy then st.size * o.limitPrice - Total(st.fills, QuoteOf()) else 0
  }

  ghost function BaseDueOf(status: Statuses, live: Orders, a: Address): U64 -> int {
    (oid: U64) => if oid in status.Keys && oid in live.Keys && live[oid].address == a
                  then BaseDue(status[oid], live[oid]) else 0
  }

  ghost function QuoteDueOf(status: Statuses, live: Orders, a: Address): U64 -> int {
    (oid: U64) => if oid in status.Keys && oid in live.Keys && live[oid].address == a
                  then QuoteDue(status[oid], live[oid]) else 0
  }

  /** The sum of `size - filled_size` over the account's open asks. */
  ghost function BaseOwed(status: Statuses, live: Orders, a: Address): int {
    Sum(status.Keys, BaseDueOf(status, live, a))
  }

  /** The sum of `size * limit - filled quote` over the account's open bids. */
  ghost function QuoteOwed(status: Statuses, live: Orders, a: Address): int {
    Sum(status.Keys, QuoteDueOf(status, live, a))
  }

  lemma {:induction false} DueBounds(st: FillStatus, o: Order)
    requires Covered(st, o)
    ensures BaseDue(st, o) >= 0 && QuoteDue(st, o) >= 0
    ensures o.isBuy ==> QuoteDue(st, o) >= (st.size - st.filledSize) * o.limitPrice
    ensures o.isBuy && st.filledSize < st.size ==> QuoteDue(st, o) > 0
  {
    if o.isBuy {
      Remaining(st.size, st.filledSize, o.limitPrice, Total(st.fills, QuoteOf()));
    }
  }

  lemma Remaining(size: int, filled: int, price: int, spent: int)
    requires filled <= size && price > 0 && spent <= filled * price
    ensures size * price - spent >= (size - filled) * price >= 0
    ensures filled < size ==> (size - filled) * price > 0
  {
    Distribute(filled, size - filled, price);
    Product(size - filled, price);
  }

  lemma Distribute(a: int, b: int, c: int)
    ensures (a + b) * c == a * c + b * c
  {
  }

  lemma Product(a: int, b: int)
    requires a >= 0 && b >= 0
    ensures a * b >= 0
    ensures a > 0 && b > 0 ==> a * b > 0
  {
  }

  lemma Mul64Exact(a: U64, b: U64)
    requires a * b < TWO64
    ensures 0 <= Mul64(a, b) == a * b
  {
    Product(a, b);
  }

  /** Each open order's due is covered by the account's owed total. */
  lemma {:induction false} OwedCovers(status: Statuses, live: Orders, oid: U64)
    requires AllCovered(status, live) && oid in status.Keys
    ensures BaseDue(status[oid], live[oid]) <= BaseOwed(status, live, live[oid].address)
    ensures QuoteDue(status[oid], live[oid]) <= QuoteOwed(status, live, live[oid].address)
  {
    var a := live[oid].address;
    forall k | k in status.Keys
      ensures BaseDueOf(status, live, a)(k) >= 0 && QuoteDueOf(status, live, a)(k) >= 0
    {
      DueBounds(status[k], live[k]);
    }
    SumBounds(status.Keys, BaseDueOf(status, live, a), oid, oid);
    SumBounds(status.Keys, QuoteDueOf(status, live, a), oid, oid);
  }

  lemma {:induction false} OwedNonNegative(status: Statuses, live: Orders, a: Address)
    requires AllCovered(status, live)
    ensures BaseOwed(status, live, a) >= 0 && QuoteOwed(status, live, a) >= 0
  {
    forall k | k in status.Keys
      ensures BaseDueOf(status, live, a)(k) >= 0 && QuoteDueOf(status, live, a)(k) >= 0
    {
      DueBounds(status[k], live[k]);
    }
    SumNonNegative(status.Keys, BaseDueOf(status, live, a));
    SumNonNegative(status.Keys, QuoteDueOf(status, live, a));
  }

  /** Nothing owed by an account without open orders. */
  lemma OwedNothing(status: Statuses, live: Orders, a: Address)
    requires forall oid :: oid in status.Keys && oid in live.Keys ==> live[oid].address != a
    ensures BaseOwed(status, live, a) == 0 && QuoteOwed(status, live, a) == 0
  {
    SumZero(status.Keys, BaseDueOf(status, live, a));
    SumZero(status.Keys, QuoteDueOf(status, live, a));
  }

  lemma {:induction false} SumZero(s: set<U64>, f: U64 -> int)
    requires forall k :: k in s ==> f(k) == 0
    ensures Sum(s, f) == 0
    decreases s
  {
    if s != {} {
      var k :| k in s;
      SumPick(s, f, k);
      SumZero(s - {k}, f);
    }
  }

  /** Only the side, price and owner of the orders matter. */
  lemma OwedSameTerms(status: Statuses, live: Orders, live': Orders, a: Address)
    requires forall oid :: oid in status.Keys ==>
      oid in live.Keys && oid in live'.Keys && live'[oid] == live[oid].(size := live'[oid].size)
    ensures BaseOwed(status, live', a) == BaseOwed(status, live, a)
    ensures QuoteOwed(status, live', a) == QuoteOwed(status, live, a)
  {
    SumSame(status.Keys, BaseDueOf(status, live, a), BaseDueOf(status, live', a));
    SumSame(status.Keys, QuoteDueOf(status, live, a), QuoteDueOf(status, live', a));
  }

  /** One status replaced. */
  lemma OwedReplace(status: Statuses, live: Orders, oid: U64, st: FillStatus, a: Address)
    requires oid in status.Keys && oid in live.Keys
    ensures var status' := status[oid := st];
      && BaseOwed(status', live, a) == BaseOwed(status, live, a)
           + (if live[oid].address == a then BaseDue(st, live[oid]) - BaseDue(status[oid], live[oid]) else 0)
      && QuoteOwed(status', live, a) == QuoteOwed(status, live, a)
           + (if live[oid].address == a then QuoteDue(st, live[oid]) - QuoteDue(status[oid], live[oid]) else 0)
  {
    var status', here := status[oid := st], live[oid].address == a;
    assert status'.Keys == status.Keys;
    SumShift(status.Keys, BaseDueOf(status, live, a), BaseDueOf(status', live, a), oid,
             if here then BaseDue(st, live[oid]) - BaseDue(status[oid], live[oid]) else 0);
    SumShift(status.Keys, QuoteDueOf(status, live, a), QuoteDueOf(status', live, a), oid,
             if here then QuoteDue(st, live[oid]) - QuoteDue(status[oid], live[oid]) else 0);
  }

  /** One status closed. */
  lemma OwedClose(status: Statuses, live: Orders, oid: U64, a: Address)
    requires oid in status.Keys && oid in live.Keys
    ensures var status' := status - {oid};
      && BaseOwed(status', live, a) == BaseOwed(status, live, a)
           - (if live[oid].address == a then BaseDue(status[oid], live[oid]) else 0)
      && QuoteOwed(status', live, a) == QuoteOwed(status, live, a)
           - (if live[oid].address == a then QuoteDue(status[oid], live[oid]) else 0)
  {
    var status' := status - {oid};
    assert status'.Keys == status.Keys - {oid};
    SumPick(status.Keys, BaseDueOf(status, live, a), oid);
    SumSame(status'.Keys, BaseDueOf(status, live, a), BaseDueOf(status', live, a));
    SumPick(status.Keys, QuoteDueOf(status, live, a), oid);
    SumSame(status'.Keys, QuoteDueOf(status, live, a), QuoteDueOf(status', live, a));
  }

  /** One status opened. */
  lemma OwedOpen(status: Statuses, live: Orders, oid: U64, st: FillStatus, a: Address)
    requires oid !in status.Keys && oid in live.Keys
    ensures var status' := status[oid := st];
      && BaseOwed(status', live, a) == BaseOwed(status, live, a)
           + (if live[oid].address == a then BaseDue(st, live[oid]) else 0)
      && QuoteOwed(status', live, a) == QuoteOwed(status, live, a)
           + (if live[oid].address == a then QuoteDue(st, live[oid]) else 0)
  {
    var status' := status[oid := st];
    assert status' - {oid} == status;
    OwedClose(status', live, oid, a);
  }

  // ---- One more fill ----

  function AddFill(st: FillStatus, fill: OrderFill): FillStatus {
    st.(filledSize := Add64(st.filledSize, fill.size), fills := st.fills + [fill])
  }

  /** A fill within the status and its limit keeps it covered and lowers what is due by
      exactly the fill's base or quote. */
  lemma {:induction false} FillDue(st: FillStatus, o: Order, fill: OrderFill)
    requires Covered(st, o) && fill.size <= st.size - st.filledSize
    requires o.isBuy ==> fill.price <= o.limitPrice
    ensures var st' := AddFill(st, fill);
      && Covered(st', o)
      && BaseDue(st', o) == BaseDue(st, o) - (if o.isBuy then 0 else fill.size)
      && QuoteDue(st', o) == QuoteDue(st, o) - (if o.isBuy then fill.size * fill.price else 0)
  {
    TotalSnoc(st.fills, fill, SizeOf());
    TotalSnoc(st.fills, fill, QuoteOf());
    Product(fill.size, fill.price);
    if o.isBuy {
      WithinLimit(st.filledSize, fill.size, fill.price, o.limitPrice);
    }
  }

  lemma WithinLimit(filled: int, size: int, price: int, limit: int)
    requires size >= 0 && price <= limit
    ensures filled * limit + size * price <= (filled + size) * limit
  {
    Distribute(filled, size, limit);
    Product(size, limit - price);
    Distribute(price, limit - price, size);
  }

  // ---- Price improvement ----

  ghost function SavedAt(limitPrice: U64): OrderFill -> int {
    (f: OrderFill) => f.size * (limitPrice - f.price)
  }

  /** Once a buy is completely filled, what it still has locked is its price improvement. */
  lemma {:induction false} LeftoverIsImprovement(fills: seq<OrderFill>, limitPrice: U64)
    ensures Total(fills, SizeOf()) * limitPrice - Total(fills, QuoteOf()) == Total(fills, SavedAt(limitPrice))
  {
    if fills != [] {
      var n := |fills| - 1;
      var f := fills[n];
      LeftoverIsImprovement(fills[..n], limitPrice);
      Distribute(limitPrice - f.price, f.price, f.size);
      Distribute(Total(fills[..n], SizeOf()), f.size, limitPrice);
    }
  }
}
