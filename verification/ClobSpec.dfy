/** The CLOB state transition as functions on a state value. `Clobs.Clob` holds the
    methods that update the state in place; each is proved against these. */
module ClobSpec {
  import opened Api
  import opened BookSpec

  type Balances = map<Address, AssetBalance>
  type Statuses = map<U64, FillStatus>

  datatype State = State(oid: U64, base: Balances, quote: Balances, book: Book, status: Statuses)

  const GENESIS := State(0, map[], map[], EMPTY_BOOK, map[])

  datatype Ticked = Ticked(response: Response, state: State, diffs: seq<Diff>)

  // `entry(a).and_modify(..)`: absent accounts are silently skipped.

  function AddFree(b: Balances, a: Address, x: U64): Balances {
    if a in b then b[a := b[a].(free := Add64(b[a].free, x))] else b
  }

  function SubLocked(b: Balances, a: Address, x: U64): Balances {
    if a in b then b[a := b[a].(locked := Sub64(b[a].locked, x))] else b
  }

  function Lock(b: Balances, a: Address, x: U64): Balances {
    if a in b then b[a := AssetBalance(Sub64(b[a].free, x), Add64(b[a].locked, x))] else b
  }

  function Unlock(b: Balances, a: Address, x: U64): Balances {
    if a in b then b[a := AssetBalance(Add64(b[a].free, x), Sub64(b[a].locked, x))] else b
  }

  function Credit(b: Balances, a: Address, x: U64): Balances {
    b[a := if a in b then b[a].(free := Add64(b[a].free, x)) else AssetBalance(x, 0)]
  }

  function Debit(b: Balances, a: Address, x: U64): Balances {
    if a in b then b[a := b[a].(free := Sub64(b[a].free, x))] else b
  }

  // ---- deposit and withdraw ----

  function DoDeposit(s: State, a: Address, baseFree: U64, quoteFree: U64): Ticked {
    Ticked(Deposited(true),
           s.(base := Credit(s.base, a, baseFree), quote := Credit(s.quote, a, quoteFree)),
           [DepositDiff(a, baseFree, quoteFree)])
  }

  function DoWithdraw(s: State, a: Address, baseFree: U64, quoteFree: U64): Ticked {
    if a !in s.base || a !in s.quote || s.base[a].free < baseFree || s.quote[a].free < quoteFree then
      Ticked(Withdrawn(false), s, [Noop])
    else
      var base, quote := Debit(s.base, a, baseFree), Debit(s.quote, a, quoteFree);
      var empty := AssetBalance(0, 0);
      var s' := if base[a] == empty && quote[a] == empty then s.(base := base - {a}, quote := quote - {a})
                else s.(base := base, quote := quote);
      Ticked(Withdrawn(true), s', [WithdrawDiff(a, baseFree, quoteFree)])
  }

  // ---- cancel ----

  function DoCancel(s: State, oid: U64): Ticked {
    var c := Cancel(s.book, oid);
    var s' := s.(book := c.book);
    if c.order.None? then Ticked(OrderCancelled(false, None), s', [Noop])
    else if oid !in s.status then Ticked(OrderCancelled(false, None), s', [Noop])
    else
      var o, status := c.order.value, s.status[oid];
      var s'' := s'.(status := s.status - {oid});
      if o.isBuy then
        if o.address in s.quote then
          var remaining := Sub64(o.QuoteSize(), FilledQuote(status.fills));
          Ticked(OrderCancelled(true, Some(status)),
                 s''.(quote := Unlock(s.quote, o.address, remaining)),
                 [CancelDiff(o.address, 0, o.QuoteSize())])
        else Ticked(OrderCancelled(false, None), s'', [Noop])
      else
        if o.address in s.base then
          var remaining := Sub64(o.size, status.filledSize);
          Ticked(OrderCancelled(true, Some(status)),
                 s''.(base := Unlock(s.base, o.address, remaining)),
                 [CancelDiff(o.address, o.size, 0)])
        else Ticked(OrderCancelled(false, None), s'', [Noop])
  }

  // ---- add order ----

  /** The maker's status after one fill; removed once it counts as filled. */
  function SettleStatus(status: Statuses, fill: OrderFill): Statuses {
    if fill.makerOid !in status then status
    else
      var s := status[fill.makerOid];
      var filled := Add64(s.filledSize, fill.size);
      if filled < s.size then
        status[fill.makerOid := s.(filledSize := filled, fills := s.fills + [fill])]
      else status - {fill.makerOid}
  }

  datatype Funds = Funds(base: Balances, quote: Balances, status: Statuses)

  /** One fill: the seller's locked base becomes the buyer's, the buyer's locked quote the seller's. */
  function Settle(f: Funds, fill: OrderFill): Funds {
    var base := AddFree(SubLocked(f.base, fill.seller, fill.size), fill.buyer, fill.size);
    var quote := SubLocked(AddFree(f.quote, fill.seller, fill.QuoteSize()), fill.buyer, fill.QuoteSize());
    Funds(base, quote, SettleStatus(f.status, fill))
  }

  function SettleAll(f: Funds, fills: seq<OrderFill>): Funds {
    if fills == [] then f
    else Settle(SettleAll(f, fills[..|fills| - 1]), fills[|fills| - 1])
  }

  function FillDiffs(fills: seq<OrderFill>): seq<Diff> {
    if fills == [] then []
    else
      var f := fills[|fills| - 1];
      FillDiffs(fills[..|fills| - 1]) + [FillDiff(f.buyer, f.seller, f.size, f.QuoteSize())]
  }

  predicate Affordable(s: State, o: Order)
    requires o.address in s.base && o.address in s.quote
  {
    if o.isBuy then s.quote[o.address].free >= o.QuoteSize() else s.base[o.address].free >= o.size
  }

  predicate Accepts(s: State, o: Order) {
    o.address in s.base && o.address in s.quote && Affordable(s, o)
  }

  /** The funds with the order's own side locked. */
  function Locked(s: State, o: Order): Funds {
    if o.isBuy then Funds(s.base, Lock(s.quote, o.address, o.QuoteSize()), s.status)
    else Funds(Lock(s.base, o.address, o.size), s.quote, s.status)
  }

  function CreateOf(o: Order): Diff {
    if o.isBuy then CreateDiff(o.address, 0, o.QuoteSize()) else CreateDiff(o.address, o.size, 0)
  }

  ghost function DoAddOrder(s: State, a: Address, isBuy: bool, limitPrice: U64, size: U64): Ticked {
    var o := Order(isBuy, limitPrice, size, s.oid, a);
    if a !in s.base || a !in s.quote then Ticked(OrderAdded(false, None), s, [Noop])
    else if !Affordable(s, o) then
      Ticked(OrderAdded(false, None), s.(oid := Add64(s.oid, 1)), [Noop])
    else
      var l := Limit(s.book, o);
      var f := SettleAll(Locked(s, o), l.fills);
      var mine := FillStatus(o.oid, size, a, size - l.remaining, l.fills);
      var status := if l.remaining != 0 then f.status[o.oid := mine] else f.status;
      Ticked(OrderAdded(true, Some(mine)),
             State(Add64(s.oid, 1), f.base, f.quote, l.book, status),
             [CreateOf(o)] + FillDiffs(l.fills))
  }

  // ---- tick ----

  ghost function Tick(s: State, request: Request): Ticked {
    match request
    case AddOrder(a, isBuy, limitPrice, size) => DoAddOrder(s, a, isBuy, limitPrice, size)
    case CancelOrder(oid) => DoCancel(s, oid)
    case Deposit(a, baseFree, quoteFree) => DoDeposit(s, a, baseFree, quoteFree)
    case Withdraw(a, baseFree, quoteFree) => DoWithdraw(s, a, baseFree, quoteFree)
  }

  ghost function Run(s: State, requests: seq<Request>): State {
    if requests == [] then s
    else Tick(Run(s, requests[..|requests| - 1]), requests[|requests| - 1]).state
  }

  ghost function RunDiffs(s: State, requests: seq<Request>): seq<Diff> {
    if requests == [] then []
    else
      var before := requests[..|requests| - 1];
      RunDiffs(s, before) + Tick(Run(s, before), requests[|requests| - 1]).diffs
  }
}
