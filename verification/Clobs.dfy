/** The CLOB engine of `lib.rs`, updating its state in place. */
module Clobs {
  import opened Api
  import opened ClobSpec
  import opened OrderBooks

  class Clob {
    var oid: U64
    var base: Balances
    var quote: Balances
    const book: OrderBook
    var status: Statuses

    function View(): State
      reads this, book
    {
      State(oid, base, quote, book.View(), status)
    }

    constructor (state: State)
      ensures View() == state
      ensures fresh(book)
    {
      oid, base, quote, status := state.oid, state.base, state.quote, state.status;
      book := new OrderBook(state.book);
    }

    method DepositFunds(address: Address, baseFree: U64, quoteFree: U64) returns (response: Response, diff: Diff)
      modifies this
      ensures Ticked(response, View(), [diff]) == DoDeposit(old(View()), address, baseFree, quoteFree)
    {
      if address in base {
        base := base[address := base[address].(free := Add64(base[address].free, baseFree))];
      } else {
        base := base[address := AssetBalance(baseFree, 0)];
      }
      if address in quote {
        quote := quote[address := quote[address].(free := Add64(quote[address].free, quoteFree))];
      } else {
        quote := quote[address := AssetBalance(quoteFree, 0)];
      }
      return Deposited(true), DepositDiff(address, baseFree, quoteFree);
    }

    method WithdrawFunds(address: Address, baseFree: U64, quoteFree: U64) returns (response: Response, diff: Diff)
      modifies this
      ensures Ticked(response, View(), [diff]) == DoWithdraw(old(View()), address, baseFree, quoteFree)
    {
      if address !in base || address !in quote {
        return Withdrawn(false), Noop;
      }
      if base[address].free < baseFree || quote[address].free < quoteFree {
        return Withdrawn(false), Noop;
      }
      base := base[address := base[address].(free := base[address].free - baseFree)];
      quote := quote[address := quote[address].(free := quote[address].free - quoteFree)];
      if quote[address] == AssetBalance(0, 0) && base[address] == AssetBalance(0, 0) {
        quote := quote - {address};
        base := base - {address};
      }
      return Withdrawn(true), WithdrawDiff(address, baseFree, quoteFree);
    }

    method CancelOrder(oid: U64) returns (response: Response, diff: Diff)
      modifies this, book
      ensures Ticked(response, View(), [diff]) == DoCancel(old(View()), oid)
    {
      var found := book.Cancel(oid);
      if found.None? {
        return OrderCancelled(false, None), Noop;
      }
      var o := found.value;
      if oid !in status {
        return OrderCancelled(false, None), Noop;
      }
      var fillStatus := status[oid];
      status := status - {oid};
      if o.isBuy {
        if o.address !in quote {
          return OrderCancelled(false, None), Noop;
        }
        var filledQuote := ComputeFilledQuote(fillStatus);
        var remaining := Sub64(o.QuoteSize(), filledQuote);
        var b := quote[o.address];
        quote := quote[o.address := AssetBalance(Add64(b.free, remaining), Sub64(b.locked, remaining))];
        return OrderCancelled(true, Some(fillStatus)), CancelDiff(o.address, 0, o.QuoteSize());
      } else {
        if o.address !in base {
          return OrderCancelled(false, None), Noop;
        }
        var remaining := Sub64(o.size, fillStatus.filledSize);
        var b := base[o.address];
        base := base[o.address := AssetBalance(Add64(b.free, remaining), Sub64(b.locked, remaining))];
        return OrderCancelled(true, Some(fillStatus)), CancelDiff(o.address, o.size, 0);
      }
    }

    // One pass of the fill loop.
    method SettleFill(fill: OrderFill)
      modifies `base, `quote, `status
      ensures Funds(base, quote, status) == Settle(old(Funds(base, quote, status)), fill)
    {
      var s, b, q := fill.seller, fill.buyer, fill.QuoteSize();
      if s in base {
        base := base[s := base[s].(locked := Sub64(base[s].locked, fill.size))];
      }
      if s in quote {
        quote := quote[s := quote[s].(free := Add64(quote[s].free, q))];
      }
      if b in base {
        base := base[b := base[b].(free := Add64(base[b].free, fill.size))];
      }
      if b in quote {
        quote := quote[b := quote[b].(locked := Sub64(quote[b].locked, q))];
      }
      if fill.makerOid in status {
        var maker := status[fill.makerOid];
        maker := maker.(filledSize := Add64(maker.filledSize, fill.size));
        if maker.filledSize < maker.size {
          status := status[fill.makerOid := maker.(fills := maker.fills + [fill])];
        } else {
          status := status - {fill.makerOid};
        }
      }
    }

    method SettleFills(fills: seq<OrderFill>) returns (changes: seq<Diff>)
      modifies `base, `quote, `status
      ensures Funds(base, quote, status) == SettleAll(old(Funds(base, quote, status)), fills)
      ensures changes == FillDiffs(fills)
    {
      changes := [];
      for i := 0 to |fills|
        invariant Funds(base, quote, status) == SettleAll(old(Funds(base, quote, status)), fills[..i])
        invariant changes == FillDiffs(fills[..i])
      {
        assert fills[..i + 1][..i] == fills[..i];
        SettleFill(fills[i]);
        changes := changes + [FillDiff(fills[i].buyer, fills[i].seller, fills[i].size, fills[i].QuoteSize())];
      }
      assert fills[..|fills|] == fills;
    }

    method AddOrder(address: Address, isBuy: bool, limitPrice: U64, size: U64)
      returns (response: Response, changes: seq<Diff>)
      modifies this, book
      ensures Ticked(response, View(), changes) == DoAddOrder(old(View()), address, isBuy, limitPrice, size)
    {
      if address !in base || address !in quote {
        return OrderAdded(false, None), [Noop];
      }
      var o := Order(isBuy, limitPrice, size, oid, address);
      oid := Add64(oid, 1);
      if (isBuy && quote[address].free < o.QuoteSize()) || (!isBuy && base[address].free < o.size) {
        return OrderAdded(false, None), [Noop];
      }
      if isBuy {
        var b := quote[address];
        quote := quote[address := AssetBalance(Sub64(b.free, o.QuoteSize()), Add64(b.locked, o.QuoteSize()))];
      } else {
        var b := base[address];
        base := base[address := AssetBalance(Sub64(b.free, size), Add64(b.locked, size))];
      }
      var remaining, fills := book.Limit(o);
      changes := SettleFills(fills);
      changes := [CreateOf(o)] + changes;
      var mine := FillStatus(o.oid, size, address, size - remaining, fills);
      if remaining != 0 {
        status := status[o.oid := mine];
      }
      response := OrderAdded(true, Some(mine));
    }

    method Tick(request: Request) returns (response: Response, diffs: seq<Diff>)
      modifies this, book
      ensures Ticked(response, View(), diffs) == ClobSpec.Tick(old(View()), request)
    {
      match request
      case AddOrder(address, isBuy, limitPrice, size) =>
        response, diffs := AddOrder(address, isBuy, limitPrice, size);
      case CancelOrder(oid) =>
        var diff;
        response, diff := CancelOrder(oid);
        diffs := [diff];
      case Deposit(address, baseFree, quoteFree) =>
        var diff;
        response, diff := DepositFunds(address, baseFree, quoteFree);
        diffs := [diff];
      case Withdraw(address, baseFree, quoteFree) =>
        var diff;
        response, diff := WithdrawFunds(address, baseFree, quoteFree);
        diffs := [diff];
    }
  }
}
