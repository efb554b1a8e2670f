/** The mutable order book of `orderbook.rs`. Each method is proved against the
    value-level function of the same name in `BookSpec`. */
module OrderBooks {
  import opened Api
  import opened BookSpec
  import S = BookSpec

  // `limit` calls this only while some of the taker remains.
  method FillAtPriceLevel(level: seq<Order>, taker: Order, size: U64, oidToLevel: map<U64, U64>)
    returns (rest: seq<Order>, remaining: U64, fills: seq<OrderFill>, index: map<U64, U64>)
    requires size > 0
    ensures rest == Rest(level, size) && remaining == Left(level, size)
    ensures fills == Fills(level, taker, size) && index == Drop(level, size, oidToLevel)
  {
    var completeFills := 0;
    rest, remaining, fills, index := level, size, [], oidToLevel;
    assert level[0..] == level;
    var i := 0;
    while i < |level|
      invariant i == completeFills <= |level| && rest == level
      invariant i < |level| ==> remaining > 0
      invariant Rest(level, size) == Rest(level[i..], remaining)
      invariant Left(level, size) == Left(level[i..], remaining)
      invariant Fills(level, taker, size) == fills + Fills(level[i..], taker, remaining)
      invariant Drop(level, size, oidToLevel) == Drop(level[i..], remaining, index)
    {
      var maker := level[i];
      assert level[i..][0] == maker && level[i..][1..] == level[i + 1..];
      if maker.size <= remaining {
        completeFills := completeFills + 1;
        remaining := remaining - maker.size;
        fills := fills + [FillOf(maker, taker, maker.size)];
        index := index - {maker.oid};
        if remaining == 0 {
          break;
        }
      } else {
        rest := level[i := maker.(size := maker.size - remaining)];
        fills := fills + [FillOf(maker, taker, remaining)];
        remaining := 0;
        break;
      }
      i := i + 1;
    }
    rest := rest[completeFills..];
  }

  class OrderBook {
    var bids: Levels
    var asks: Levels
    var oidToLevel: map<U64, U64>

    function View(): Book
      reads this
    {
      Book(bids, asks, oidToLevel)
    }

    constructor (book: Book)
      ensures View() == book
    {
      bids, asks, oidToLevel := book.bids, book.asks, book.oidToLevel;
    }

    method BidMax() returns (best: Option<U64>)
      ensures best == Best(true, bids)
    {
      best := FindBest(true, bids);
    }

    method AskMin() returns (best: Option<U64>)
      ensures best == Best(false, asks)
    {
      best := FindBest(false, asks);
    }

    // The ordered-map lookup of the first or last key.
    static method FindBest(bidSide: bool, levels: Levels) returns (best: Option<U64>)
      ensures best == Best(bidSide, levels)
    {
      var keys := levels.Keys;
      best := None;
      while keys != {}
        invariant keys <= levels.Keys
        invariant best.None? ==> keys == levels.Keys
        invariant best.Some? ==> best.value in levels && best.value !in keys
        invariant best.Some? ==>
          forall q :: q in levels && q !in keys && q != best.value ==> Ahead(bidSide, best.value, q)
        decreases keys
      {
        var k :| k in keys;
        if best.None? || Ahead(bidSide, k, best.value) {
          best := Some(k);
        }
        keys := keys - {k};
      }
    }

    method EnqueueOrder(order: Order)
      modifies this
      ensures View() == Enqueue(old(View()), order)
    {
      oidToLevel := oidToLevel[order.oid := order.limitPrice];
      if order.isBuy {
        if order.limitPrice !in bids {
          bids := bids[order.limitPrice := []];
        }
        bids := bids[order.limitPrice := bids[order.limitPrice] + [order]];
      } else {
        if order.limitPrice !in asks {
          asks := asks[order.limitPrice := []];
        }
        asks := asks[order.limitPrice := asks[order.limitPrice] + [order]];
      }
    }

    method TakeAsks(order: Order) returns (remaining: U64, fills: seq<OrderFill>)
      requires order.isBuy
      modifies `asks, `oidToLevel
      ensures Swept(asks, oidToLevel, remaining, fills) == Sweep(old(asks), old(oidToLevel), order, order.size)
    {
      remaining, fills := order.size, [];
      ghost var goal := SweepOn(asks, oidToLevel, order, order.size, []);
      assert goal == Sweep(asks, oidToLevel, order, order.size);
      var askMin := AskMin();
      while askMin.Some? && order.limitPrice >= askMin.value && remaining > 0
        invariant remaining > 0 ==> askMin == Best(false, asks)
        invariant goal == SweepOn(asks, oidToLevel, order, remaining, fills)
        decreases remaining > 0, asks.Keys
      {
        var min := askMin.value;
        var level, newRemaining, newFills, index := FillAtPriceLevel(asks[min], order, remaining, oidToLevel);
        SweepTurn(asks, oidToLevel, order, remaining, fills, min);
        asks := if level == [] then asks - {min} else asks[min := level];
        oidToLevel, remaining, fills := index, newRemaining, fills + newFills;
        if remaining > 0 {
          askMin := AskMin();
        }
      }
      assert fills + [] == fills;
    }

    method TakeBids(order: Order) returns (remaining: U64, fills: seq<OrderFill>)
      requires !order.isBuy
      modifies `bids, `oidToLevel
      ensures Swept(bids, oidToLevel, remaining, fills) == Sweep(old(bids), old(oidToLevel), order, order.size)
    {
      remaining, fills := order.size, [];
      ghost var goal := SweepOn(bids, oidToLevel, order, order.size, []);
      assert goal == Sweep(bids, oidToLevel, order, order.size);
      var bidMax := BidMax();
      while bidMax.Some? && order.limitPrice <= bidMax.value && remaining > 0
        invariant remaining > 0 ==> bidMax == Best(true, bids)
        invariant goal == SweepOn(bids, oidToLevel, order, remaining, fills)
        decreases remaining > 0, bids.Keys
      {
        var max := bidMax.value;
        var level, newRemaining, newFills, index := FillAtPriceLevel(bids[max], order, remaining, oidToLevel);
        SweepTurn(bids, oidToLevel, order, remaining, fills, max);
        bids := if level == [] then bids - {max} else bids[max := level];
        oidToLevel, remaining, fills := index, newRemaining, fills + newFills;
        if remaining > 0 {
          bidMax := BidMax();
        }
      }
      assert fills + [] == fills;
    }

    method Limit(order: Order) returns (remaining: U64, fills: seq<OrderFill>)
      modifies this
      ensures Limited(View(), remaining, fills) == S.Limit(old(View()), order)
    {
      if order.isBuy {
        remaining, fills := TakeAsks(order);
      } else {
        remaining, fills := TakeBids(order);
      }
      if remaining > 0 {
        EnqueueOrder(order);
      }
    }

    method Cancel(oid: U64) returns (order: Option<Order>)
      modifies this
      ensures Cancelled(View(), order) == S.Cancel(old(View()), oid)
    {
      order := None;
      if oid in oidToLevel {
        var price := oidToLevel[oid];
        oidToLevel := oidToLevel - {oid};
        if price in bids {
          var level := bids[price];
          var i := Position(level, oid);
          if i.Some? {
            order := Some(level[i.value]);
            bids := bids[price := level[..i.value] + level[i.value + 1..]];
          }
        } else if price in asks {
          var level := asks[price];
          var i := Position(level, oid);
          if i.Some? {
            order := Some(level[i.value]);
            asks := asks[price := level[..i.value] + level[i.value + 1..]];
          }
        }
      }
    }
  }
}
