/** The order book as a value: price levels, the oid index, and the functions
    that specify what the methods of `OrderBooks.OrderBook` do to them. */
module BookSpec {
  import opened Api

  type Levels = map<U64, seq<Order>>

  datatype Book = Book(bids: Levels, asks: Levels, oidToLevel: map<U64, U64>)

  const EMPTY_BOOK := Book(map[], map[], map[])

  // On the bid side the higher price comes first, on the ask side the lower one.
  predicate Ahead(bidSide: bool, p: U64, q: U64) {
    if bidSide then p > q else p < q
  }

  ghost predicate IsBest(bidSide: bool, keys: set<U64>, p: U64) {
    p in keys && forall q :: q in keys && q != p ==> Ahead(bidSide, p, q)
  }

  lemma {:induction false} BestExists(bidSide: bool, keys: set<U64>)
    requires keys != {}
    ensures exists p {:trigger IsBest(bidSide, keys, p)} :: IsBest(bidSide, keys, p)
    decreases keys
  {
    var k :| k in keys;
    var others := keys - {k};
    if others == {} {
      assert IsBest(bidSide, keys, k) by {
        assert keys == {k};
      }
    } else {
      BestExists(bidSide, others);
      var p :| IsBest(bidSide, others, p);
      var best := if Ahead(bidSide, k, p) then k else p;
      forall q | q in keys && q != best
        ensures Ahead(bidSide, best, q)
      {
        assert q == k || q in others;
      }
      assert IsBest(bidSide, keys, best);
    }
  }

  /** `bid_max` on the bid side, `ask_min` on the ask side. Empty levels count. */
  ghost function Best(bidSide: bool, levels: Levels): (best: Option<U64>)
    ensures best.None? <==> levels == map[]
    ensures best.Some? ==> IsBest(bidSide, levels.Keys, best.value)
  {
    if levels.Keys == {} then None
    else
      BestExists(bidSide, levels.Keys);
      var p :| IsBest(bidSide, levels.Keys, p);
      Some(p)
  }

  predicate Crosses(taker: Order, price: U64) {
    if taker.isBuy then taker.limitPrice >= price else taker.limitPrice <= price
  }

  function FillOf(maker: Order, taker: Order, size: U64): OrderFill {
    if taker.isBuy then OrderFill(maker.oid, taker.oid, size, maker.limitPrice, taker.address, maker.address)
    else OrderFill(maker.oid, taker.oid, size, maker.limitPrice, maker.address, taker.address)
  }

  /** Greedy filling from the front of `makers` until the taker or the makers are
      used up. What remains of the taker: */
  function Left(makers: seq<Order>, size: U64): (left: U64)
    ensures left <= size
  {
    if makers == [] then size
    else if makers[0].size <= size then Left(makers[1..], size - makers[0].size)
    else 0
  }

  // the fills made,
  function Fills(makers: seq<Order>, taker: Order, size: U64): (fills: seq<OrderFill>)
    ensures |fills| <= |makers|
  {
    if size == 0 || makers == [] then []
    else if makers[0].size <= size then
      [FillOf(makers[0], taker, makers[0].size)] + Fills(makers[1..], taker, size - makers[0].size)
    else [FillOf(makers[0], taker, size)]
  }

  // the makers that keep resting, the first one possibly reduced,
  function Rest(makers: seq<Order>, size: U64): (rest: seq<Order>)
    ensures |rest| <= |makers|
    ensures rest != [] ==> Left(makers, size) == 0
  {
    if size == 0 || makers == [] then makers
    else if makers[0].size <= size then Rest(makers[1..], size - makers[0].size)
    else [makers[0].(size := makers[0].size - size)] + makers[1..]
  }

  // and the index without the makers filled completely.
  function Drop(makers: seq<Order>, size: U64, oidToLevel: map<U64, U64>): map<U64, U64> {
    if size == 0 || makers == [] || makers[0].size > size then oidToLevel
    else Drop(makers[1..], size - makers[0].size, oidToLevel - {makers[0].oid})
  }

  datatype Swept = Swept(levels: Levels, oidToLevel: map<U64, U64>, remaining: U64, fills: seq<OrderFill>)

  /** The matching loop of `limit` against the levels opposite to the taker. */
  ghost function Sweep(levels: Levels, oidToLevel: map<U64, U64>, taker: Order, size: U64): (s: Swept)
    ensures s.remaining <= size
    decreases levels.Keys
  {
    var best := Best(!taker.isBuy, levels);
    if best.None? || !Crosses(taker, best.value) || size == 0 then Swept(levels, oidToLevel, size, [])
    else
      var p := best.value;
      var rest := Rest(levels[p], size);
      var index := Drop(levels[p], size, oidToLevel);
      var fills := Fills(levels[p], taker, size);
      if rest != [] then Swept(levels[p := rest], index, 0, fills)
      else
        var s := Sweep(levels - {p}, index, taker, Left(levels[p], size));
        s.(fills := fills + s.fills)
  }

  /** The sweep from here on, after `fills` have been made. */
  ghost function SweepOn(levels: Levels, oidToLevel: map<U64, U64>, taker: Order, size: U64,
                         fills: seq<OrderFill>): Swept
  {
    var s := Sweep(levels, oidToLevel, taker, size);
    s.(fills := fills + s.fills)
  }

  lemma SweepTurn(levels: Levels, oidToLevel: map<U64, U64>, taker: Order, size: U64,
                  fills: seq<OrderFill>, p: U64)
    requires Best(!taker.isBuy, levels) == Some(p) && Crosses(taker, p) && size > 0
    ensures SweepOn(levels, oidToLevel, taker, size, fills)
         == SweepOn(if Rest(levels[p], size) == [] then levels - {p} else levels[p := Rest(levels[p], size)],
                    Drop(levels[p], size, oidToLevel), taker, Left(levels[p], size),
                    fills + Fills(levels[p], taker, size))
  {
    var rest, more := Rest(levels[p], size), Fills(levels[p], taker, size);
    var left := if rest == [] then levels - {p} else levels[p := rest];
    var s := Sweep(left, Drop(levels[p], size, oidToLevel), taker, Left(levels[p], size));
    assert Sweep(levels, oidToLevel, taker, size) == s.(fills := more + s.fills) by {
      assert more + [] == more;
    }
    assert fills + (more + s.fills) == (fills + more) + s.fills;
  }

  function Push(levels: Levels, order: Order): Levels {
    levels[order.limitPrice :=
      (if order.limitPrice in levels then levels[order.limitPrice] else []) + [order]]
  }

  function Enqueue(book: Book, order: Order): Book {
    var oidToLevel := book.oidToLevel[order.oid := order.limitPrice];
    if order.isBuy then book.(bids := Push(book.bids, order), oidToLevel := oidToLevel)
    else book.(asks := Push(book.asks, order), oidToLevel := oidToLevel)
  }

  datatype Limited = Limited(book: Book, remaining: U64, fills: seq<OrderFill>)

  /** `limit`: match the opposite side, then rest what is left at the order's original size. */
  ghost function Limit(book: Book, order: Order): (l: Limited)
    ensures l.remaining <= order.size
  {
    var s := Sweep(if order.isBuy then book.asks else book.bids, book.oidToLevel, order, order.size);
    var matched := if order.isBuy then Book(book.bids, s.levels, s.oidToLevel)
                   else Book(s.levels, book.asks, s.oidToLevel);
    Limited(if s.remaining > 0 then Enqueue(matched, order) else matched, s.remaining, s.fills)
  }

  /** Position of the first order with this oid. */
  function Position(level: seq<Order>, oid: U64): (i: Option<nat>)
    ensures i.Some? ==> i.value < |level| && level[i.value].oid == oid
    ensures i.Some? ==> forall j :: 0 <= j < i.value ==> level[j].oid != oid
    ensures i.None? ==> forall j :: 0 <= j < |level| ==> level[j].oid != oid
  {
    if level == [] then None
    else if level[0].oid == oid then Some(0)
    else
      var i := Position(level[1..], oid);
      if i.None? then None else Some(i.value + 1)
  }

  datatype Cancelled = Cancelled(book: Book, order: Option<Order>)

  function TakeFrom(levels: Levels, price: U64, oid: U64): (Levels, Option<Order>)
    requires price in levels
  {
    var level := levels[price];
    var i := Position(level, oid);
    if i.None? then (levels, None)
    else (levels[price := level[..i.value] + level[i.value + 1..]], Some(level[i.value]))
  }

  /** `cancel`: drop the index entry, then look at the bids and only then at the asks. */
  function Cancel(book: Book, oid: U64): Cancelled {
    if oid !in book.oidToLevel then Cancelled(book, None)
    else
      var price := book.oidToLevel[oid];
      var book' := book.(oidToLevel := book.oidToLevel - {oid});
      if price in book.bids then
        var (bids, order) := TakeFrom(book.bids, price, oid);
        Cancelled(book'.(bids := bids), order)
      else if price in book.asks then
        var (asks, order) := TakeFrom(book.asks, price, oid);
        Cancelled(book'.(asks := asks), order)
      else Cancelled(book', None)
  }
}
