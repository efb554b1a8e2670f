/** What a taker pays: its fills come in priority order, within its limit, so its own
    lock covers them. */
module TakerPrice {
  import opened Api
  import opened BookSpec
  import opened PriceTime
  import opened Resting
  import opened BookInvariant
  import opened ClobSpec
  import opened StatusBook
  import opened Owed

  /** Price p is no worse for the taker than price q. */
  predicate NoWorse(taker: Order, p: U64, q: U64) {
    if taker.isBuy then p <= q else p >= q
  }

  // Fills at the prices of a sorted queue, as far as the limit reaches.
  lemma PricesSorted(q: seq<Order>, n: nat, taker: Order, prices: set<U64>, fills: seq<OrderFill>)
    requires Sorted(!taker.isBuy, q, prices) && n <= |q| && |fills| <= n
    requires forall i :: 0 <= i < n ==> Crosses(taker, q[i].limitPrice)
    requires forall i :: 0 <= i < |fills| ==> fills[i].price == q[i].limitPrice
    ensures forall i, j :: 0 <= i < j < |fills| ==> NoWorse(taker, fills[i].price, fills[j].price)
    ensures forall i :: 0 <= i < |fills| ==> NoWorse(taker, fills[i].price, taker.limitPrice)
  {
  }

  /** A taker meets the best prices first and never trades through its limit. */
  lemma FillPrices(book: Book, taker: Order)
    requires BookOk(book)
    ensures var fills := Limit(book, taker).fills;
      && (forall i, j :: 0 <= i < j < |fills| ==> NoWorse(taker, fills[i].price, fills[j].price))
      && (forall i :: 0 <= i < |fills| ==> fills[i].size > 0 && NoWorse(taker, fills[i].price, taker.limitPrice))
  {
    hide Queue, Fills, Limit, SideOk, Distinct, ById, Reach, Rest, Left, Drop, RestOf, Place, NoWorse, Crosses;
    var side := !taker.isBuy;
    var q := QueueOf(book, side);
    var n := Reach(taker, q);
    var makers, fills := q[..n], Limit(book, taker).fills;
    LimitIsGreedy(book, taker);
    QueueSorted(side, Side(book, side));
    FillsInOrder(makers, taker, taker.size);
    assert forall i :: 0 <= i < |fills| ==> fills[i].price == makers[i].limitPrice == q[i].limitPrice;
    PricesSorted(q, n, taker, Side(book, side).Keys, fills);
  }

  // One more fill at a price no worse than the limit.
  lemma AboveLimit(filled: int, size: int, price: int, limit: int)
    requires size >= 0 && price >= limit
    ensures filled * limit + size * price >= (filled + size) * limit
  {
    Distribute(filled, size, limit);
    Product(size, price - limit);
    Distribute(limit, price - limit, size);
  }

  lemma {:induction false} QuoteWithinLimit(fills: seq<OrderFill>, taker: Order)
    requires forall i :: 0 <= i < |fills| ==> NoWorse(taker, fills[i].price, taker.limitPrice)
    ensures var base, quote := Total(fills, SizeOf()), Total(fills, QuoteOf());
      if taker.isBuy then quote <= base * taker.limitPrice else quote >= base * taker.limitPrice
  {
    if fills != [] {
      var n := |fills| - 1;
      var f, base := fills[n], Total(fills[..n], SizeOf());
      QuoteWithinLimit(fills[..n], taker);
      if taker.isBuy {
        WithinLimit(base, f.size, f.price, taker.limitPrice);
      } else {
        AboveLimit(base, f.size, f.price, taker.limitPrice);
      }
    }
  }

  /** What a buy pays for the base it gets is at most that base at its limit, what a sell
      gets for the base it gives is at least that. */
  lemma TakerPays(book: Book, taker: Order)
    requires BookOk(book)
    ensures var l := Limit(book, taker);
      && Total(l.fills, SizeOf()) == taker.size - l.remaining
      && (taker.isBuy ==> Total(l.fills, QuoteOf()) <= (taker.size - l.remaining) * taker.limitPrice)
      && (!taker.isBuy ==> Total(l.fills, QuoteOf()) >= (taker.size - l.remaining) * taker.limitPrice)
  {
    hide Queue, Fills, Limit, SideOk, Distinct, ById, Live;
    var q := QueueOf(book, !taker.isBuy);
    LimitIsGreedy(book, taker);
    FillsComplete(q[..Reach(taker, q)], taker, taker.size);
    FillPrices(book, taker);
    QuoteWithinLimit(Limit(book, taker).fills, taker);
  }

  /** A taker's own lock covers all its fills: a seller always, a buyer whose notional fits 64 bits. */
  lemma {:induction false} OwnLockCovers(book: Book, taker: Order)
    requires BookOk(book)
    requires taker.isBuy ==> taker.size * taker.limitPrice < TWO64
    ensures var l := Limit(book, taker);
      if taker.isBuy then Total(l.fills, QuoteOf()) + l.remaining * taker.limitPrice <= taker.QuoteSize()
      else Total(l.fills, SizeOf()) + l.remaining == taker.size
  {
    hide BookOk, Limit;
    var l := Limit(book, taker);
    TakerPays(book, taker);
    if taker.isBuy {
      Mul64Exact(taker.size, taker.limitPrice);
      Distribute(taker.size - l.remaining, l.remaining, taker.limitPrice);
    }
  }

  /** The lock is the notional exactly when that fits 64 bits. */
  lemma {:induction false} NotionalExactIff(o: Order)
    ensures o.QuoteSize() == o.size * o.limitPrice <==> o.size * o.limitPrice < TWO64
  {
    Product(o.size, o.limitPrice);
  }

  /** A buy worth 2^64 locks nothing, so an account without quote may place it. */
  lemma NotionalWraps(s: State, a: Address)
    requires a in s.base.Keys && a in s.quote.Keys
    ensures var o := Order(true, 0x1_0000_0000, 0x1_0000_0000, s.oid, a);
      o.QuoteSize() == 0 && Accepts(s, o) && Locked(s, o).quote == s.quote
  {
  }

  /** The price guarantees hold of every order placed in any run. */
  lemma {:induction false} PricesOnAllRuns(requests: seq<Request>, request: Request)
    requires |requests| < TWO64 && request.AddOrder?
    ensures var s := Run(GENESIS, requests);
      var o := OrderOf(s, request);
      var l := Limit(s.book, o);
      && (forall i, j :: 0 <= i < j < |l.fills| ==> NoWorse(o, l.fills[i].price, l.fills[j].price))
      && (forall i :: 0 <= i < |l.fills| ==> NoWorse(o, l.fills[i].price, o.limitPrice))
      && Total(l.fills, SizeOf()) == o.size - l.remaining
      && (if o.isBuy then Total(l.fills, QuoteOf()) <= (o.size - l.remaining) * o.limitPrice
          else Total(l.fills, QuoteOf()) >= (o.size - l.remaining) * o.limitPrice)
  {
    hide BookOk, Limit, Run, Live;
    BookOkOnAllRuns(requests);
    var s := Run(GENESIS, requests);
    FillPrices(s.book, OrderOf(s, request));
    TakerPays(s.book, OrderOf(s, request));
  }
}
