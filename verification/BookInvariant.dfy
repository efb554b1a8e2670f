/** What every run keeps true of the order book, and what one `limit` or `cancel`
    does to the two queues and to the resting orders. */
module BookInvariant {
  import opened Api
  import opened BookSpec
  import opened PriceTime
  import opened Resting

  function Side(book: Book, bidSide: bool): Levels {
    if bidSide then book.bids else book.asks
  }

  ghost function QueueOf(book: Book, bidSide: bool): seq<Order> {
    Queue(bidSide, Side(book, bidSide))
  }

  /** All resting orders by oid. */
  ghost function Live(book: Book): map<U64, Order> {
    ById(QueueOf(book, true)) + ById(QueueOf(book, false))
  }

  ghost predicate HalfOk(book: Book, bidSide: bool) {
    && SideOk(bidSide, Side(book, bidSide))
    && Distinct(QueueOf(book, bidSide))
  }

  /** The best bid is below the best ask, counting levels left empty by `cancel`. */
  ghost predicate Apart(book: Book) {
    var bid, ask := Best(true, book.bids), Best(false, book.asks);
    bid.Some? && ask.Some? ==> bid.value < ask.value
  }

  /** Every resting order is on its own side at its own price with something left, the
      sides do not cross, oids are unique, and
      `oidToLevel` holds exactly the resting orders with their prices. */
  ghost predicate BookOk(book: Book) {
    && HalfOk(book, true) && HalfOk(book, false)
    && Apart(book)
    && ById(QueueOf(book, true)).Keys !! ById(QueueOf(book, false)).Keys
    && book.oidToLevel.Keys == Live(book).Keys
    && (forall oid :: oid in Live(book).Keys ==> book.oidToLevel[oid] == Live(book)[oid].limitPrice)
  }

  lemma EmptyBookOk()
    ensures BookOk(EMPTY_BOOK) && Live(EMPTY_BOOK) == map[]
  {
  }

  // ---- limit ----

  /** A queue with one more order, behind everything at least as good. */
  function Place(bidSide: bool, queue: seq<Order>, order: Order): seq<Order> {
    if queue == [] || Ahead(bidSide, order.limitPrice, queue[0].limitPrice) then [order] + queue
    else [queue[0]] + Place(bidSide, queue[1..], order)
  }

  lemma {:induction false} PlaceBetween(bidSide: bool, a: seq<Order>, b: seq<Order>, order: Order)
    requires forall i :: 0 <= i < |a| ==> !Ahead(bidSide, order.limitPrice, a[i].limitPrice)
    requires b != [] ==> Ahead(bidSide, order.limitPrice, b[0].limitPrice)
    ensures Place(bidSide, a + b, order) == a + ([order] + b)
  {
    if a == [] {
      assert a + b == b && a + ([order] + b) == [order] + b;
    } else {
      assert (a + b)[0] == a[0] && (a + b)[1..] == a[1..] + b;
      PlaceBetween(bidSide, a[1..], b, order);
      Assoc([a[0]], a[1..], [order] + b);
      assert [a[0]] + a[1..] == a;
    }
  }

  lemma {:induction false} ByIdPlace(bidSide: bool, queue: seq<Order>, order: Order)
    requires Distinct(queue) && order.oid !in ById(queue).Keys
    ensures ById(Place(bidSide, queue, order)) == ById(queue)[order.oid := order]
    ensures Distinct(Place(bidSide, queue, order))
  {
    if queue != [] && !Ahead(bidSide, order.limitPrice, queue[0].limitPrice) {
      var tail := queue[1..];
      ByIdPlace(bidSide, tail, order);
      assert ([queue[0]] + Place(bidSide, tail, order))[1..] == Place(bidSide, tail, order);
    } else {
      assert ([order] + queue)[1..] == queue;
    }
  }

  // Before and behind the place where an order of price p goes.
  ghost function Front(bidSide: bool, levels: Levels, p: U64): seq<Order> {
    Queue(bidSide, AheadOf(bidSide, levels, p)) + LevelAt(levels, p)
  }

  ghost function Back(bidSide: bool, levels: Levels, p: U64): seq<Order> {
    Queue(bidSide, Behind(bidSide, levels, p))
  }

  lemma PushCut(bidSide: bool, levels: Levels, order: Order)
    ensures var p := order.limitPrice;
      Queue(bidSide, Push(levels, order)) == Front(bidSide, levels, p) + ([order] + Back(bidSide, levels, p))
  {
    hide Queue;
    var p := order.limitPrice;
    var levels' := Push(levels, order);
    QueueCut(bidSide, levels', p);
    assert AheadOf(bidSide, levels', p) == AheadOf(bidSide, levels, p);
    assert Behind(bidSide, levels', p) == Behind(bidSide, levels, p);
    assert LevelAt(levels', p) == LevelAt(levels, p) + [order];
    Assoc(Queue(bidSide, AheadOf(bidSide, levels, p)), LevelAt(levels, p), [order]);
    Assoc(Front(bidSide, levels, p), [order], Back(bidSide, levels, p));
  }

  lemma {:induction false} FrontBack(bidSide: bool, levels: Levels, p: U64)
    requires SideOk(bidSide, levels)
    ensures var a, b := Front(bidSide, levels, p), Back(bidSide, levels, p);
      && Queue(bidSide, levels) == a + b
      && (forall i :: 0 <= i < |a| ==> !Ahead(bidSide, p, a[i].limitPrice))
      && (b != [] ==> Ahead(bidSide, p, b[0].limitPrice))
  {
    hide Queue, SideOk, AheadOf, Behind;
    QueueCut(bidSide, levels, p);
    FrontNotBehind(bidSide, levels, p);
    BackBehind(bidSide, levels, p);
  }

  lemma FrontNotBehind(bidSide: bool, levels: Levels, p: U64)
    requires SideOk(bidSide, levels)
    ensures var a := Front(bidSide, levels, p);
      forall i :: 0 <= i < |a| ==> !Ahead(bidSide, p, a[i].limitPrice)
  {
    hide Queue;
    var ahead := AheadOf(bidSide, levels, p);
    var q := Queue(bidSide, ahead);
    var a: seq<Order> := q + LevelAt(levels, p);
    QueueSorted(bidSide, ahead);
    forall i | 0 <= i < |a|
      ensures !Ahead(bidSide, p, a[i].limitPrice)
    {
      assert i < |q| ==> q[i].limitPrice in ahead.Keys;
    }
  }

  lemma BackBehind(bidSide: bool, levels: Levels, p: U64)
    requires SideOk(bidSide, levels)
    ensures var b := Back(bidSide, levels, p);
      b != [] ==> Ahead(bidSide, p, b[0].limitPrice)
  {
    hide Queue;
    var behind := Behind(bidSide, levels, p);
    QueueSorted(bidSide, behind);
    var b := Queue(bidSide, behind);
    assert b != [] ==> b[0].limitPrice in behind.Keys;
  }

  /** Resting an order places it behind everything at least as good. */
  lemma PushPlaces(bidSide: bool, levels: Levels, order: Order)
    requires SideOk(bidSide, levels)
    ensures Queue(bidSide, Push(levels, order)) == Place(bidSide, Queue(bidSide, levels), order)
  {
    var p := order.limitPrice;
    PushCut(bidSide, levels, order);
    FrontBack(bidSide, levels, p);
    PlaceBetween(bidSide, Front(bidSide, levels, p), Back(bidSide, levels, p), order);
  }

  // Orders that made no fill do not disturb the reduction of the others.
  lemma ReducedUnion(before: map<U64, Order>, after: map<U64, Order>, others: map<U64, Order>,
                     fills: seq<OrderFill>, oid: U64)
    requires Reduced(before, after, fills, oid)
    requires before.Keys !! others.Keys
    requires oid in others.Keys ==> Total(fills, MadeBy(oid)) == 0 && others[oid].size > 0
    ensures Reduced(before + others, after + others, fills, oid)
  {
  }

  // Greedy matching of a whole queue, order by order.
  lemma QueueReduced(queue: seq<Order>, taker: Order, size: U64, oid: U64)
    requires Distinct(queue) && forall i :: 0 <= i < |queue| ==> queue[i].size > 0
    ensures var fills := Fills(queue[..Reach(taker, queue)], taker, size);
      Reduced(ById(queue), ById(RestOf(taker, queue, size)), fills, oid)
  {
    var n := Reach(taker, queue);
    var a, b := queue[..n], queue[n..];
    assert queue == a + b;
    ByIdAppend(a, b);
    RestReduced(a, taker, size, oid);
    RestDistinct(a, size);
    DistinctAppend(Rest(a, size), b);
    if oid in ById(b).Keys {
      NoMaker(a, taker, size, oid);
      ByIdMember(b, oid);
    }
    ReducedUnion(ById(a), ById(Rest(a, size)), ById(b), Fills(a, taker, size), oid);
  }

  lemma QueueDropped(queue: seq<Order>, taker: Order, size: U64, oidToLevel: map<U64, U64>, oid: U64)
    requires Distinct(queue) && forall i :: 0 <= i < |queue| ==> queue[i].size > 0
    ensures var index := Drop(queue[..Reach(taker, queue)], size, oidToLevel);
      var rest := RestOf(taker, queue, size);
      && (oid in index.Keys <==> oid in oidToLevel.Keys && (oid in ById(queue).Keys ==> oid in ById(rest).Keys))
      && (oid in index.Keys ==> index[oid] == oidToLevel[oid])
  {
    var n := Reach(taker, queue);
    var a, b := queue[..n], queue[n..];
    assert queue == a + b;
    ByIdAppend(a, b);
    RestDistinct(a, size);
    DistinctAppend(Rest(a, size), b);
    DropExact(a, size, oidToLevel, oid);
  }

  /** `limit` on the two queues: greedy matching of the opposite one, and what remains
      of the taker placed, at its original size, in its own. */
  lemma LimitIsGreedy(book: Book, taker: Order)
    requires HalfOk(book, true) && HalfOk(book, false)
    ensures var l := Limit(book, taker);
      var q := QueueOf(book, !taker.isBuy);
      var reached := q[..Reach(taker, q)];
      && l.fills == Fills(reached, taker, taker.size)
      && l.remaining == Left(reached, taker.size)
      && QueueOf(l.book, !taker.isBuy) == RestOf(taker, q, taker.size)
      && QueueOf(l.book, taker.isBuy) ==
         (if l.remaining > 0 then Place(taker.isBuy, QueueOf(book, taker.isBuy), taker) else QueueOf(book, taker.isBuy))
      && l.book.oidToLevel ==
         (var index := Drop(reached, taker.size, book.oidToLevel);
          if l.remaining > 0 then index[taker.oid := taker.limitPrice] else index)
  {
    SweepIsGreedy(Side(book, !taker.isBuy), book.oidToLevel, taker, taker.size);
    PushPlaces(taker.isBuy, Side(book, taker.isBuy), taker);
  }

  lemma LimitLevels(book: Book, taker: Order)
    requires BookOk(book)
    ensures var book' := Limit(book, taker).book;
      SideOk(true, book'.bids) && SideOk(false, book'.asks) && Apart(book')
  {
    hide Queue, ById, Distinct, Live;
    var levels := Side(book, !taker.isBuy);
    var s := Sweep(levels, book.oidToLevel, taker, taker.size);
    var book' := Limit(book, taker).book;
    SweepLevels(levels, book.oidToLevel, taker, taker.size);
    assert Side(book', !taker.isBuy) == s.levels;
    var own, own' := Side(book, taker.isBuy), Side(book', taker.isBuy);
    if s.remaining > 0 {
      PushOk(taker.isBuy, own, taker);
    }
    var best, best' := Best(taker.isBuy, own), Best(taker.isBuy, own');
    var theirs := Best(!taker.isBuy, s.levels);
    if best'.Some? && theirs.Some? {
      assert theirs.value in levels.Keys;
      assert best'.value in own.Keys || (s.remaining > 0 && best'.value == taker.limitPrice);
    }
  }

  lemma PushOk(bidSide: bool, levels: Levels, order: Order)
    requires SideOk(bidSide, levels) && order.isBuy == bidSide && order.size > 0
    ensures SideOk(bidSide, Push(levels, order))
    ensures Push(levels, order).Keys == levels.Keys + {order.limitPrice}
  {
  }

  ghost predicate Disjoint(book: Book) {
    && Distinct(QueueOf(book, true)) && Distinct(QueueOf(book, false))
    && ById(QueueOf(book, true)).Keys !! ById(QueueOf(book, false)).Keys
  }

  lemma LiveSides(book: Book, side: bool)
    requires Disjoint(book)
    ensures Live(book) == ById(QueueOf(book, side)) + ById(QueueOf(book, !side))
    ensures Live(book) == ById(QueueOf(book, !side)) + ById(QueueOf(book, side))
  {
  }

  lemma RestOfDistinct(queue: seq<Order>, taker: Order, size: U64)
    requires Distinct(queue)
    ensures Distinct(RestOf(taker, queue, size)) && ById(RestOf(taker, queue, size)).Keys <= ById(queue).Keys
  {
    hide Distinct, ById, Rest, Reach;
    var a, b := queue[..Reach(taker, queue)], queue[Reach(taker, queue)..];
    assert queue == a + b;
    ByIdAppend(a, b);
    RestDistinct(a, size);
    DistinctAppend(Rest(a, size), b);
  }

  // The resting orders of both sides after `limit`.
  lemma LimitSides(book: Book, taker: Order)
    requires BookOk(book) && taker.oid !in Live(book).Keys
    ensures var l := Limit(book, taker);
      var own, q := QueueOf(book, taker.isBuy), QueueOf(book, !taker.isBuy);
      && Disjoint(l.book)
      && ById(QueueOf(l.book, taker.isBuy)) == (if l.remaining > 0 then ById(own)[taker.oid := taker] else ById(own))
      && ById(QueueOf(l.book, !taker.isBuy)) == ById(RestOf(taker, q, taker.size))
      && ById(RestOf(taker, q, taker.size)).Keys <= ById(q).Keys
  {
    hide Queue, Fills, Rest, RestOf, Drop, ById, Distinct, Limit, SideOk, Place, Reach, Left;
    LiveSides(book, taker.isBuy);
    LimitIsGreedy(book, taker);
    ByIdPlace(taker.isBuy, QueueOf(book, taker.isBuy), taker);
    RestOfDistinct(QueueOf(book, !taker.isBuy), taker, taker.size);
  }

  /** Each resting order keeps what was not filled, and leaves the book at zero; the taker
      rests, whole, exactly when something of it remains. */
  lemma LimitLive(book: Book, taker: Order, oid: U64)
    requires BookOk(book) && taker.oid !in Live(book).Keys
    ensures var l := Limit(book, taker);
      && (oid != taker.oid ==> Reduced(Live(book), Live(l.book), l.fills, oid))
      && (taker.oid in Live(l.book).Keys <==> l.remaining > 0)
      && (l.remaining > 0 ==> Live(l.book)[taker.oid] == taker)
  {
    hide Queue, Fills, Rest, RestOf, Drop, ById, Distinct, Limit, SideOk, Place, Reach, Left;
    var own, q := QueueOf(book, taker.isBuy), QueueOf(book, !taker.isBuy);
    var l := Limit(book, taker);
    LimitSides(book, taker);
    LiveSides(book, taker.isBuy);
    LiveSides(l.book, taker.isBuy);
    if oid != taker.oid {
      LimitIsGreedy(book, taker);
      QueueSorted(!taker.isBuy, Side(book, !taker.isBuy));
      QueueReduced(q, taker, taker.size, oid);
      if oid in ById(own).Keys {
        OwnUntouched(book, taker, oid);
      }
      ReducedUnion(ById(q), ById(RestOf(taker, q, taker.size)), ById(own), l.fills, oid);
    }
  }

  // Orders on the taker's own side make no fill.
  lemma OwnUntouched(book: Book, taker: Order, oid: U64)
    requires BookOk(book) && oid in ById(QueueOf(book, taker.isBuy)).Keys
    ensures ById(QueueOf(book, taker.isBuy))[oid].size > 0
    ensures Total(Limit(book, taker).fills, MadeBy(oid)) == 0
  {
    hide Queue, Fills, Rest, Drop, ById, Distinct, Limit, SideOk, Place;
    var own, q := QueueOf(book, taker.isBuy), QueueOf(book, !taker.isBuy);
    LimitIsGreedy(book, taker);
    ByIdMember(own, oid);
    QueueSorted(taker.isBuy, Side(book, taker.isBuy));
    var n := Reach(taker, q);
    assert q == q[..n] + q[n..];
    ByIdAppend(q[..n], q[n..]);
    NoMaker(q[..n], taker, taker.size, oid);
  }

  lemma LimitIndex(book: Book, taker: Order, oid: U64)
    requires BookOk(book) && taker.oid !in Live(book).Keys
    ensures var book' := Limit(book, taker).book;
      && (oid in book'.oidToLevel.Keys <==> oid in Live(book').Keys)
      && (oid in Live(book').Keys ==> book'.oidToLevel[oid] == Live(book')[oid].limitPrice)
  {
    hide Queue, Fills, Rest, Drop, ById, Distinct, Limit, SideOk, Place;
    var own, q := QueueOf(book, taker.isBuy), QueueOf(book, !taker.isBuy);
    var l := Limit(book, taker);
    LimitSides(book, taker);
    LimitIsGreedy(book, taker);
    LiveSides(book, taker.isBuy);
    LiveSides(l.book, taker.isBuy);
    QueueSorted(!taker.isBuy, Side(book, !taker.isBuy));
    QueueDropped(q, taker, taker.size, book.oidToLevel, oid);
    QueueReduced(q, taker, taker.size, oid);
  }

  /** `limit` keeps the book invariant. */
  lemma LimitOk(book: Book, taker: Order)
    requires BookOk(book) && taker.oid !in Live(book).Keys
    ensures BookOk(Limit(book, taker).book)
  {
    hide Queue, ById, Distinct, Limit, SideOk, Live;
    var book' := Limit(book, taker).book;
    LimitLevels(book, taker);
    LimitSides(book, taker);
    forall oid
      ensures oid in book'.oidToLevel.Keys <==> oid in Live(book').Keys
      ensures oid in Live(book').Keys ==> book'.oidToLevel[oid] == Live(book')[oid].limitPrice
    {
      LimitIndex(book, taker, oid);
    }
  }

  // ---- cancel ----

  /** A queue without one order, everything else in place. */
  function Without(queue: seq<Order>, oid: U64): seq<Order> {
    if queue == [] then []
    else if queue[0].oid == oid then queue[1..]
    else [queue[0]] + Without(queue[1..], oid)
  }

  lemma {:induction false} WithoutBetween(a: seq<Order>, o: Order, b: seq<Order>)
    requires forall i :: 0 <= i < |a| ==> a[i].oid != o.oid
    ensures Without(a + ([o] + b), o.oid) == a + b
  {
    if a == [] {
      assert a + ([o] + b) == [o] + b && a + b == b;
    } else {
      assert (a + ([o] + b))[0] == a[0] && (a + ([o] + b))[1..] == a[1..] + ([o] + b);
      WithoutBetween(a[1..], o, b);
      Assoc([a[0]], a[1..], b);
      assert [a[0]] + a[1..] == a;
    }
  }

  lemma {:induction false} ByIdWithout(queue: seq<Order>, oid: U64)
    requires Distinct(queue)
    ensures ById(Without(queue, oid)) == ById(queue) - {oid}
    ensures Distinct(Without(queue, oid))
  {
    if queue != [] && queue[0].oid != oid {
      ByIdWithout(queue[1..], oid);
      assert ([queue[0]] + Without(queue[1..], oid))[1..] == Without(queue[1..], oid);
    }
  }

  // A resting order is found on the level of its price.
  lemma OnLevel(bidSide: bool, levels: Levels, o: Order)
    requires SideOk(bidSide, levels) && o in Queue(bidSide, levels)
    ensures o.limitPrice in levels.Keys && o in levels[o.limitPrice]
  {
    var p := o.limitPrice;
    var ahead, behind := AheadOf(bidSide, levels, p), Behind(bidSide, levels, p);
    QueueCut(bidSide, levels, p);
    QueueSorted(bidSide, ahead);
    QueueSorted(bidSide, behind);
    var a, b := Queue(bidSide, ahead), Queue(bidSide, behind);
    assert forall i :: 0 <= i < |a| ==> a[i].limitPrice in ahead.Keys;
    assert forall i :: 0 <= i < |b| ==> b[i].limitPrice in behind.Keys;
  }

  lemma TakeCut(bidSide: bool, levels: Levels, p: U64, i: nat)
    requires p in levels && i < |levels[p]|
    ensures var level := levels[p];
      var a, b := Queue(bidSide, AheadOf(bidSide, levels, p)) + level[..i], level[i + 1..] + Back(bidSide, levels, p);
      && Queue(bidSide, levels) == a + ([level[i]] + b)
      && Queue(bidSide, levels[p := level[..i] + level[i + 1..]]) == a + b
  {
    hide Queue;
    var level := levels[p];
    var levels' := levels[p := level[..i] + level[i + 1..]];
    QueueCut(bidSide, levels, p);
    QueueCut(bidSide, levels', p);
    assert AheadOf(bidSide, levels', p) == AheadOf(bidSide, levels, p);
    assert Behind(bidSide, levels', p) == Behind(bidSide, levels, p);
    Splice(Queue(bidSide, AheadOf(bidSide, levels, p)), level, i, Back(bidSide, levels, p));
  }

  lemma Splice<T>(a: seq<T>, l: seq<T>, i: nat, b: seq<T>)
    requires i < |l|
    ensures a + l + b == (a + l[..i]) + ([l[i]] + (l[i + 1..] + b))
    ensures a + (l[..i] + l[i + 1..]) + b == (a + l[..i]) + (l[i + 1..] + b)
  {
  }

  lemma TakeFromQueue(bidSide: bool, levels: Levels, o: Order)
    requires SideOk(bidSide, levels) && Distinct(Queue(bidSide, levels)) && o in Queue(bidSide, levels)
    ensures o.limitPrice in levels.Keys
    ensures var (levels', order) := TakeFrom(levels, o.limitPrice, o.oid);
      && order == Some(o)
      && Queue(bidSide, levels') == Without(Queue(bidSide, levels), o.oid)
      && SideOk(bidSide, levels') && levels'.Keys == levels.Keys
  {
    hide Queue, ById, Distinct, Without;
    OnLevel(bidSide, levels, o);
    var p := o.limitPrice;
    var level := levels[p];
    var i := Position(level, o.oid).value;
    TakeCut(bidSide, levels, p, i);
    var a, b := Queue(bidSide, AheadOf(bidSide, levels, p)) + level[..i], level[i + 1..] + Back(bidSide, levels, p);
    var q := Queue(bidSide, levels);
    assert q[|a|] == level[i];
    var j :| 0 <= j < |q| && q[j] == o;
    DistinctPair(q, j, |a|);
    forall k | 0 <= k < |a|
      ensures a[k].oid != o.oid
    {
      if a[k].oid == o.oid {
        assert q[k] == a[k];
        DistinctPair(q, k, |a|);
      }
    }
    WithoutBetween(a, o, b);
  }

  /** Every bid level is below every ask level, the empty ones included. */
  lemma SidesApart(book: Book, p: U64, q: U64)
    requires Apart(book) && p in book.bids.Keys && q in book.asks.Keys
    ensures p < q
  {
    var bid, ask := Best(true, book.bids).value, Best(false, book.asks).value;
    assert bid == p || Ahead(true, bid, p);
    assert ask == q || Ahead(false, ask, q);
  }

  // Where a resting order is, and that the lookup by price cannot miss it.
  lemma LiveOrder(book: Book, oid: U64)
    requires BookOk(book) && oid in Live(book).Keys
    ensures var o := Live(book)[oid];
      && o.oid == oid && o in QueueOf(book, o.isBuy)
      && oid in ById(QueueOf(book, o.isBuy)).Keys && oid !in ById(QueueOf(book, !o.isBuy)).Keys
      && (!o.isBuy ==> o.limitPrice !in book.bids.Keys)
  {
    var o := Live(book)[oid];
    var side := oid in ById(QueueOf(book, true)).Keys;
    ByIdMember(QueueOf(book, side), oid);
    QueueSorted(side, Side(book, side));
    assert o.isBuy == side;
    OnLevel(side, Side(book, side), o);
    if !side && o.limitPrice in book.bids.Keys {
      SidesApart(book, o.limitPrice, o.limitPrice);
    }
  }

  /** `cancel` of a resting order returns it and takes it, and nothing else, out of its
      queue. Empty levels stay behind. */
  lemma {:induction false} CancelTakes(book: Book, oid: U64)
    requires BookOk(book) && oid in Live(book).Keys
    ensures var c, o := Cancel(book, oid), Live(book)[oid];
      && c.order == Some(o)
      && QueueOf(c.book, o.isBuy) == Without(QueueOf(book, o.isBuy), oid)
      && Side(c.book, !o.isBuy) == Side(book, !o.isBuy)
      && Side(c.book, o.isBuy).Keys == Side(book, o.isBuy).Keys
      && SideOk(o.isBuy, Side(c.book, o.isBuy))
      && c.book.oidToLevel == book.oidToLevel - {oid}
  {
    hide Queue, ById, Distinct;
    var o := Live(book)[oid];
    LiveOrder(book, oid);
    TakeFromQueue(o.isBuy, Side(book, o.isBuy), o);
  }

  // Only the keys decide the best price.
  lemma BestOfKeys(bidSide: bool, levels: Levels, levels': Levels)
    requires levels.Keys == levels'.Keys
    ensures Best(bidSide, levels) == Best(bidSide, levels')
  {
    if levels == map[] {
      assert levels' == map[];
    } else {
      BestIs(bidSide, levels, Best(bidSide, levels').value);
    }
  }

  /** `cancel` keeps the book invariant, and removes exactly its order; of an oid that
      does not rest it changes nothing. */
  lemma CancelOk(book: Book, oid: U64)
    requires BookOk(book)
    ensures oid !in Live(book).Keys ==> Cancel(book, oid) == Cancelled(book, None)
    ensures BookOk(Cancel(book, oid).book)
    ensures Live(Cancel(book, oid).book) == Live(book) - {oid}
  {
    hide Queue, ById, Distinct, SideOk;
    if oid in Live(book).Keys {
      var book', side := Cancel(book, oid).book, Live(book)[oid].isBuy;
      CancelTakes(book, oid);
      LiveOrder(book, oid);
      ByIdWithout(QueueOf(book, side), oid);
      BestOfKeys(side, Side(book, side), Side(book', side));
      CancelLive(book, book', oid, side);
    }
  }

  lemma CancelLive(book: Book, book': Book, oid: U64, side: bool)
    requires Disjoint(book) && Distinct(QueueOf(book', side))
    requires ById(QueueOf(book', side)) == ById(QueueOf(book, side)) - {oid}
    requires QueueOf(book', !side) == QueueOf(book, !side)
    requires oid !in ById(QueueOf(book, !side)).Keys
    ensures Disjoint(book')
    ensures Live(book') == Live(book) - {oid}
  {
    hide Queue, ById, Distinct;
    LiveSides(book, side);
    LiveSides(book', side);
    var mine, theirs := ById(QueueOf(book, side)), ById(QueueOf(book, !side));
    assert (mine - {oid}) + theirs == (mine + theirs) - {oid};
  }

  /** Cancelling a fresh order that met nothing undoes placing it: same order back, both
      queues and the index as before. */
  lemma CancelUndoesLimit(book: Book, order: Order)
    requires BookOk(book) && order.oid !in Live(book).Keys && order.size > 0
    requires Limit(book, order).fills == []
    ensures var c := Cancel(Limit(book, order).book, order.oid);
      && c.order == Some(order)
      && QueueOf(c.book, true) == QueueOf(book, true)
      && QueueOf(c.book, false) == QueueOf(book, false)
      && c.book.oidToLevel == book.oidToLevel
  {
    hide Queue, ById, Distinct, Limit, SideOk, Place, Without, Cancel;
    var l := Limit(book, order);
    var q, own := QueueOf(book, !order.isBuy), QueueOf(book, order.isBuy);
    PlacedOnly(book, order);
    LimitOk(book, order);
    LimitLive(book, order, order.oid);
    CancelTakes(l.book, order.oid);
    LiveSides(book, order.isBuy);
    WithoutPlace(order.isBuy, own, order);
    var index := book.oidToLevel[order.oid := order.limitPrice];
    assert index - {order.oid} == book.oidToLevel;
  }

  lemma PlacedOnly(book: Book, order: Order)
    requires HalfOk(book, true) && HalfOk(book, false) && order.size > 0
    requires Limit(book, order).fills == []
    ensures var l := Limit(book, order);
      && l.remaining == order.size
      && QueueOf(l.book, !order.isBuy) == QueueOf(book, !order.isBuy)
      && QueueOf(l.book, order.isBuy) == Place(order.isBuy, QueueOf(book, order.isBuy), order)
      && l.book.oidToLevel == book.oidToLevel[order.oid := order.limitPrice]
  {
    var q := QueueOf(book, !order.isBuy);
    var n := Reach(order, q);
    LimitIsGreedy(book, order);
    NoFillNoChange(q[..n], order, order.size, book.oidToLevel);
    assert q[..n] + q[n..] == q;
  }

  lemma NoFillNoChange(makers: seq<Order>, taker: Order, size: U64, oidToLevel: map<U64, U64>)
    requires Fills(makers, taker, size) == []
    ensures Rest(makers, size) == makers && Left(makers, size) == size && Drop(makers, size, oidToLevel) == oidToLevel
  {
  }

  lemma {:induction false} WithoutPlace(bidSide: bool, queue: seq<Order>, order: Order)
    requires Distinct(queue) && order.oid !in ById(queue).Keys
    ensures Without(Place(bidSide, queue, order), order.oid) == queue
  {
    if queue != [] && !Ahead(bidSide, order.limitPrice, queue[0].limitPrice) {
      WithoutPlace(bidSide, queue[1..], order);
      assert ([queue[0]] + Place(bidSide, queue[1..], order))[1..] == Place(bidSide, queue[1..], order);
      assert [queue[0]] + queue[1..] == queue;
    } else {
      assert ([order] + queue)[1..] == queue;
    }
  }
}
