/** The book price by price: what each level holds after an order and after a cancel, and
    which levels are there. The queues of `BookInvariant` do not see empty levels. */
module BookLevels {
  import opened Api
  import opened Sums
  import opened BookSpec
  import opened PriceTime
  import opened Resting
  import opened BookInvariant

  /** Everything the orders of a level are for. */
  function Depth(level: seq<Order>): int {
    if level == [] then 0 else level[0].size + Depth(level[1..])
  }

  ghost function DepthAt(levels: Levels): U64 -> int {
    (p: U64) => if p in levels.Keys then Depth(levels[p]) else 0
  }

  ghost function PricesAhead(bidSide: bool, levels: Levels, p: U64): set<U64> {
    set q | q in levels.Keys && Ahead(bidSide, q, p)
  }

  /** Everything there is at better prices. */
  ghost function DepthAhead(bidSide: bool, levels: Levels, p: U64): int {
    Sum(PricesAhead(bidSide, levels, p), DepthAt(levels))
  }

  // ---- One level ----

  lemma {:induction false} DepthNonNegative(level: seq<Order>)
    ensures Depth(level) >= 0
  {
    if level != [] {
      DepthNonNegative(level[1..]);
    }
  }

  /** A level is used up exactly if what it holds does not exceed the taker. */
  lemma {:induction false} UsedUpIff(level: seq<Order>, size: U64)
    requires forall i :: 0 <= i < |level| ==> level[i].size > 0
    ensures Rest(level, size) == [] <==> Depth(level) <= size
    ensures Depth(level) <= size ==> Left(level, size) == size - Depth(level)
  {
    if level != [] {
      DepthNonNegative(level[1..]);
      if level[0].size <= size {
        UsedUpIff(level[1..], size - level[0].size);
      }
    }
  }

  // ---- All levels ----

  lemma AheadOfBest(bidSide: bool, levels: Levels, b: U64, p: U64)
    requires IsBest(bidSide, levels.Keys, b) && p in levels.Keys && p != b
    ensures DepthAhead(bidSide, levels, p) == Depth(levels[b]) + DepthAhead(bidSide, levels - {b}, p)
  {
    SumPick(PricesAhead(bidSide, levels, p), DepthAt(levels), b);
    assert PricesAhead(bidSide, levels, p) - {b} == PricesAhead(bidSide, levels - {b}, p);
    SumSame(PricesAhead(bidSide, levels - {b}, p), DepthAt(levels), DepthAt(levels - {b}));
  }

  lemma NoneAhead(bidSide: bool, levels: Levels, b: U64)
    requires IsBest(bidSide, levels.Keys, b)
    ensures DepthAhead(bidSide, levels, b) == 0
  {
    assert PricesAhead(bidSide, levels, b) == {};
  }

  lemma AheadNonNegative(bidSide: bool, levels: Levels, p: U64)
    ensures DepthAhead(bidSide, levels, p) >= 0
  {
    forall q | q in PricesAhead(bidSide, levels, p)
      ensures DepthAt(levels)(q) >= 0
    {
      DepthNonNegative(levels[q]);
    }
    SumNonNegative(PricesAhead(bidSide, levels, p), DepthAt(levels));
  }

  // What the taker has left when the matching gets to price p, if it does.
  ghost function LeftAt(levels: Levels, taker: Order, size: U64, p: U64): int {
    size - DepthAhead(!taker.isBuy, levels, p)
  }

  // The matching gets to this level.
  ghost predicate Hit(levels: Levels, taker: Order, size: U64, p: U64) {
    p in levels.Keys && Crosses(taker, p) && LeftAt(levels, taker, size, p) > 0
  }

  ghost predicate Matched(before: Levels, after: Levels, taker: Order, size: U64, p: U64) {
    var left := LeftAt(before, taker, size, p);
    && (p in after.Keys <==> p in before.Keys && (Hit(before, taker, size, p) ==> Depth(before[p]) > left))
    && (p in after.Keys ==>
          after[p] == if Hit(before, taker, size, p) && left <= size then Rest(before[p], left) else before[p])
  }

  lemma SizesPositive(bidSide: bool, levels: Levels)
    requires SideOk(bidSide, levels)
    ensures forall p :: p in levels.Keys ==>
      SideOk(bidSide, levels - {p}) && forall i :: 0 <= i < |levels[p]| ==> levels[p][i].size > 0
  {
  }

  lemma {:induction false} SweepAt(levels: Levels, oidToLevel: map<U64, U64>, taker: Order, size: U64, p: U64)
    requires SideOk(!taker.isBuy, levels)
    ensures Matched(levels, Sweep(levels, oidToLevel, taker, size).levels, taker, size, p)
    decreases levels.Keys
  {
    hide Rest, Left, Drop, Fills, Depth, DepthAhead, SideOk;
    SizesPositive(!taker.isBuy, levels);
    var side, best := !taker.isBuy, Best(!taker.isBuy, levels);
    AheadNonNegative(side, levels, p);
    if best.Some? && Crosses(taker, best.value) && size > 0 {
      var b := best.value;
      UsedUpIff(levels[b], size);
      NoneAhead(side, levels, b);
      if p in levels.Keys && p != b {
        AheadOfBest(side, levels, b, p);
        AheadNonNegative(side, levels - {b}, p);
      }
      if Depth(levels[b]) <= size {
        SweepAt(levels - {b}, Drop(levels[b], size, oidToLevel), taker, Left(levels[b], size), p);
      }
    }
  }

  /** The levels after an order, price by price. On the other side a level is hit if the
      order's limit reaches it and what lies at better prices does not exceed the order; then
      its orders are filled with what is left, and it goes exactly if they are used up; all
      other levels stay, empty ones too. On the own side only what rests is appended. */
  lemma {:induction false} LimitAt(book: Book, taker: Order, p: U64)
    requires BookOk(book)
    ensures var l := Limit(book, taker);
      var own, own' := Side(book, taker.isBuy), Side(l.book, taker.isBuy);
      && Matched(Side(book, !taker.isBuy), Side(l.book, !taker.isBuy), taker, taker.size, p)
      && (p in own'.Keys <==> p in own.Keys || (l.remaining > 0 && p == taker.limitPrice))
      && (p in own'.Keys ==>
            own'[p] == (if p in own.Keys then own[p] else [])
              + if l.remaining > 0 && p == taker.limitPrice then [taker] else [])
  {
    hide Queue, ById, Distinct, Live, Matched;
    SweepAt(Side(book, !taker.isBuy), book.oidToLevel, taker, taker.size, p);
    var own := Side(book, taker.isBuy);
    assert p in own.Keys ==> own[p] + [] == own[p];
  }

  /** The levels after a cancel: every level is still there, and only the order is missing. */
  lemma {:induction false} CancelAt(book: Book, oid: U64, p: U64)
    requires BookOk(book) && oid in Live(book).Keys
    ensures var o, c := Live(book)[oid], Cancel(book, oid).book;
      var levels, levels' := Side(book, o.isBuy), Side(c, o.isBuy);
      && Side(c, !o.isBuy) == Side(book, !o.isBuy) && levels'.Keys == levels.Keys
      && (p in levels.Keys && p != o.limitPrice ==> levels'[p] == levels[p])
      && (p == o.limitPrice ==>
            && p in levels.Keys
            && exists i :: 0 <= i < |levels[p]| && levels[p][i].oid == oid
                 && levels'[p] == levels[p][..i] + levels[p][i + 1..])
  {
    hide Queue, ById, Distinct;
    CancelTakes(book, oid);
    LiveOrder(book, oid);
  }
}
