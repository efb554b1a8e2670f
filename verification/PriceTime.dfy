/** Price-time priority, stated without levels or index: each side of the book is
    one queue of orders, and a taker is matched greedily from its front.
    `SweepIsGreedy` shows that the level-by-level loop computes exactly this. */
module PriceTime {
  import opened Api
  import opened BookSpec

  /** A side as one queue: best price first, arrival order within a price. */
  ghost function Queue(bidSide: bool, levels: Levels): seq<Order>
    decreases levels.Keys
  {
    var best := Best(bidSide, levels);
    if best.None? then []
    else levels[best.value] + Queue(bidSide, levels - {best.value})
  }

  /** How many orders from the front of the queue the taker's limit reaches. */
  function Reach(taker: Order, queue: seq<Order>): (n: nat)
    ensures n <= |queue|
    ensures forall i :: 0 <= i < n ==> Crosses(taker, queue[i].limitPrice)
    ensures n < |queue| ==> !Crosses(taker, queue[n].limitPrice)
  {
    if queue == [] || !Crosses(taker, queue[0].limitPrice) then 0 else 1 + Reach(taker, queue[1..])
  }

  /** Greedy matching against the makers the limit reaches; the others keep their place. */
  function RestOf(taker: Order, queue: seq<Order>, size: U64): seq<Order> {
    Rest(queue[..Reach(taker, queue)], size) + queue[Reach(taker, queue)..]
  }

  ghost predicate SideOk(bidSide: bool, levels: Levels) {
    forall p, i :: p in levels && 0 <= i < |levels[p]| ==>
      levels[p][i].isBuy == bidSide && levels[p][i].limitPrice == p && levels[p][i].size > 0
  }

  // ---- Queue ----

  lemma BestIs(bidSide: bool, levels: Levels, p: U64)
    requires IsBest(bidSide, levels.Keys, p)
    ensures Best(bidSide, levels) == Some(p)
  {
    assert p in levels;
    var b := Best(bidSide, levels).value;
    assert b == p || Ahead(bidSide, b, p);
    assert b == p || Ahead(bidSide, p, b);
  }

  ghost predicate Sorted(bidSide: bool, q: seq<Order>, prices: set<U64>) {
    && (forall i :: 0 <= i < |q| ==> q[i].isBuy == bidSide && q[i].size > 0 && q[i].limitPrice in prices)
    && (forall i, j :: 0 <= i < j < |q| ==> !Ahead(bidSide, q[j].limitPrice, q[i].limitPrice))
  }

  /** Every queued order keeps its level's price, and the queue is sorted by priority. */
  lemma {:induction false} QueueSorted(bidSide: bool, levels: Levels)
    requires SideOk(bidSide, levels)
    ensures Sorted(bidSide, Queue(bidSide, levels), levels.Keys)
    decreases levels.Keys
  {
    var best := Best(bidSide, levels);
    if best.Some? {
      var b := best.value;
      var level, tail := levels[b], Queue(bidSide, levels - {b});
      QueueSorted(bidSide, levels - {b});
      forall i | 0 <= i < |tail|
        ensures tail[i].limitPrice in levels && Ahead(bidSide, b, tail[i].limitPrice)
      {
        assert tail[i].limitPrice in (levels - {b}).Keys;
      }
    }
  }

  function AheadOf(bidSide: bool, levels: Levels, p: U64): Levels {
    map q | q in levels && Ahead(bidSide, q, p) :: levels[q]
  }

  function Behind(bidSide: bool, levels: Levels, p: U64): Levels {
    map q | q in levels && Ahead(bidSide, p, q) :: levels[q]
  }

  function LevelAt(levels: Levels, p: U64): seq<Order> {
    if p in levels then levels[p] else []
  }

  lemma Assoc<T>(a: seq<T>, b: seq<T>, c: seq<T>)
    ensures a + (b + c) == (a + b) + c
  {
  }

  // What is left of the two cuts when a better level than p is dropped.
  lemma CutRest(bidSide: bool, levels: Levels, p: U64, b: U64)
    requires Best(bidSide, levels) == Some(b) && Ahead(bidSide, b, p)
    ensures var ahead := AheadOf(bidSide, levels, p);
      && Best(bidSide, ahead) == Some(b) && ahead[b] == levels[b]
      && AheadOf(bidSide, levels - {b}, p) == ahead - {b}
      && Behind(bidSide, levels - {b}, p) == Behind(bidSide, levels, p)
  {
    assert b in AheadOf(bidSide, levels, p);
    BestIs(bidSide, AheadOf(bidSide, levels, p), b);
  }

  lemma CutHere(bidSide: bool, levels: Levels, p: U64, b: U64)
    requires Best(bidSide, levels) == Some(b) && !Ahead(bidSide, b, p)
    ensures AheadOf(bidSide, levels, p) == map[]
    ensures Behind(bidSide, levels, p) == levels - {p}
    ensures b == p || levels - {p} == levels
  {
    assert b in levels;
    assert p !in levels || b == p || Ahead(bidSide, b, p);
  }

  /** Any price cuts the queue into the better levels, its own level and the worse ones. */
  lemma {:induction false} QueueCut(bidSide: bool, levels: Levels, p: U64)
    ensures Queue(bidSide, levels)
         == Queue(bidSide, AheadOf(bidSide, levels, p)) + LevelAt(levels, p)
              + Queue(bidSide, Behind(bidSide, levels, p))
    decreases levels.Keys
  {
    var best := Best(bidSide, levels);
    if best.None? {
      assert AheadOf(bidSide, levels, p) == map[] && Behind(bidSide, levels, p) == map[];
    } else {
      var b := best.value;
      if Ahead(bidSide, b, p) {
        CutRest(bidSide, levels, p, b);
        QueueCut(bidSide, levels - {b}, p);
        var ahead := AheadOf(bidSide, levels, p);
        var a, behind := Queue(bidSide, ahead - {b}), Queue(bidSide, Behind(bidSide, levels, p));
        Assoc(levels[b], a + LevelAt(levels, p), behind);
        Assoc(levels[b], a, LevelAt(levels, p));
      } else {
        CutHere(bidSide, levels, p, b);
      }
    }
  }

  // ---- The sweep ----

  // Filling from `a + b` is filling from a and then, with what remains, from b.

  lemma {:induction false} LeftAppend(a: seq<Order>, b: seq<Order>, size: U64)
    ensures Left(a + b, size) == Left(b, Left(a, size))
  {
    if a == [] {
      assert a + b == b;
    } else {
      assert (a + b)[0] == a[0] && (a + b)[1..] == a[1..] + b;
      if a[0].size <= size {
        LeftAppend(a[1..], b, size - a[0].size);
      }
    }
  }

  lemma {:induction false} FillsAppend(a: seq<Order>, b: seq<Order>, taker: Order, size: U64)
    ensures Fills(a + b, taker, size) == Fills(a, taker, size) + Fills(b, taker, Left(a, size))
  {
    if size == 0 {
    } else if a == [] {
      assert a + b == b;
    } else {
      assert (a + b)[0] == a[0] && (a + b)[1..] == a[1..] + b;
      if a[0].size <= size {
        var left := size - a[0].size;
        FillsAppend(a[1..], b, taker, left);
        Assoc([FillOf(a[0], taker, a[0].size)], Fills(a[1..], taker, left), Fills(b, taker, Left(a[1..], left)));
      }
    }
  }

  lemma {:induction false} RestAppend(a: seq<Order>, b: seq<Order>, size: U64)
    ensures Rest(a + b, size) == Rest(a, size) + Rest(b, Left(a, size))
  {
    if size == 0 {
    } else if a == [] {
      assert a + b == b;
    } else {
      assert (a + b)[0] == a[0] && (a + b)[1..] == a[1..] + b;
      if a[0].size <= size {
        RestAppend(a[1..], b, size - a[0].size);
      } else {
        Assoc([a[0].(size := a[0].size - size)], a[1..], b);
      }
    }
  }

  lemma {:induction false} DropAppend(a: seq<Order>, b: seq<Order>, size: U64, oidToLevel: map<U64, U64>)
    ensures Drop(a + b, size, oidToLevel) == Drop(b, Left(a, size), Drop(a, size, oidToLevel))
  {
    if size == 0 {
    } else if a == [] {
      assert a + b == b;
    } else {
      assert (a + b)[0] == a[0] && (a + b)[1..] == a[1..] + b;
      if a[0].size <= size {
        DropAppend(a[1..], b, size - a[0].size, oidToLevel - {a[0].oid});
      }
    }
  }

  // The part of the queue on levels the taker reaches, and the part behind it.
  ghost function Reached(taker: Order, levels: Levels): seq<Order>
    decreases levels.Keys
  {
    var best := Best(!taker.isBuy, levels);
    if best.None? || !Crosses(taker, best.value) then []
    else levels[best.value] + Reached(taker, levels - {best.value})
  }

  ghost function Beyond(taker: Order, levels: Levels): seq<Order>
    decreases levels.Keys
  {
    var best := Best(!taker.isBuy, levels);
    if best.None? || !Crosses(taker, best.value) then Queue(!taker.isBuy, levels)
    else Beyond(taker, levels - {best.value})
  }

  lemma {:induction false} QueueSplit(taker: Order, levels: Levels)
    ensures Queue(!taker.isBuy, levels) == Reached(taker, levels) + Beyond(taker, levels)
    decreases levels.Keys
  {
    var best := Best(!taker.isBuy, levels);
    if best.None? || !Crosses(taker, best.value) {
      assert [] + Queue(!taker.isBuy, levels) == Queue(!taker.isBuy, levels);
    } else {
      var b := best.value;
      QueueSplit(taker, levels - {b});
      Assoc(levels[b], Reached(taker, levels - {b}), Beyond(taker, levels - {b}));
    }
  }

  lemma {:induction false} ReachedCrosses(taker: Order, levels: Levels)
    requires SideOk(!taker.isBuy, levels)
    ensures forall i :: 0 <= i < |Reached(taker, levels)| ==> Crosses(taker, Reached(taker, levels)[i].limitPrice)
    decreases levels.Keys
  {
    var best := Best(!taker.isBuy, levels);
    if best.Some? && Crosses(taker, best.value) {
      ReachedCrosses(taker, levels - {best.value});
    }
  }

  // Behind a best price that does not cross, none does.
  lemma NoneCross(levels: Levels, taker: Order)
    requires var best := Best(!taker.isBuy, levels); best.None? || !Crosses(taker, best.value)
    ensures forall p :: p in levels.Keys ==> !Crosses(taker, p)
  {
    forall p | p in levels.Keys
      ensures !Crosses(taker, p)
    {
      var b := Best(!taker.isBuy, levels).value;
      assert p == b || Ahead(!taker.isBuy, b, p);
    }
  }

  lemma {:induction false} BeyondStops(taker: Order, levels: Levels)
    requires SideOk(!taker.isBuy, levels)
    ensures Beyond(taker, levels) != [] ==> !Crosses(taker, Beyond(taker, levels)[0].limitPrice)
    decreases levels.Keys
  {
    var best := Best(!taker.isBuy, levels);
    if best.Some? && Crosses(taker, best.value) {
      BeyondStops(taker, levels - {best.value});
    } else {
      NoneCross(levels, taker);
      QueueSorted(!taker.isBuy, levels);
      var q := Queue(!taker.isBuy, levels);
      assert q != [] ==> q[0].limitPrice in levels.Keys;
    }
  }

  /** The orders on reached levels are the ones the greedy spec reaches in the queue. */
  lemma ReachIsReached(taker: Order, levels: Levels)
    requires SideOk(!taker.isBuy, levels)
    ensures var q := Queue(!taker.isBuy, levels);
      q[..Reach(taker, q)] == Reached(taker, levels) && q[Reach(taker, q)..] == Beyond(taker, levels)
  {
    var a, b := Reached(taker, levels), Beyond(taker, levels);
    QueueSplit(taker, levels);
    ReachedCrosses(taker, levels);
    BeyondStops(taker, levels);
    var n := Reach(taker, a + b);
    assert forall i :: 0 <= i < |a| ==> (a + b)[i] == a[i];
    assert b == [] || (a + b)[|a|] == b[0];
    assert (a + b)[..|a|] == a && (a + b)[|a|..] == b;
  }

  // A level that is not used up stays the best one.
  lemma LevelLeft(bidSide: bool, levels: Levels, b: U64, rest: seq<Order>)
    requires Best(bidSide, levels) == Some(b)
    ensures Queue(bidSide, levels[b := rest]) == rest + Queue(bidSide, levels - {b})
  {
    BestIs(bidSide, levels[b := rest], b);
    assert levels[b := rest] - {b} == levels - {b};
  }

  lemma {:induction false} RestOk(makers: seq<Order>, size: U64, bidSide: bool, p: U64)
    requires forall i :: 0 <= i < |makers| ==>
      makers[i].isBuy == bidSide && makers[i].limitPrice == p && makers[i].size > 0
    ensures forall i :: 0 <= i < |Rest(makers, size)| ==>
      var o := Rest(makers, size)[i]; o.isBuy == bidSide && o.limitPrice == p && o.size > 0
  {
    if size > 0 && makers != [] && makers[0].size <= size {
      RestOk(makers[1..], size - makers[0].size, bidSide, p);
    }
  }

  /** The level-by-level loop fills exactly the reached part of the queue, in order. */
  lemma {:induction false} SweepFills(levels: Levels, oidToLevel: map<U64, U64>, taker: Order, size: U64)
    ensures var s, reached := Sweep(levels, oidToLevel, taker, size), Reached(taker, levels);
      && s.fills == Fills(reached, taker, size)
      && s.remaining == Left(reached, size)
      && s.oidToLevel == Drop(reached, size, oidToLevel)
    decreases levels.Keys
  {
    var best := Best(!taker.isBuy, levels);
    if best.Some? && Crosses(taker, best.value) && size > 0 {
      var level, tail := levels[best.value], Reached(taker, levels - {best.value});
      LeftAppend(level, tail, size);
      FillsAppend(level, tail, taker, size);
      DropAppend(level, tail, size, oidToLevel);
      if Rest(level, size) == [] {
        SweepFills(levels - {best.value}, Drop(level, size, oidToLevel), taker, Left(level, size));
      } else {
        assert Fills(level, taker, size) + [] == Fills(level, taker, size);
      }
    }
  }

  lemma {:induction false} SweepRests(levels: Levels, oidToLevel: map<U64, U64>, taker: Order, size: U64)
    ensures var s := Sweep(levels, oidToLevel, taker, size);
      Queue(!taker.isBuy, s.levels) == Rest(Reached(taker, levels), size) + Beyond(taker, levels)
    decreases levels.Keys
  {
    var best := Best(!taker.isBuy, levels);
    if best.None? || !Crosses(taker, best.value) {
      assert [] + Beyond(taker, levels) == Beyond(taker, levels);
    } else if size == 0 {
      QueueSplit(taker, levels);
    } else {
      var level, others := levels[best.value], levels - {best.value};
      RestAppend(level, Reached(taker, others), size);
      if Rest(level, size) == [] {
        SweepRests(others, Drop(level, size, oidToLevel), taker, Left(level, size));
        assert [] + Rest(Reached(taker, others), Left(level, size)) == Rest(Reached(taker, others), Left(level, size));
      } else {
        LevelLeft(!taker.isBuy, levels, best.value, Rest(level, size));
        QueueSplit(taker, others);
        Assoc(Rest(level, size), Reached(taker, others), Beyond(taker, others));
      }
    }
  }

  lemma {:induction false} SweepLevels(levels: Levels, oidToLevel: map<U64, U64>, taker: Order, size: U64)
    requires SideOk(!taker.isBuy, levels)
    ensures var s := Sweep(levels, oidToLevel, taker, size);
      && SideOk(!taker.isBuy, s.levels) && s.levels.Keys <= levels.Keys
      && (s.remaining > 0 ==> forall p :: p in s.levels.Keys ==> !Crosses(taker, p))
    decreases levels.Keys
  {
    var best := Best(!taker.isBuy, levels);
    if best.None? || !Crosses(taker, best.value) {
      NoneCross(levels, taker);
    } else if size > 0 {
      var b := best.value;
      RestOk(levels[b], size, !taker.isBuy, b);
      if Rest(levels[b], size) == [] {
        SweepLevels(levels - {b}, Drop(levels[b], size, oidToLevel), taker, Left(levels[b], size));
      }
    }
  }

  /** The level-by-level loop computes greedy price-time matching of the queue. */
  lemma SweepIsGreedy(levels: Levels, oidToLevel: map<U64, U64>, taker: Order, size: U64)
    requires SideOk(!taker.isBuy, levels)
    ensures var s, q := Sweep(levels, oidToLevel, taker, size), Queue(!taker.isBuy, levels);
      var reached := q[..Reach(taker, q)];
      && s.fills == Fills(reached, taker, size)
      && s.remaining == Left(reached, size)
      && s.oidToLevel == Drop(reached, size, oidToLevel)
      && Queue(!taker.isBuy, s.levels) == RestOf(taker, q, size)
  {
    ReachIsReached(taker, levels);
    SweepFills(levels, oidToLevel, taker, size);
    SweepRests(levels, oidToLevel, taker, size);
  }
}
