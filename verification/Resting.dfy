/** Resting orders by oid, and what greedy filling does to them. */
module Resting {
  import opened Api
  import opened BookSpec

  // ---- Totals over fills ----

  ghost function Total(fills: seq<OrderFill>, f: OrderFill -> int): int {
    if fills == [] then 0 else Total(fills[..|fills| - 1], f) + f(fills[|fills| - 1])
  }

  ghost function SizeOf(): OrderFill -> int { (f: OrderFill) => f.size }

  // Without 64-bit wrapping.
  ghost function QuoteOf(): OrderFill -> int { (f: OrderFill) => f.size * f.price }

  ghost function MadeBy(oid: U64): OrderFill -> int {
    (f: OrderFill) => if f.makerOid == oid then f.size else 0
  }

  lemma {:induction false} TotalCons(x: OrderFill, fills: seq<OrderFill>, f: OrderFill -> int)
    ensures Total([x] + fills, f) == f(x) + Total(fills, f)
  {
    if fills == [] {
      assert [x] + fills == [x] && [x][..0] == [];
    } else {
      TotalCons(x, fills[..|fills| - 1], f);
      assert ([x] + fills)[..|fills|] == [x] + fills[..|fills| - 1];
    }
  }

  lemma TotalSnoc(fills: seq<OrderFill>, x: OrderFill, f: OrderFill -> int)
    ensures Total(fills + [x], f) == Total(fills, f) + f(x)
  {
    assert (fills + [x])[..|fills|] == fills;
  }

  lemma {:induction false} TotalPrefix(fills: seq<OrderFill>, k: nat, f: OrderFill -> int)
    requires k <= |fills| && forall x :: f(x) >= 0
    ensures 0 <= Total(fills[..k], f) <= Total(fills, f)
    decreases |fills|
  {
    if fills != [] {
      var n := |fills| - 1;
      TotalPrefix(fills[..n], if k <= n then k else n, f);
      if k <= n {
        assert fills[..n][..k] == fills[..k];
      } else {
        assert fills[..k] == fills && fills[..n][..n] == fills[..n];
      }
    }
  }

  // ---- Orders by oid ----

  function ById(s: seq<Order>): map<U64, Order> {
    if s == [] then map[] else ById(s[1..])[s[0].oid := s[0]]
  }

  // No two orders share an oid.
  predicate Distinct(s: seq<Order>) {
    s == [] || (s[0].oid !in ById(s[1..]).Keys && Distinct(s[1..]))
  }

  lemma {:induction false} ByIdMember(s: seq<Order>, oid: U64)
    ensures oid in ById(s).Keys ==> ById(s)[oid] in s && ById(s)[oid].oid == oid
  {
    if s != [] && oid != s[0].oid {
      ByIdMember(s[1..], oid);
    }
  }

  lemma {:induction false} ByIdAt(s: seq<Order>, i: nat)
    requires i < |s|
    ensures s[i].oid in ById(s).Keys && (Distinct(s) ==> ById(s)[s[i].oid] == s[i])
  {
    if i > 0 {
      ByIdAt(s[1..], i - 1);
      assert s[1..][i - 1] == s[i];
    }
  }

  lemma {:induction false} DistinctPair(s: seq<Order>, i: nat, j: nat)
    requires Distinct(s) && i < |s| && j < |s| && s[i].oid == s[j].oid
    ensures i == j
  {
    if i > 0 && j > 0 {
      DistinctPair(s[1..], i - 1, j - 1);
    } else if i != j {
      ByIdAt(s[1..], if i > 0 then i - 1 else j - 1);
    }
  }

  lemma {:induction false} ByIdAppend(a: seq<Order>, b: seq<Order>)
    requires Distinct(a + b)
    ensures ById(a + b) == ById(a) + ById(b)
    ensures ById(a).Keys !! ById(b).Keys
    ensures Distinct(a) && Distinct(b)
  {
    if a == [] {
      assert a + b == b;
    } else {
      assert (a + b)[0] == a[0] && (a + b)[1..] == a[1..] + b;
      ByIdAppend(a[1..], b);
    }
  }

  lemma {:induction false} DistinctAppend(a: seq<Order>, b: seq<Order>)
    requires Distinct(a) && Distinct(b) && ById(a).Keys !! ById(b).Keys
    ensures Distinct(a + b) && ById(a + b) == ById(a) + ById(b)
  {
    if a == [] {
      assert a + b == b;
    } else {
      assert (a + b)[0] == a[0] && (a + b)[1..] == a[1..] + b;
      DistinctAppend(a[1..], b);
    }
  }

  // ---- Greedy filling ----

  /** The fill names both orders, the maker's price, and who buys from whom. */
  predicate Trades(fill: OrderFill, maker: Order, taker: Order) {
    && fill.makerOid == maker.oid && fill.takerOid == taker.oid && fill.price == maker.limitPrice
    && fill.buyer == (if taker.isBuy then taker.address else maker.address)
    && fill.seller == (if taker.isBuy then maker.address else taker.address)
  }

  /** The i-th fill is between the taker and the i-th maker, at the maker's price, for
      something the maker still has. */
  lemma {:induction false} FillsInOrder(makers: seq<Order>, taker: Order, size: U64)
    requires forall i :: 0 <= i < |makers| ==> makers[i].size > 0
    ensures var fills := Fills(makers, taker, size);
      forall i :: 0 <= i < |fills| ==>
        Trades(fills[i], makers[i], taker) && 0 < fills[i].size <= makers[i].size
  {
    if size > 0 && makers != [] && makers[0].size <= size {
      FillsInOrder(makers[1..], taker, size - makers[0].size);
      var fills := Fills(makers[1..], taker, size - makers[0].size);
      assert forall i :: 0 <= i < |fills| ==> makers[1..][i] == makers[i + 1];
    }
  }

  /** Every unit of the taker is either filled or left. */
  lemma {:induction false} FillsComplete(makers: seq<Order>, taker: Order, size: U64)
    ensures Total(Fills(makers, taker, size), SizeOf()) + Left(makers, size) == size
  {
    if size > 0 && makers != [] {
      if makers[0].size <= size {
        FillsComplete(makers[1..], taker, size - makers[0].size);
        TotalCons(FillOf(makers[0], taker, makers[0].size), Fills(makers[1..], taker, size - makers[0].size), SizeOf());
      } else {
        TotalCons(FillOf(makers[0], taker, size), [], SizeOf());
        assert [FillOf(makers[0], taker, size)] + [] == [FillOf(makers[0], taker, size)];
      }
    }
  }

  /** The makers left resting are a suffix in unchanged order; only the first may have shrunk. */
  lemma {:induction false} RestInOrder(makers: seq<Order>, size: U64, i: nat)
    requires i < |Rest(makers, size)|
    ensures var rest := Rest(makers, size);
      var maker := makers[|makers| - |rest| + i];
      if i > 0 then rest[i] == maker else rest[i] == maker.(size := rest[i].size) && rest[i].size <= maker.size
  {
    if size > 0 && makers[0].size <= size {
      RestInOrder(makers[1..], size - makers[0].size, i);
    }
  }

  lemma {:induction false} RestDistinct(makers: seq<Order>, size: U64)
    requires Distinct(makers)
    ensures Distinct(Rest(makers, size)) && ById(Rest(makers, size)).Keys <= ById(makers).Keys
  {
    if size > 0 && makers != [] {
      if makers[0].size <= size {
        RestDistinct(makers[1..], size - makers[0].size);
      } else {
        assert Rest(makers, size)[1..] == makers[1..];
      }
    }
  }

  lemma {:induction false} NoMaker(makers: seq<Order>, taker: Order, size: U64, oid: U64)
    requires oid !in ById(makers).Keys
    ensures Total(Fills(makers, taker, size), MadeBy(oid)) == 0
  {
    if size > 0 && makers != [] {
      if makers[0].size <= size {
        NoMaker(makers[1..], taker, size - makers[0].size, oid);
        var fills := Fills(makers[1..], taker, size - makers[0].size);
        TotalCons(FillOf(makers[0], taker, makers[0].size), fills, MadeBy(oid));
      } else {
        TotalCons(FillOf(makers[0], taker, size), [], MadeBy(oid));
        assert [FillOf(makers[0], taker, size)] + [] == [FillOf(makers[0], taker, size)];
      }
    }
  }

  // `after` is `before` with every order reduced by what it filled, and dropped at zero.
  ghost predicate Reduced(before: map<U64, Order>, after: map<U64, Order>, fills: seq<OrderFill>, oid: U64) {
    var filled := Total(fills, MadeBy(oid));
    && (oid in after.Keys <==> oid in before.Keys && filled != before[oid].size)
    && (oid in before.Keys ==> 0 <= filled <= before[oid].size)
    && (oid in after.Keys ==> after[oid] == before[oid].(size := before[oid].size - filled))
  }

  // The first maker, and then those behind it.

  lemma PartlyReduced(maker: Order, tail: seq<Order>, taker: Order, size: U64, oid: U64)
    requires Distinct([maker] + tail) && 0 < size < maker.size
    requires forall i :: 0 <= i < |tail| ==> tail[i].size > 0
    ensures var makers := [maker] + tail;
      Reduced(ById(makers), ById(Rest(makers, size)), Fills(makers, taker, size), oid)
  {
    var makers := [maker] + tail;
    assert makers[1..] == tail;
    TotalCons(FillOf(maker, taker, size), [], MadeBy(oid));
    assert [FillOf(maker, taker, size)] + [] == [FillOf(maker, taker, size)];
    ByIdMember(tail, oid);
    assert Rest(makers, size)[1..] == tail;
  }

  lemma WhollyReduced(maker: Order, tail: seq<Order>, rest: seq<Order>,
                      fills: seq<OrderFill>, fill: OrderFill, oid: U64)
    requires maker.oid !in ById(tail).Keys && ById(rest).Keys <= ById(tail).Keys && maker.size > 0
    requires Reduced(ById(tail), ById(rest), fills, oid) && Total(fills, MadeBy(maker.oid)) == 0
    requires fill.makerOid == maker.oid && fill.size == maker.size
    ensures Reduced(ById([maker] + tail), ById(rest), [fill] + fills, oid)
  {
    assert ([maker] + tail)[1..] == tail;
    TotalCons(fill, fills, MadeBy(oid));
  }

  lemma {:induction false} RestReduced(makers: seq<Order>, taker: Order, size: U64, oid: U64)
    requires Distinct(makers) && forall i :: 0 <= i < |makers| ==> makers[i].size > 0
    ensures Reduced(ById(makers), ById(Rest(makers, size)), Fills(makers, taker, size), oid)
  {
    if makers == [] {
    } else if size == 0 {
      ByIdMember(makers, oid);
    } else {
      hide Reduced;
      var maker, tail := makers[0], makers[1..];
      assert makers == [maker] + tail;
      if maker.size <= size {
        var left := size - maker.size;
        RestReduced(tail, taker, left, oid);
        RestDistinct(tail, left);
        NoMaker(tail, taker, left, maker.oid);
        WhollyReduced(maker, tail, Rest(tail, left), Fills(tail, taker, left), FillOf(maker, taker, maker.size), oid);
      } else {
        PartlyReduced(maker, tail, taker, size, oid);
      }
    }
  }

  /** The index loses exactly the makers that are gone. */
  lemma {:induction false} DropExact(makers: seq<Order>, size: U64, oidToLevel: map<U64, U64>, oid: U64)
    requires Distinct(makers) && forall i :: 0 <= i < |makers| ==> makers[i].size > 0
    ensures var index := Drop(makers, size, oidToLevel);
      var rest := Rest(makers, size);
      && (oid in index.Keys <==> oid in oidToLevel.Keys && (oid in ById(makers).Keys ==> oid in ById(rest).Keys))
      && (oid in index.Keys ==> index[oid] == oidToLevel[oid])
  {
    if makers != [] && size > 0 {
      var maker, tail := makers[0], makers[1..];
      if maker.size <= size {
        DropExact(tail, size - maker.size, oidToLevel - {maker.oid}, oid);
        RestDistinct(tail, size - maker.size);
      } else {
        assert Rest(makers, size)[1..] == tail;
      }
    }
  }
}
