/** Sums of an integer function over a finite set. */
module Sums {

  ghost function Sum<K(!new)>(s: set<K>, f: K -> int): int {
    if s == {} then 0
    else
      var k :| k in s;
      f(k) + Sum(s - {k}, f)
  }

  lemma {:induction false} SumPick<K(!new)>(s: set<K>, f: K -> int, k: K)
    requires k in s
    ensures Sum(s, f) == f(k) + Sum(s - {k}, f)
    decreases s
  {
    var j :| j in s && Sum(s, f) == f(j) + Sum(s - {j}, f);
    if j != k {
      SumPick(s - {j}, f, k);
      SumPick(s - {k}, f, j);
      assert s - {j} - {k} == s - {k} - {j};
    }
  }

  lemma {:induction false} SumSame<K(!new)>(s: set<K>, f: K -> int, g: K -> int)
    requires forall k :: k in s ==> f(k) == g(k)
    ensures Sum(s, f) == Sum(s, g)
    decreases s
  {
    if s != {} {
      var k :| k in s;
      SumPick(s, f, k);
      SumPick(s, g, k);
      SumSame(s - {k}, f, g);
    }
  }

  lemma {:induction false} SumNonNegative<K(!new)>(s: set<K>, f: K -> int)
    requires forall k :: k in s ==> f(k) >= 0
    ensures Sum(s, f) >= 0
    decreases s
  {
    if s != {} {
      var k :| k in s;
      SumPick(s, f, k);
      SumNonNegative(s - {k}, f);
    }
  }

  /** Changing the summand at one point changes the sum by as much. */
  lemma SumShift<K(!new)>(s: set<K>, f: K -> int, g: K -> int, p: K, d: int)
    requires p in s && g(p) == f(p) + d
    requires forall k :: k in s && k != p ==> f(k) == g(k)
    ensures Sum(s, g) == Sum(s, f) + d
  {
    SumPick(s, f, p);
    SumPick(s, g, p);
    SumSame(s - {p}, f, g);
  }

  /** Each summand, and any two of them, are bounded by a sum of non-negative terms. */
  lemma SumBounds<K(!new)>(s: set<K>, f: K -> int, p: K, q: K)
    requires p in s && q in s
    requires forall k :: k in s ==> f(k) >= 0
    ensures f(p) <= Sum(s, f)
    ensures p != q ==> f(p) + f(q) <= Sum(s, f)
  {
    SumPick(s, f, p);
    SumNonNegative(s - {p}, f);
    if p != q {
      SumPick(s - {p}, f, q);
      SumNonNegative(s - {p} - {q}, f);
    }
  }
}
