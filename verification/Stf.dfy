/** The program run inside the zkVM: fold the diffs of a batch into three maps and list
    each by account. */
module Stf {
  import opened Api
  import opened ClobSpec
  import opened Clobs
  import opened DeltaSpec
  import opened DeltaAlgebra

  // ---- Listing a map by account ----

  /** The keys in ascending order. Whatever order the map yields them in, there is one such list. */
  ghost predicate Ascending(list: seq<Address>, keys: set<Address>) {
    && (forall i, j :: 0 <= i < j < |list| ==> list[i] < list[j])
    && (forall a :: a in list <==> a in keys)
  }

  lemma HeadIn(s: seq<Address>)
    requires s != []
    ensures s[0] in s
  {
  }

  lemma {:induction false} AscendingUnique(s: seq<Address>, t: seq<Address>, keys: set<Address>)
    requires Ascending(s, keys) && Ascending(t, keys)
    ensures s == t
  {
    if t != [] {
      HeadIn(t);
    }
    if s == [] {
    } else {
      HeadIn(s);
      assert s[0] in t && t[0] in s;
      assert s[0] == t[0];
      TailAscending(s, keys);
      TailAscending(t, keys);
      AscendingUnique(s[1..], t[1..], keys - {s[0]});
      assert s == [s[0]] + s[1..] && t == [t[0]] + t[1..];
    }
  }

  lemma TailAscending(s: seq<Address>, keys: set<Address>)
    requires Ascending(s, keys) && s != []
    ensures Ascending(s[1..], keys - {s[0]})
  {
    forall a
      ensures a in s[1..] <==> a in keys - {s[0]}
    {
      assert a in s <==> a == s[0] || a in s[1..];
    }
  }

  method SortKeys(keys: set<Address>) returns (list: seq<Address>)
    ensures Ascending(list, keys)
  {
    list := [];
    var rest := keys;
    while rest != {}
      invariant rest <= keys && Ascending(list, keys - rest)
      invariant forall i, b :: 0 <= i < |list| && b in rest ==> list[i] < b
      decreases rest
    {
      var least := Least(rest);
      forall a
        ensures a in list + [least] <==> a in keys - (rest - {least})
      {
      }
      list := list + [least];
      rest := rest - {least};
    }
  }

  method Least(keys: set<Address>) returns (least: Address)
    requires keys != {}
    ensures least in keys && forall a :: a in keys ==> least <= a
  {
    least :| least in keys;
    var rest := keys - {least};
    while rest != {}
      invariant rest <= keys && least in keys && least !in rest
      invariant forall a :: a in keys && a !in rest ==> least <= a
      decreases rest
    {
      var a :| a in rest;
      rest := rest - {a};
      if a < least {
        least := a;
      }
    }
  }

  ghost function AccountsOf<T>(list: seq<T>, account: T -> Address): seq<Address> {
    seq(|list|, i requires 0 <= i < |list| => account(list[i]))
  }

  /** The values of a map, by ascending account. */
  ghost predicate Lists<T(!new)>(list: seq<T>, m: map<Address, T>, account: T -> Address) {
    && Ascending(AccountsOf(list, account), m.Keys)
    && forall i :: 0 <= i < |list| ==> account(list[i]) in m.Keys && m[account(list[i])] == list[i]
  }

  lemma ListUnique<T(!new)>(s: seq<T>, t: seq<T>, m: map<Address, T>, account: T -> Address)
    requires Lists(s, m, account) && Lists(t, m, account)
    ensures s == t
  {
    AscendingUnique(AccountsOf(s, account), AccountsOf(t, account), m.Keys);
    assert |s| == |AccountsOf(s, account)| == |AccountsOf(t, account)| == |t|;
    forall i | 0 <= i < |s|
      ensures s[i] == t[i]
    {
      assert AccountsOf(s, account)[i] == AccountsOf(t, account)[i];
    }
  }

  method SortedValues<T(!new)>(m: map<Address, T>, ghost account: T -> Address) returns (list: seq<T>)
    requires forall a :: a in m.Keys ==> account(m[a]) == a
    ensures Lists(list, m, account)
  {
    var keys := SortKeys(m.Keys);
    list := [];
    for i := 0 to |keys|
      invariant |list| == i && forall k :: 0 <= k < i ==> keys[k] in m.Keys && list[k] == m[keys[k]]
    {
      assert keys[i] in m.Keys;
      list := list + [m[keys[i]]];
    }
    assert AccountsOf(list, account) == keys;
  }

  // ---- The state transition function ----

  class DeltaMaps {
    var withdraws: FundsDeltas
    var deposits: FundsDeltas
    var orders: OrderDeltas

    ghost function View(): Deltas
      reads this
    {
      Deltas(withdraws, deposits, orders)
    }

    constructor ()
      ensures View() == NO_DELTAS
    {
      withdraws, deposits, orders := map[], map[], map[];
    }

    method ApplyDiff(x: Diff)
      modifies this
      ensures View() == Apply(old(View()), x)
    {
      match x
      case WithdrawDiff(user, base, quote) =>
        var delta := if user in withdraws then withdraws[user] else FundsDelta(user, 0, 0);
        withdraws := withdraws[user := delta.(base := delta.base + base, quote := delta.quote + quote)];
      case DepositDiff(user, base, quote) =>
        var delta := if user in deposits then deposits[user] else FundsDelta(user, 0, 0);
        deposits := deposits[user := delta.(base := delta.base + base, quote := delta.quote + quote)];
      case FillDiff(buyer, seller, base, quote) =>
        var paid := if buyer in orders then orders[buyer] else OrderDelta(buyer, 0, 0, 0, 0);
        orders := orders[buyer := paid.(lockedQuote := paid.lockedQuote - quote, freeBase := paid.freeBase + base)];
        var sold := if seller in orders then orders[seller] else OrderDelta(seller, 0, 0, 0, 0);
        orders := orders[seller := sold.(lockedBase := sold.lockedBase - base, freeQuote := sold.freeQuote + quote)];
      case CancelDiff(user, base, quote) =>
        var delta := if user in orders then orders[user] else OrderDelta(user, 0, 0, 0, 0);
        orders := orders[user := delta.(lockedBase := delta.lockedBase - base, freeBase := delta.freeBase + base,
                                        lockedQuote := delta.lockedQuote - quote,
                                        freeQuote := delta.freeQuote + quote)];
      case CreateDiff(user, base, quote) =>
        var delta := if user in orders then orders[user] else OrderDelta(user, 0, 0, 0, 0);
        orders := orders[user := delta.(lockedBase := delta.lockedBase + base, freeBase := delta.freeBase - base,
                                        lockedQuote := delta.lockedQuote + quote,
                                        freeQuote := delta.freeQuote - quote)];
      case Noop =>
    }

    method ApplyDiffs(diffs: seq<Diff>)
      modifies this
      ensures View() == ApplyAll(old(View()), diffs)
    {
      for i := 0 to |diffs|
        invariant View() == ApplyAll(old(View()), diffs[..i])
      {
        assert diffs[..i + 1][..i] == diffs[..i];
        ApplyDiff(diffs[i]);
      }
      assert diffs[..|diffs|] == diffs;
    }
  }

  datatype ClobResultDeltas =
    ClobResultDeltas(depositDeltas: seq<FundsDelta>, orderDeltas: seq<OrderDelta>, withdrawDeltas: seq<FundsDelta>)

  ghost function FundsAccount(): FundsDelta -> Address { (d: FundsDelta) => d.account }

  ghost function OrderAccount(): OrderDelta -> Address { (d: OrderDelta) => d.account }

  ghost predicate ListsDeltas(result: ClobResultDeltas, d: Deltas) {
    && Lists(result.depositDeltas, d.deposits, FundsAccount())
    && Lists(result.orderDeltas, d.orders, OrderAccount())
    && Lists(result.withdrawDeltas, d.withdraws, FundsAccount())
  }

  /** `zkvm_stf`: the final state is the run of the requests, and the result lists, by
      account, the deltas of its diffs. */
  method ZkvmStf(requests: seq<Request>, clob: Clob) returns (result: ClobResultDeltas)
    modifies clob, clob.book
    ensures clob.View() == Run(old(clob.View()), requests)
    ensures ListsDeltas(result, StfDeltas(old(clob.View()), requests))
  {
    hide ClobSpec.Tick, Apply;
    ghost var start := clob.View();
    var maps := new DeltaMaps();
    for i := 0 to |requests|
      invariant clob.View() == Run(start, requests[..i])
      invariant maps.View() == ApplyAll(NO_DELTAS, RunDiffs(start, requests[..i]))
    {
      assert requests[..i + 1][..i] == requests[..i];
      var _, diffs := clob.Tick(requests[i]);
      maps.ApplyDiffs(diffs);
      ApplyAllAppend(NO_DELTAS, RunDiffs(start, requests[..i]), diffs);
    }
    assert requests[..|requests|] == requests;
    AllKeyed(NO_DELTAS, RunDiffs(start, requests));
    var orders := SortedValues(maps.orders, OrderAccount());
    var withdraws := SortedValues(maps.withdraws, FundsAccount());
    var deposits := SortedValues(maps.deposits, FundsAccount());
    result := ClobResultDeltas(deposits, orders, withdraws);
  }

  /** The listed result depends only on which diffs the batch made, not on their order nor
      on the order in which the maps yield their entries. */
  lemma ResultOfMultiset(xs: seq<Diff>, ys: seq<Diff>, r: ClobResultDeltas, q: ClobResultDeltas)
    requires multiset(xs) == multiset(ys)
    requires ListsDeltas(r, ApplyAll(NO_DELTAS, xs)) && ListsDeltas(q, ApplyAll(NO_DELTAS, ys))
    ensures r == q
  {
    hide ApplyAll, Lists;
    DeltasOfMultiset(NO_DELTAS, xs, ys);
    var d := ApplyAll(NO_DELTAS, xs);
    ListUnique(r.depositDeltas, q.depositDeltas, d.deposits, FundsAccount());
    ListUnique(r.orderDeltas, q.orderDeltas, d.orders, OrderAccount());
    ListUnique(r.withdrawDeltas, q.withdrawDeltas, d.withdraws, FundsAccount());
  }
}
