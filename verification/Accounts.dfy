/** Balances as exact integer vectors, and when the 64-bit operations on them are exact. */
module Accounts {
  import opened Api
  import opened Sums
  import opened ClobSpec

  datatype Slot = FreeBase | LockedBase | FreeQuote | LockedQuote

  function Free(b: Balances, a: Address): int { if a in b.Keys then b[a].free else 0 }

  function LockedOf(b: Balances, a: Address): int { if a in b.Keys then b[a].locked else 0 }

  /** What an account holds in one slot; nothing if it does not exist. */
  function Holds(base: Balances, quote: Balances, a: Address, slot: Slot): int {
    match slot
    case FreeBase => Free(base, a)
    case LockedBase => LockedOf(base, a)
    case FreeQuote => Free(quote, a)
    case LockedQuote => LockedOf(quote, a)
  }

  ghost function Worth(b: Balances): Address -> int {
    (a: Address) => Free(b, a) + LockedOf(b, a)
  }

  /** Everything the accounts hold of one asset. */
  ghost function TotalOf(b: Balances): int {
    Sum(b.Keys, Worth(b))
  }

  // Base moved in and out, read off for one slot.
  function Moved(slot: Slot, freeBase: int, lockedBase: int, freeQuote: int, lockedQuote: int): int {
    match slot
    case FreeBase => freeBase
    case LockedBase => lockedBase
    case FreeQuote => freeQuote
    case LockedQuote => lockedQuote
  }

  /** The change one diff announces for one slot of an account. */
  function DiffAt(d: Diff, a: Address, slot: Slot): int {
    match d
    case WithdrawDiff(user, base, quote) =>
      if a == user then Moved(slot, -(base as int), 0, -(quote as int), 0) else 0
    case DepositDiff(user, base, quote) =>
      if a == user then Moved(slot, base, 0, quote, 0) else 0
    case CreateDiff(user, base, quote) =>
      if a == user then Moved(slot, -(base as int), base, -(quote as int), quote) else 0
    case CancelDiff(user, base, quote) =>
      if a == user then Moved(slot, base, -(base as int), quote, -(quote as int)) else 0
    case FillDiff(buyer, seller, base, quote) =>
      (if a == buyer then Moved(slot, base, 0, 0, -(quote as int)) else 0)
        + (if a == seller then Moved(slot, 0, -(base as int), quote, 0) else 0)
    case Noop => 0
  }

  function DiffsAt(diffs: seq<Diff>, a: Address, slot: Slot): int {
    if diffs == [] then 0
    else DiffsAt(diffs[..|diffs| - 1], a, slot) + DiffAt(diffs[|diffs| - 1], a, slot)
  }

  lemma {:induction false} DiffsAtAppend(x: seq<Diff>, y: seq<Diff>, a: Address, slot: Slot)
    ensures DiffsAt(x + y, a, slot) == DiffsAt(x, a, slot) + DiffsAt(y, a, slot)
  {
    if y == [] {
      assert x + y == x;
    } else {
      var n := |y| - 1;
      DiffsAtAppend(x, y[..n], a, slot);
      assert (x + y)[..|x + y| - 1] == x + y[..n];
    }
  }

  lemma DiffsAtOne(d: Diff, a: Address, slot: Slot)
    ensures DiffsAt([d], a, slot) == DiffAt(d, a, slot)
  {
    assert [d][..0] == [];
  }

  // ---- Totals ----

  /** One account's worth changed by d, so did the total. */
  lemma TotalChange(b: Balances, b': Balances, a: Address, d: int)
    requires b'.Keys == b.Keys && a in b.Keys
    requires Worth(b')(a) == Worth(b)(a) + d
    requires forall x :: x in b.Keys && x != a ==> b'[x] == b[x]
    ensures TotalOf(b') == TotalOf(b) + d
  {
    SumShift(b.Keys, Worth(b), Worth(b'), a, d);
  }

  lemma TotalNew(b: Balances, a: Address, x: U64)
    requires a !in b.Keys
    ensures TotalOf(b[a := AssetBalance(x, 0)]) == TotalOf(b) + x
  {
    var b' := b[a := AssetBalance(x, 0)];
    SumPick(b'.Keys, Worth(b'), a);
    assert b'.Keys - {a} == b.Keys;
    SumSame(b.Keys, Worth(b), Worth(b'));
  }

  lemma TotalDrop(b: Balances, a: Address)
    requires a in b.Keys && b[a] == AssetBalance(0, 0)
    ensures TotalOf(b - {a}) == TotalOf(b)
  {
    SumPick(b.Keys, Worth(b), a);
    SumSame(b.Keys - {a}, Worth(b), Worth(b - {a}));
    assert (b - {a}).Keys == b.Keys - {a};
  }

  /** Balances are bounded by the total: one account's worth, and two accounts' together. */
  lemma TotalBounds(b: Balances, p: Address, q: Address)
    requires p in b.Keys && q in b.Keys
    ensures Free(b, p) + LockedOf(b, p) <= TotalOf(b)
    ensures Free(b, p) + LockedOf(b, q) <= TotalOf(b)
  {
    SumBounds(b.Keys, Worth(b), p, q);
  }

  // ---- When the 64-bit updates are exact ----

  lemma LockExact(b: Balances, a: Address, x: U64)
    requires a in b.Keys && b[a].free >= x && TotalOf(b) < TWO64
    ensures var b' := Lock(b, a, x);
      && b'.Keys == b.Keys && TotalOf(b') == TotalOf(b)
      && forall y :: Free(b', y) == Free(b, y) - (if y == a then x else 0)
                  && LockedOf(b', y) == LockedOf(b, y) + (if y == a then x else 0)
  {
    TotalBounds(b, a, a);
    TotalChange(b, Lock(b, a, x), a, 0);
  }

  lemma UnlockExact(b: Balances, a: Address, x: U64)
    requires a in b.Keys && b[a].locked >= x && TotalOf(b) < TWO64
    ensures var b' := Unlock(b, a, x);
      && b'.Keys == b.Keys && TotalOf(b') == TotalOf(b)
      && forall y :: Free(b', y) == Free(b, y) + (if y == a then x else 0)
                  && LockedOf(b', y) == LockedOf(b, y) - (if y == a then x else 0)
  {
    TotalBounds(b, a, a);
    TotalChange(b, Unlock(b, a, x), a, 0);
  }

  lemma CreditExact(b: Balances, a: Address, x: U64)
    requires TotalOf(b) + x < TWO64
    ensures var b' := Credit(b, a, x);
      && b'.Keys == b.Keys + {a} && TotalOf(b') == TotalOf(b) + x
      && forall y :: Free(b', y) == Free(b, y) + (if y == a then x else 0)
                  && LockedOf(b', y) == LockedOf(b, y)
  {
    if a in b.Keys {
      TotalBounds(b, a, a);
      TotalChange(b, Credit(b, a, x), a, x);
    } else {
      TotalNew(b, a, x);
    }
  }

  lemma DebitExact(b: Balances, a: Address, x: U64)
    requires a in b.Keys && b[a].free >= x
    ensures var b' := Debit(b, a, x);
      && b'.Keys == b.Keys && TotalOf(b') == TotalOf(b) - x
      && forall y :: Free(b', y) == Free(b, y) - (if y == a then x else 0)
                  && LockedOf(b', y) == LockedOf(b, y)
  {
    TotalChange(b, Debit(b, a, x), a, -(x as int));
  }

  /** Locked funds of one account becoming free funds of another (or the same). */
  lemma TransferExact(b: Balances, from: Address, to: Address, x: U64)
    requires from in b.Keys && to in b.Keys && b[from].locked >= x && TotalOf(b) < TWO64
    ensures var b' := AddFree(SubLocked(b, from, x), to, x);
      && b'.Keys == b.Keys && TotalOf(b') == TotalOf(b)
      && forall y :: Free(b', y) == Free(b, y) + (if y == to then x else 0)
                  && LockedOf(b', y) == LockedOf(b, y) - (if y == from then x else 0)
  {
    var m := SubLocked(b, from, x);
    TotalBounds(b, to, from);
    TotalChange(b, m, from, -(x as int));
    TotalChange(m, AddFree(m, to, x), to, x);
  }

  // The quote side of a fill credits before it debits; the result is the same.
  lemma TransferOrder(b: Balances, from: Address, to: Address, x: U64)
    ensures SubLocked(AddFree(b, to, x), from, x) == AddFree(SubLocked(b, from, x), to, x)
  {
  }
}
