/** What fills beyond a maker's open status do to the base of an accepted buy, and exactly
    when a cancel leaves the ledger as it should. */
module SolvencyLimits {
  import opened Api
  import opened BookSpec
  import opened Resting
  import opened BookInvariant
  import opened ClobSpec
  import opened StatusBook
  import opened Accounts
  import opened Owed
  import opened Ledger
  import opened Solvency

  // ---- Sums over fills ----

  ghost function SoldBy(a: Address): OrderFill -> int {
    (f: OrderFill) => if f.seller == a then f.size else 0
  }

  // Base sold by accounts that do not exist.
  ghost function SoldByNone(keys: set<Address>): OrderFill -> int {
    (f: OrderFill) => if f.seller in keys then 0 else f.size
  }

  /** What an open status still has room for; nothing if there is none. */
  function Room(status: Statuses, oid: U64): int {
    if oid in status.Keys then status[oid].size - status[oid].filledSize else 0
  }

  function Excess(status: Statuses, fill: OrderFill): int {
    if fill.size <= Room(status, fill.makerOid) then 0 else fill.size - Room(status, fill.makerOid)
  }

  // Base an account sells beyond the room of its open statuses.
  ghost function Oversold(status: Statuses, a: Address): OrderFill -> int {
    (f: OrderFill) => if f.seller == a then Excess(status, f) else 0
  }

  lemma {:induction false} TotalAtMost(fills: seq<OrderFill>, f: OrderFill -> int, g: OrderFill -> int)
    requires forall i :: 0 <= i < |fills| ==> 0 <= f(fills[i]) <= g(fills[i])
    ensures 0 <= Total(fills, f) <= Total(fills, g)
  {
    if fills != [] {
      TotalAtMost(fills[..|fills| - 1], f, g);
    }
  }

  lemma {:induction false} TotalZero(fills: seq<OrderFill>, f: OrderFill -> int, k: nat)
    requires forall i :: 0 <= i < |fills| ==> 0 <= f(fills[i])
    requires Total(fills, f) == 0 && k < |fills|
    ensures f(fills[k]) == 0
  {
    var n := |fills| - 1;
    TotalAtMost(fills[..n], f, f);
    if k < n {
      TotalZero(fills[..n], f, k);
    }
  }

  // ---- Balances through the fill loop, modulo 2^64 ----

  // One account's change of worth changes the total alike.
  lemma TotalMod(b: Balances, b': Balances, a: Address, d: int)
    requires b'.Keys == b.Keys && a in b.Keys
    requires (Worth(b')(a) - Worth(b)(a) - d) % TWO64 == 0
    requires forall x :: x in b.Keys && x != a ==> b'[x] == b[x]
    ensures (TotalOf(b') - TotalOf(b) - d) % TWO64 == 0
  {
    TotalChange(b, b', a, Worth(b')(a) - Worth(b)(a));
  }

  // One side of a fill: locked funds of `from` become free funds of `to`, if they exist.
  function Moves(b: Balances, from: Address, to: Address, x: U64): Balances {
    AddFree(SubLocked(b, from, x), to, x)
  }

  lemma MovesLocked(b: Balances, from: Address, to: Address, x: U64, a: Address)
    ensures Moves(b, from, to, x).Keys == b.Keys
    ensures a in b.Keys ==>
      (LockedOf(Moves(b, from, to, x), a) - LockedOf(b, a) + if a == from then x else 0) % TWO64 == 0
  {
  }

  lemma SubTotal(b: Balances, from: Address, x: U64)
    ensures (TotalOf(SubLocked(b, from, x)) - TotalOf(b) + if from in b.Keys then x else 0) % TWO64 == 0
  {
    hide TotalOf;
    if from in b.Keys {
      TotalMod(b, SubLocked(b, from, x), from, -(x as int));
    }
  }

  lemma AddTotal(b: Balances, to: Address, x: U64)
    ensures (TotalOf(AddFree(b, to, x)) - TotalOf(b) - if to in b.Keys then x else 0) % TWO64 == 0
  {
    hide TotalOf;
    if to in b.Keys {
      TotalMod(b, AddFree(b, to, x), to, x);
    }
  }

  lemma ModSum(a: int, b: int, c: int, d: int, e: int)
    requires (b - a + d) % TWO64 == 0 && (c - b - e) % TWO64 == 0
    ensures (c - a + d - e) % TWO64 == 0
  {
  }

  lemma MovesTotal(b: Balances, from: Address, to: Address, x: U64)
    ensures (TotalOf(Moves(b, from, to, x)) - TotalOf(b)
              + (if from in b.Keys then x else 0) - (if to in b.Keys then x else 0)) % TWO64 == 0
  {
    hide TotalOf;
    var mid := SubLocked(b, from, x);
    SubTotal(b, from, x);
    AddTotal(mid, to, x);
    ModSum(TotalOf(b), TotalOf(mid), TotalOf(Moves(b, from, to, x)),
           if from in b.Keys then x else 0, if to in b.Keys then x else 0);
  }

  lemma SettleMoves(f: Funds, fill: OrderFill)
    ensures Settle(f, fill).base == Moves(f.base, fill.seller, fill.buyer, fill.size)
    ensures Settle(f, fill).quote == Moves(f.quote, fill.buyer, fill.seller, fill.QuoteSize())
  {
    TransferOrder(f.quote, fill.buyer, fill.seller, fill.QuoteSize());
  }

  lemma SettleBase(f: Funds, fill: OrderFill, a: Address)
    requires fill.buyer in f.base.Keys
    ensures var base := Settle(f, fill).base;
      && base.Keys == f.base.Keys
      && (a in base.Keys ==> (LockedOf(base, a) - LockedOf(f.base, a) + SoldBy(a)(fill)) % TWO64 == 0)
      && (TotalOf(base) - TotalOf(f.base) - SoldByNone(f.base.Keys)(fill)) % TWO64 == 0
  {
    hide TotalOf, Settle, Moves, LockedOf;
    SettleMoves(f, fill);
    MovesLocked(f.base, fill.seller, fill.buyer, fill.size, a);
    MovesTotal(f.base, fill.seller, fill.buyer, fill.size);
  }

  lemma {:induction false} FillsBase(f: Funds, fills: seq<OrderFill>, buyer: Address, a: Address)
    requires buyer in f.base.Keys && forall i :: 0 <= i < |fills| ==> fills[i].buyer == buyer
    ensures var base := SettleAll(f, fills).base;
      && base.Keys == f.base.Keys
      && (a in base.Keys ==> (LockedOf(base, a) - LockedOf(f.base, a) + Total(fills, SoldBy(a))) % TWO64 == 0)
      && (TotalOf(base) - TotalOf(f.base) - Total(fills, SoldByNone(f.base.Keys))) % TWO64 == 0
  {
    hide TotalOf, Settle, LockedOf;
    if fills != [] {
      var n := |fills| - 1;
      FillsBase(f, fills[..n], buyer, a);
      SettleBase(SettleAll(f, fills[..n]), fills[n], a);
    }
  }

  // ---- What open asks owe through the fill loop ----

  // One maker fill lowers what its owner's asks owe by no more than the status has room for.
  lemma SettleOwed(f: Funds, live: Orders, fill: OrderFill, room: int, a: Address)
    requires fill.makerOid in live.Keys && !live[fill.makerOid].isBuy && live[fill.makerOid].address == fill.seller
    requires fill.makerOid in f.status.Keys ==>
      && f.status[fill.makerOid].filledSize < f.status[fill.makerOid].size
      && f.status[fill.makerOid].filledSize + fill.size < TWO64
    requires room == Room(f.status, fill.makerOid)
    ensures BaseOwed(Settle(f, fill).status, live, a)
         == BaseOwed(f.status, live, a)
              - (if fill.seller == a then if fill.size <= room then fill.size else room else 0)
  {
    hide BaseOwed, QuoteOwed, QuoteDue, Total, SubLocked, AddFree, Mul64;
    var oid := fill.makerOid;
    if oid in f.status.Keys {
      var st := f.status[oid];
      var filled := st.filledSize + fill.size;
      if filled < st.size {
        OwedReplace(f.status, live, oid, AddFill(st, fill), a);
      } else {
        OwedClose(f.status, live, oid, a);
      }
    }
  }

  lemma {:induction false} FillsOwed(f: Funds, live: Orders, o: Order, fills: seq<OrderFill>, a: Address)
    requires FillsGood(fills, live, o) && o.isBuy
    requires forall oid :: oid in f.status.Keys ==>
      f.status[oid].filledSize < f.status[oid].size && f.status[oid].filledSize + Total(fills, MadeBy(oid)) < TWO64
    ensures BaseOwed(SettleAll(f, fills).status, live, a)
         == BaseOwed(f.status, live, a) - Total(fills, SoldBy(a)) + Total(fills, Oversold(f.status, a))
  {
    hide BaseOwed, Settle;
    if fills != [] {
      var before, fill := fills[..|fills| - 1], fills[|fills| - 1];
      forall oid
        ensures Total(before, MadeBy(oid)) <= Total(fills, MadeBy(oid))
      {
      }
      FillsOwed(f, live, o, before, a);
      SettledStatus(f, before, fill.makerOid);
      SettleOwed(SettleAll(f, before), live, fill, Room(f.status, fill.makerOid), a);
    }
  }

  // ---- What an order should leave behind ----

  ghost predicate Truthful(s: State, t: Ticked) {
    forall a, slot :: Holds(t.state.base, t.state.quote, a, slot)
                   == Holds(s.base, s.quote, a, slot) + DiffsAt(t.diffs, a, slot)
  }

  /** The ledger is still solvent, no funds came or went, and every account changed by the
      order's diffs. */
  ghost predicate AddKept(s: State, t: Ticked) {
    && (exists gap: Gaps :: Solvent(t.state, gap))
    && TotalOf(t.state.base) == TotalOf(s.base) && TotalOf(t.state.quote) == TotalOf(s.quote)
    && Truthful(s, t)
  }

  // ---- A buy keeps base solvent exactly when its fills fit ----

  /** Statuses agree with the book, every account has locked exactly the base its open
      asks owe, and no base came or went. */
  ghost predicate BaseKept(s: State, s': State) {
    && Agree(s')
    && (forall a :: LockedOf(s'.base, a) == BaseOwed(s'.status, Live(s'.book), a))
    && TotalOf(s'.base) == TotalOf(s.base)
  }

  // Opening the taker's status adds what it is due to the quote owed, and no base.
  lemma BuyOpens(status: Statuses, live: Orders, o: Order, mine: FillStatus, a: Address)
    requires o.isBuy && o.oid !in status.Keys && forall oid :: oid in status.Keys ==> oid in live.Keys
    ensures BaseOwed(status, live[o.oid := o], a) == BaseOwed(status, live, a)
    ensures BaseOwed(status[o.oid := mine], live[o.oid := o], a) == BaseOwed(status, live, a)
    ensures QuoteOwed(status, live[o.oid := o], a) == QuoteOwed(status, live, a)
    ensures QuoteOwed(status[o.oid := mine], live[o.oid := o], a)
         == QuoteOwed(status, live, a) + if a == o.address then QuoteDue(mine, o) else 0
  {
    hide BaseOwed, QuoteOwed;
    OwedSameTerms(status, live, live[o.oid := o], a);
    OwedOpen(status, live[o.oid := o], o.oid, mine, a);
  }

  // What an accepted buy adds to the quote owed: the part of its notional not yet spent, if it rests.
  ghost function RestsDue(o: Order, l: Limited): int {
    if l.remaining == 0 then 0 else o.size * o.limitPrice - Total(l.fills, QuoteOf())
  }

  // The funds and what is owed after an accepted buy, as the fill loop leaves them.
  lemma {:induction false} BuyResult(s: State, request: Request, a: Address)
    requires Sound(s) && Agree(s) && request.AddOrder? && request.isBuy && Accepts(s, OrderOf(s, request))
    requires Agree(Tick(s, request).state)
    ensures var o, s' := OrderOf(s, request), Tick(s, request).state;
      var f := SettleAll(Locked(s, o), Limit(s.book, o).fills);
      && s'.base == f.base && s'.quote == f.quote
      && BaseOwed(s'.status, Live(s'.book), a) == BaseOwed(f.status, Live(s.book), a)
      && QuoteOwed(s'.status, Live(s'.book), a)
         == QuoteOwed(f.status, Live(s.book), a) + if a == o.address then RestsDue(o, Limit(s.book, o)) else 0
  {
    hide BookOk, Live, Limit, SettleAll, BaseOwed, QuoteOwed, Locked, Total;
    var o, s' := OrderOf(s, request), Tick(s, request).state;
    var l := Limit(s.book, o);
    var f := SettleAll(Locked(s, o), l.fills);
    AddTerms(s, request);
    OwedSameTerms(s'.status, Live(s.book)[o.oid := o], Live(s'.book), a);
    NewStatus(s, o);
    SettledLive(s, o, l.fills);
    BuyOpens(f.status, Live(s.book), o, FillStatus(o.oid, o.size, o.address, o.size - l.remaining, l.fills), a);
  }

  lemma SettledLive(s: State, o: Order, fills: seq<OrderFill>)
    requires Agree(s)
    ensures forall oid :: oid in SettleAll(Locked(s, o), fills).status.Keys ==> oid in Live(s.book).Keys
  {
    hide Live, SettleAll;
    LockKeepsStatus(s, o);
    SettledKeys(Locked(s, o), fills);
    assert forall oid :: oid in s.status.Keys ==> StatusOk(s.status[oid], oid, Live(s.book));
  }

  lemma BuyersAre(fills: seq<OrderFill>, live: Orders, o: Order)
    requires FillsGood(fills, live, o) && o.isBuy
    ensures forall i :: 0 <= i < |fills| ==> fills[i].buyer == o.address && fills[i].size > 0
  {
    if fills != [] {
      BuyersAre(fills[..|fills| - 1], live, o);
      assert forall i :: 0 <= i < |fills| - 1 ==> fills[i] == fills[..|fills| - 1][i];
    }
  }

  /** Modulo 2^64, an accepted buy leaves every seller short by what it oversold, and
      creates the base sold by accounts that no longer exist. */
  lemma {:induction false} BuyMod(s: State, request: Request, gap: Gaps, a: Address)
    requires Solvent(s, gap) && request.AddOrder? && request.isBuy && Accepts(s, OrderOf(s, request))
    requires Agree(Tick(s, request).state) && s.oid + 1 < TWO64
    ensures var s', fills := Tick(s, request).state, Limit(s.book, OrderOf(s, request)).fills;
      && (a in s.base.Keys ==>
            (LockedOf(s'.base, a) - BaseOwed(s'.status, Live(s'.book), a)
              + Total(fills, Oversold(s.status, a))) % TWO64 == 0)
      && (TotalOf(s'.base) - TotalOf(s.base) - Total(fills, SoldByNone(s.base.Keys))) % TWO64 == 0
  {
    hide BookOk, Live, Limit, SettleAll, BaseOwed, QuoteOwed, TotalOf, FillsGood, RestsDue, Tick, Total;
    hide AllCovered;
    var o := OrderOf(s, request);
    var f, fills := Locked(s, o), Limit(s.book, o).fills;
    AgreeIff(s, request);
    LimitFills(s.book, o);
    BuyersAre(fills, Live(s.book), o);
    FillsBase(f, fills, o.address, a);
    assert forall oid :: oid in s.status.Keys ==> StatusOk(s.status[oid], oid, Live(s.book));
    FillsOwed(f, Live(s.book), o, fills, a);
    BuyResult(s, request, a);
    assert LockedOf(s.base, a) == BaseOwed(s.status, Live(s.book), a);
  }

  lemma MultipleWithin(x: int)
    requires 0 <= x < TWO64 && x % TWO64 == 0
    ensures x == 0
  {
  }

  // Nothing oversold and no missing seller: every fill is within its status.
  lemma {:induction false} KeptFits(s: State, request: Request, gap: Gaps, k: nat)
    requires Solvent(s, gap) && request.AddOrder? && request.isBuy && Accepts(s, OrderOf(s, request))
    requires s.oid + 1 < TWO64 && BaseKept(s, Tick(s, request).state)
    requires k < |Limit(s.book, OrderOf(s, request)).fills|
    ensures FitsStatus(s.status, Limit(s.book, OrderOf(s, request)).fills[k])
  {
    hide BookOk, Live, Limit, SettleAll, BaseOwed, TotalOf, FillsGood, LedgerOk, DoAddOrder;
    var o := OrderOf(s, request);
    var fills := Limit(s.book, o).fills;
    var a := fills[k].seller;
    LimitFills(s.book, o);
    BuyersAre(fills, Live(s.book), o);
    NewStatus(s, o);
    BuyMod(s, request, gap, a);
    StatusRoom(s);
    TotalAtMost(fills, SoldByNone(s.base.Keys), SizeOf());
    TotalAtMost(fills, Oversold(s.status, a), SizeOf());
    MultipleWithin(Total(fills, SoldByNone(s.base.Keys)));
    TotalZero(fills, SoldByNone(s.base.Keys), k);
    MultipleWithin(Total(fills, Oversold(s.status, a)));
    TotalZero(fills, Oversold(s.status, a), k);
  }

  lemma StatusRoom(s: State)
    requires Agree(s)
    ensures forall oid :: oid in s.status.Keys ==> s.status[oid].filledSize < s.status[oid].size
    ensures forall oid :: oid in s.status.Keys ==> oid in Live(s.book).Keys
    ensures forall oid :: Room(s.status, oid) >= 0
  {
    hide Live;
    assert forall oid :: oid in s.status.Keys ==> StatusOk(s.status[oid], oid, Live(s.book));
  }

  lemma KeptBase(s: State, t: Ticked)
    requires AddKept(s, t)
    ensures BaseKept(s, t.state)
  {
    hide Live, BaseOwed, QuoteOwed, TotalOf, Sound, AgreeOn, AllCovered;
    var gap: Gaps :| Solvent(t.state, gap);
  }

  // ---- A cancel keeps the ledger exact when no maker fill touched its order ----

  ghost predicate LockedExactly(s: State, gap: Gaps) {
    && (forall a :: LockedOf(s.base, a) == BaseOwed(s.status, Live(s.book), a))
    && (forall a :: LockedOf(s.quote, a) == QuoteOwed(s.status, Live(s.book), a) + GapOf(gap, a))
  }

  // What the owner owes once the order is gone.
  lemma {:induction false} CancelOwed(s: State, oid: U64)
    requires Sound(s) && Agree(s) && oid in s.status.Keys && Live(s.book)[oid].address in s.base.Keys
    ensures var o, st, s' := Live(s.book)[oid], s.status[oid], DoCancel(s, oid).state;
      && BaseOwed(s'.status, Live(s'.book), o.address) == BaseOwed(s.status, Live(s.book), o.address) - BaseDue(st, o)
      && QuoteOwed(s'.status, Live(s'.book), o.address)
         == QuoteOwed(s.status, Live(s.book), o.address) - QuoteDue(st, o)
  {
    hide BookOk, Live, BaseOwed, QuoteOwed, BaseDue, QuoteDue, DoCancel, StatusOk;
    StatusRoom(s);
    var a := Live(s.book)[oid].address;
    CancelResult(s, oid);
    OwedClose(s.status, Live(s.book), oid, a);
    OwedSameTerms(s.status - {oid}, Live(s.book), Live(s.book) - {oid}, a);
  }

  // A touched order releases too little, and 64 bits cannot hide it.
  lemma TouchedShort(locked: U64, owed: int, rest: U64, size: U64, filled: U64)
    requires locked as int == owed && rest < size
    ensures (locked - (rest - filled) % TWO64) % TWO64 != owed - (size - filled)
  {
  }

  lemma {:induction false} TouchedShortQuote(locked: U64, owed: int, gap: int, rest: U64, size: U64,
                                             limit: U64, spent: U64)
    requires locked as int == owed + gap && rest < size && limit > 0 && size * limit < TWO64
    ensures (locked - (rest * limit - spent) % TWO64) % TWO64 != owed - (size * limit - spent) + gap
  {
    Distribute(rest, size - rest, limit);
    Product(size - rest, limit);
    Product(rest, limit);
    TouchedShort(locked, locked, rest * limit, size * limit, spent);
  }

  lemma {:induction false} TouchedSell(s: State, oid: U64, gap: Gaps)
    requires Solvent(s, gap) && oid in s.status.Keys && !Untouched(s, oid) && !Live(s.book)[oid].isBuy
    ensures var s', a := DoCancel(s, oid).state, Live(s.book)[oid].address;
      LockedOf(s'.base, a) != BaseOwed(s'.status, Live(s'.book), a)
  {
    hide BookOk, Live, BaseOwed, QuoteOwed, TotalOf, Total, DoCancel, FilledQuote, AllCovered, Covered;
    var o, st := Live(s.book)[oid], s.status[oid];
    assert StatusOk(st, oid, Live(s.book));
    CancelResult(s, oid);
    CancelOwed(s, oid);
    MadeAtMost(st.fills, oid);
    TouchedShort(LockedOf(s.base, o.address), BaseOwed(s.status, Live(s.book), o.address),
                 o.size, st.size, st.filledSize);
  }

  // The wrapping quantities of the cancel of an open buy are the exact ones.
  lemma CancelQuote(s: State, oid: U64, gap: Gaps)
    requires Solvent(s, gap) && oid in s.status.Keys && Live(s.book)[oid].isBuy
    ensures var o, st := Live(s.book)[oid], s.status[oid];
      && o.size <= st.size && o.limitPrice > 0 && st.size * o.limitPrice < TWO64
      && o.QuoteSize() == o.size * o.limitPrice <= st.size * o.limitPrice
      && FilledQuote(st.fills) == Total(st.fills, QuoteOf())
      && QuoteDue(st, o) == st.size * o.limitPrice - FilledQuote(st.fills)
      && QuoteDue(st, o) <= s.quote[o.address].locked
  {
    hide BookOk, Live, BaseOwed, QuoteOwed, TotalOf, Total, FilledQuote, Mul64;
    var o, st := Live(s.book)[oid], s.status[oid];
    assert StatusOk(st, oid, Live(s.book)) && Covered(st, o);
    MadeAtMost(st.fills, oid);
    WithinNotional(st.filledSize, st.size, o.limitPrice);
    WithinNotional(o.size, st.size, o.limitPrice);
    Mul64Exact(o.size, o.limitPrice);
    FilledQuoteExact(st.fills);
    OwedCovers(s.status, Live(s.book), oid);
    assert LockedOf(s.quote, o.address) == QuoteOwed(s.status, Live(s.book), o.address) + GapOf(gap, o.address);
  }

  lemma {:induction false} TouchedBuy(s: State, oid: U64, gap: Gaps)
    requires Solvent(s, gap) && oid in s.status.Keys && !Untouched(s, oid) && Live(s.book)[oid].isBuy
    ensures var s', a := DoCancel(s, oid).state, Live(s.book)[oid].address;
      LockedOf(s'.quote, a) != QuoteOwed(s'.status, Live(s'.book), a) + GapOf(gap, a)
  {
    hide BookOk, Live, BaseOwed, QuoteOwed, TotalOf, DoCancel, FilledQuote, AllCovered, QuoteDue, Mul64, Total;
    var o, st := Live(s.book)[oid], s.status[oid];
    assert StatusOk(st, oid, Live(s.book));
    CancelResult(s, oid);
    CancelOwed(s, oid);
    CancelQuote(s, oid, gap);
    TouchedShortQuote(LockedOf(s.quote, o.address), QuoteOwed(s.status, Live(s.book), o.address), GapOf(gap, o.address),
                      o.size, st.size, o.limitPrice, FilledQuote(st.fills));
  }

  /** Cancelling an open order leaves exactly what the other orders owe locked if and only
      if no maker fill has touched the order. */
  lemma {:induction false} CancelIff(s: State, oid: U64, gap: Gaps)
    requires Solvent(s, gap) && oid in s.status.Keys
    ensures LockedExactly(DoCancel(s, oid).state, gap) <==> Untouched(s, oid)
  {
    hide BookOk, Live, BaseOwed, QuoteOwed, TotalOf, DoCancel, Sound, AllCovered, Untouched, StatusOk;
    if Untouched(s, oid) {
      CancelSolvent(s, oid, gap);
    } else {
      StatusRoom(s);
      if Live(s.book)[oid].isBuy {
        TouchedBuy(s, oid, gap);
      } else {
        TouchedSell(s, oid, gap);
      }
    }
  }

  // ---- A cancel diff is true exactly when the order had traded nothing ----

  // What the 64-bit release of x adds when the diff announces more.
  lemma AnnouncedModulo(free: U64, announced: U64, traded: U64)
    requires Add64(free, Sub64(announced, traded)) == free + announced
    ensures traded == 0
  {
  }

  lemma CancelSellTraded(s: State, oid: U64, gap: Gaps)
    requires Solvent(s, gap) && oid in s.status.Keys && !Live(s.book)[oid].isBuy
    requires Truthful(s, DoCancel(s, oid))
    ensures s.status[oid].filledSize == 0
  {
    hide BookOk, Live, DoCancel, Total, AllCovered, BaseOwed, QuoteOwed, TotalOf, Add64, Sub64;
    var o, t := Live(s.book)[oid], DoCancel(s, oid);
    StatusRoom(s);
    CancelResult(s, oid);
    DiffsAtOne(CancelDiff(o.address, o.size, 0), o.address, FreeBase);
    assert Holds(t.state.base, t.state.quote, o.address, FreeBase)
        == Holds(s.base, s.quote, o.address, FreeBase) + DiffsAt(t.diffs, o.address, FreeBase);
    AnnouncedModulo(s.base[o.address].free, o.size, s.status[oid].filledSize);
  }

  lemma CancelBuyTraded(s: State, oid: U64, gap: Gaps)
    requires Solvent(s, gap) && oid in s.status.Keys && Live(s.book)[oid].isBuy
    requires Truthful(s, DoCancel(s, oid))
    ensures FilledQuote(s.status[oid].fills) == 0
  {
    hide BookOk, Live, DoCancel, Total, AllCovered, BaseOwed, QuoteOwed, TotalOf, Add64, Sub64, FilledQuote, Mul64;
    var o, t := Live(s.book)[oid], DoCancel(s, oid);
    StatusRoom(s);
    CancelResult(s, oid);
    DiffsAtOne(CancelDiff(o.address, 0, o.QuoteSize()), o.address, FreeQuote);
    assert Holds(t.state.base, t.state.quote, o.address, FreeQuote)
        == Holds(s.base, s.quote, o.address, FreeQuote) + DiffsAt(t.diffs, o.address, FreeQuote);
    AnnouncedModulo(s.quote[o.address].free, o.QuoteSize(), FilledQuote(s.status[oid].fills));
  }

  // An untraded order moves exactly what its diff announces.
  lemma UntradedTruthful(s: State, oid: U64, gap: Gaps)
    requires Solvent(s, gap) && oid in s.status.Keys && FilledBase(s, oid) == 0 && FilledQuoteOf(s, oid) == 0
    ensures Truthful(s, DoCancel(s, oid))
  {
    hide BookOk, Live, DoCancel, Total, AllCovered, BaseOwed, QuoteOwed, TotalOf, Unlock, DiffsAt, FilledQuote, Mul64;
    hide Sub64;
    var o, st, t := Live(s.book)[oid], s.status[oid], DoCancel(s, oid);
    StatusRoom(s);
    TotalsFit(s, gap);
    SubNothing(o.size);
    SubNothing(o.QuoteSize());
    CancelResult(s, oid);
    var d := if o.isBuy then CancelDiff(o.address, 0, o.QuoteSize()) else CancelDiff(o.address, o.size, 0);
    if o.isBuy {
      CancelQuote(s, oid, gap);
      UnlockExact(s.quote, o.address, o.QuoteSize());
    } else {
      UntradedSell(s, oid, gap);
      UnlockExact(s.base, o.address, o.size);
    }
    forall a, slot
      ensures DiffsAt(t.diffs, a, slot) == DiffAt(d, a, slot)
    {
      DiffsAtOne(d, a, slot);
    }
  }

  lemma SubNothing(x: U64)
    ensures Sub64(x, 0) == x
  {
  }

  lemma UntradedSell(s: State, oid: U64, gap: Gaps)
    requires Solvent(s, gap) && oid in s.status.Keys && !Live(s.book)[oid].isBuy && s.status[oid].filledSize == 0
    ensures Live(s.book)[oid].size <= s.base[Live(s.book)[oid].address].locked
  {
    hide BookOk, Live, BaseOwed, QuoteOwed, TotalOf, Total;
    var o, st := Live(s.book)[oid], s.status[oid];
    assert StatusOk(st, oid, Live(s.book));
    MadeAtMost(st.fills, oid);
    OwedCovers(s.status, Live(s.book), oid);
    assert LockedOf(s.base, o.address) == BaseOwed(s.status, Live(s.book), o.address);
  }

  /** The diff of cancelling an open order is the true change of every account if and only
      if the order had traded nothing: no base if it sells, no quote if it buys. */
  lemma {:induction false} CancelTruthIff(s: State, oid: U64, gap: Gaps)
    requires Solvent(s, gap) && oid in s.status.Keys
    ensures Truthful(s, DoCancel(s, oid)) <==> FilledBase(s, oid) == 0 && FilledQuoteOf(s, oid) == 0
  {
    hide BookOk, Live, DoCancel, Sound, LedgerOk, Truthful, StatusOk;
    StatusRoom(s);
    if Truthful(s, DoCancel(s, oid)) {
      if Live(s.book)[oid].isBuy {
        CancelQuote(s, oid, gap);
        CancelBuyTraded(s, oid, gap);
      } else {
        CancelSellTraded(s, oid, gap);
      }
    } else if FilledBase(s, oid) == 0 && FilledQuoteOf(s, oid) == 0 {
      UntradedTruthful(s, oid, gap);
    }
  }
}
