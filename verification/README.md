# InfinityVM, modelled and proved in Dafny

InfinityVM takes requests to an application server, executes them in batches inside a zkVM and
relays the results to a contract. This project models the path of a request through the central
limit order book (CLOB) example and the coprocessor behind it, and proves what the pieces keep,
alone and together:

    request log -> batches -> execution in any order -> relay by nonce

`dafny verify dfyconfig.toml` checks everything. The modules, in the order of that path:

| modules | what they hold |
|---|---|
| `Api`, `Sums` | request, order and diff types with wrapping 64-bit arithmetic; sums over finite sets |
| `BookSpec`, `OrderBooks` | the order book as a value and its operations as functions; the class `OrderBook` that updates levels and index in place, proved equal to them |
| `PriceTime`, `Resting`, `BookInvariant`, `BookLevels` | each side of the book as one queue; matching is greedy in price-time order; the invariant of the book; the book price by price |
| `TakerPrice` | what a taker pays |
| `ClobSpec`, `Clobs` | the CLOB state transition; the class `Clob` that updates its state in place, proved equal to it |
| `StatusBook`, `FillHistory` | fill statuses against resting orders, and against all fills of a run |
| `Accounts`, `Owed`, `Ledger`, `Solvency`, `Runs`, `Responses` | balances against what open orders owe; conservation; truthful diffs; single requests and whole runs |
| `SolvencyLimits`, `PaidFills`, `BuyLimits`, `SellLimits` | exactly when an accepted buy, an accepted sell and a cancel leave the ledger as it should be |
| `PartialTaker`, `FailingRuns` | concrete runs in which it, and what else holds only under a condition, fails |
| `ModularDiffs` | balances and diffs in every state, solvent or not |
| `DeltaSpec`, `DeltaAlgebra`, `Stf`, `StfResults` | the net deltas of a batch, the zkVM program and the lists it returns |
| `NodeSpec`, `NodeLog`, `NodeRuns`, `NodeTurns`, `NodeDelivery`, `Nodes` | the engine (with crashes) and the batcher over one database |
| `ExecSpec`, `ExecActor`, `ExecJobs`, `ExecOrder`, `ExecPending` | the execution actor and its reorder buffer |
| `Retry`, `DeadLetters`, `RelaySpec`, `RelayJobs`, `RelayOrder`, `RelayPending` | relaying, retries, the dead letter queue, and both actors together |
| `RootChain`, `Framing` | the chain of state roots end to end; the framing of the program input |
| `MatchingGame`, `MatchPairs` | the matching game, one request at a time and in batches; who is matched with whom |

## How to read the model

- **Arithmetic.** `u64` and `u32` operations wrap, as in a release build of the workspace (its
  profiles do not turn overflow checks on). 256-bit deltas and database indices are unbounded.
- **State changes.** What the source updates in place is a class (`OrderBook`, `Clob`,
  `DeltaMaps`, `ExecutionActor`, `RelayRetry`, `NodeDb`) whose methods are proved against a
  function on values; the theorems are about those functions. What runs concurrently (the two
  actors, engine and batcher) is a step relation in which every interleaving is a run.
- **Two orders, one price.** Adding an order matches it and then rests what remains *at its original
  size* (`examples/clob/core/src/orderbook.rs:165-166`), although the comment on `Order::size` calls
  it the size remaining (`examples/clob/core/src/api/mod.rs:183-184`). Cancelling subtracts from the
  resting size what the status has recorded as filled, and announces the whole resting size
  (`examples/clob/core/src/lib.rs:133-149`). The price improvement of a completed buy stays locked.
  The model does all of this.
- **Within-status runs.** The ledger theorems are about runs (`Runs.Within`) in which each accepted
  order has a positive limit price, a notional that fits 64 bits if it buys, and only fills within the
  open statuses of their makers; each cancel hits an order no maker fill has touched; and each deposit
  keeps the totals below 2^64. `Runs.WholeWithin` shows that the condition on fills takes care of
  itself while no partly filled taker ever rests.
- **Where the ledger fails.** From a solvent state, an accepted buy leaves the ledger as it should be
  (solvent, totals conserved, diffs true) if and only if its fills fit their makers' statuses, it rests
  only with a positive price and a notional below 2^64, and what it locks pays for its fills; the last
  two follow if the order has such a price and notional (`BuyLimits.BuyIff`). An accepted sell does if
  and only if no count wraps, the buyers still have accounts, it rests at no zero price, and each buyer's
  unreleased price improvement pays for its overcharges, the quote its fills take beyond what their
  statuses release (`SellLimits.SellIff`). A cancel leaves exactly what is owed locked if and only if
  its order is untouched (`SolvencyLimits.CancelIff`). The failing sides are reached from genesis:
  `PartialTaker.PartialTakerBreaksLedger` leaves 2^64 - 4 units of a ten-unit deposit locked,
  `FailingRuns.SellBreaksLedger` is its mirror for a sell, and `FailingRuns.CancelBreaksLedger` locks
  four units for nobody.
- **Every run.** Without any of these conditions the balances follow the diffs modulo 2^64, less what
  cancelled orders had traded (`ModularDiffs.RunMod`); fills name the orders they are between, and a
  status lists exactly its fills (`FillHistory`).
- **Gaps.** `gap` maps each account to the price improvement of its completed buys, which the source
  never unlocks; locked quote is what open bids owe plus exactly this.

Where the source and its own words differ, the model follows the source:

- `Diff::Noop` is documented as no state having changed
  (`examples/clob/core/src/api/program.rs:119-120`). An unaffordable order uses up an order id, and
  cancelling a resting order without an open status takes it off the book: `Responses.NoopIff`,
  `FailingRuns.UnaffordableChanges`, `FailingRuns.CancelOfLeftoverChanges`.
- A relay is documented to be retried `initial_relay_max_retries` times
  (`crates/coproc/src/relayer.rs:341-342`). It is retried one time more, except for the two largest
  settings: `Retry.AlwaysFailing`, `Retry.GivenUpIff`.
- The processed index is documented to be at least the seen one
  (`examples/clob/node/src/db/mod.rs:13-14`). It is the seen one or one less:
  `NodeRuns.LogConsistent`.

## Model

| member | source | states |
|---|---|---|
| `Api.ComputeFilledQuote` | examples/clob/core/src/api/mod.rs:223-230 | the loop computes the wrapping sum of the fills' quote sizes |
| `OrderBooks.FillAtPriceLevel` | examples/clob/core/src/orderbook.rs:23-67 | the in-place pass over one level makes exactly the greedy fills, leaves exactly the greedy rest and unindexes exactly the makers used up |
| `OrderBooks.OrderBook.BidMax` | examples/clob/core/src/orderbook.rs:71-73 | the highest bid level, empty levels included, or none |
| `OrderBooks.OrderBook.AskMin` | examples/clob/core/src/orderbook.rs:76-78 | the lowest ask level, empty levels included, or none |
| `OrderBooks.OrderBook.EnqueueOrder` | examples/clob/core/src/orderbook.rs:80-89 | the order goes to the back of its level, the index gains its price, nothing else changes |
| `OrderBooks.OrderBook.TakeAsks` | examples/clob/core/src/orderbook.rs:98-130 | the buy loop terminates and computes the sweep of the asks |
| `OrderBooks.OrderBook.TakeBids` | examples/clob/core/src/orderbook.rs:131-163 | the sell loop terminates and computes the sweep of the bids |
| `OrderBooks.OrderBook.Limit` | examples/clob/core/src/orderbook.rs:94-170 | the whole new book, the amount remaining and the fills are those of the limit specification |
| `OrderBooks.OrderBook.Cancel` | examples/clob/core/src/orderbook.rs:173-183 | the whole new book and the order returned are those of the cancel specification, bids looked up before asks |
| `BookSpec.Position` | examples/clob/core/src/orderbook.rs:176-178 | the first order with the id, and none only if there is none |
| `PriceTime.QueueSorted` | examples/clob/core/src/orderbook.rs:14-21 | flattening a side by level gives a queue sorted by price priority |
| `PriceTime.QueueCut` | examples/clob/core/src/orderbook.rs:14-21 | any price cuts the queue into better levels, its own level and worse levels |
| `PriceTime.SweepIsGreedy` | examples/clob/core/src/orderbook.rs:94-163 | the nested loops over levels equal greedy matching of one price-time queue: fills, remaining amount, index and flattened side afterwards |
| `Resting.FillsInOrder` | examples/clob/core/src/orderbook.rs:34-64 | the i-th fill names the taker and the i-th maker, the maker's price, and buyer and seller by the taker's side, for something the maker still has |
| `Resting.FillsComplete` | examples/clob/core/src/orderbook.rs:30-66 | every unit of the taker is either filled or left |
| `Resting.RestInOrder` | examples/clob/core/src/orderbook.rs:45-64 | every maker left is the one as far from the end of the queue, in unchanged order, and only the first may be smaller |
| `Resting.RestReduced` | examples/clob/core/src/orderbook.rs:45-64 | every maker is reduced by exactly its fills and gone exactly when they reach its size |
| `Resting.DropExact` | examples/clob/core/src/orderbook.rs:45-53 | the index loses exactly the makers that are gone |
| `BookInvariant.PushPlaces` | examples/clob/core/src/orderbook.rs:80-89 | resting places the order behind every order at least as good |
| `BookInvariant.LimitIsGreedy` | examples/clob/core/src/orderbook.rs:94-170 | limit refines: match the opposite queue greedily as far as the limit reaches, then place what remains, at its original size, in the own queue |
| `BookInvariant.LimitLive` | examples/clob/core/src/orderbook.rs:94-170 | every resting order keeps what was not filled and leaves at zero; the taker rests, whole, exactly if something remains |
| `BookInvariant.LimitOk` | examples/clob/core/src/orderbook.rs:94-170 | limit keeps the book invariant: sides apart, orders on their own side and price with positive size, index in exact correspondence |
| `BookInvariant.SidesApart` | examples/clob/core/src/orderbook.rs:71-78 | every bid level is below every ask level, levels left empty by cancel included |
| `BookInvariant.CancelTakes` | examples/clob/core/src/orderbook.rs:173-183 | cancel of a resting order always finds it, returns it and takes only it out of its queue |
| `BookInvariant.CancelOk` | examples/clob/core/src/orderbook.rs:173-183 | cancel keeps the book invariant and does nothing for an id that does not rest |
| `BookInvariant.CancelUndoesLimit` | examples/clob/core/src/orderbook.rs:165-183 | cancelling a fresh order that met nothing returns it and restores both queues and the index |
| `BookLevels.LimitAt` | examples/clob/core/src/orderbook.rs:94-170 | price by price: a level is hit exactly if the limit reaches it and what lies at better prices is less than the order, and goes exactly if it is used up; every other level stays, empty ones too; what rests is appended to its own level |
| `BookLevels.CancelAt` | examples/clob/core/src/orderbook.rs:173-183 | a cancel leaves every level in place and takes only the order out of its own |
| `TakerPrice.FillPrices` | examples/clob/core/src/orderbook.rs:98-163 | fill prices get worse monotonically and never pass the taker's limit |
| `TakerPrice.TakerPays` | examples/clob/core/src/orderbook.rs:98-163 | a buy pays at most, a sell gets at least, the filled size at its limit |
| `TakerPrice.OwnLockCovers` | examples/clob/core/src/lib.rs:180-219 | the taker's own lock covers all its fills and what remains, for a buy whose notional fits 64 bits and for every sell |
| `TakerPrice.NotionalExactIff` | examples/clob/core/src/api/mod.rs:199-201 | the quote size is size times price exactly when that fits 64 bits |
| `TakerPrice.NotionalWraps` | examples/clob/core/src/lib.rs:173-184 | a buy of notional 2^64 locks nothing and is accepted from an account without quote |
| `TakerPrice.PricesOnAllRuns` | examples/clob/core/src/orderbook.rs:98-163 | the price guarantees hold for every order placed in any run |
| `Clobs.Clob.DepositFunds` | examples/clob/core/src/lib.rs:69-88 | response, whole new state and diff of the deposit specification |
| `Clobs.Clob.WithdrawFunds` | examples/clob/core/src/lib.rs:91-112 | response, whole new state and diff of the withdraw specification; the in-place subtractions cannot underflow |
| `Clobs.Clob.CancelOrder` | examples/clob/core/src/lib.rs:115-155 | response, whole new state and diff of the cancel specification |
| `Clobs.Clob.SettleFill` | examples/clob/core/src/lib.rs:198-229 | one turn of the fill loop changes balances and the maker's status as specified, whichever side the taker is on |
| `Clobs.Clob.SettleFills` | examples/clob/core/src/lib.rs:197-230 | the loop settles all fills in order and lists their diffs |
| `Clobs.Clob.AddOrder` | examples/clob/core/src/lib.rs:160-249 | response, whole new state and diffs of the add-order specification |
| `Clobs.Clob.Tick` | examples/clob/core/src/lib.rs:252-271 | every request goes to its operation |
| `StatusBook.LimitFills` | examples/clob/core/src/orderbook.rs:94-170 | every fill is with a resting order of the other side, once, at its price, for no more than it has, within the limit |
| `StatusBook.FillFields` | examples/clob/core/src/orderbook.rs:34-64 | field by field: every fill names the taker's id and a resting order of the other side, is at that order's price and for no more than its size, and has the owners of the two as buyer and seller |
| `FillHistory.FillsMatchOrders` | examples/clob/core/src/orderbook.rs:94-170 | in every run each fill is between two placed orders of opposite sides, the maker placed first, at its price and within the taker's, with the accounts that placed them as buyer and seller |
| `FillHistory.StatusListsRun` | examples/clob/core/src/lib.rs:221-244 | in every run an open status repeats its order's size and account, lists exactly the fills that name the order, in order, and counts them modulo 2^64; a resting order is the one placed under its id but for its size |
| `StatusBook.SettledStatus` | examples/clob/core/src/lib.rs:221-229 | through the fill loop a status gains exactly the fills its order makes, and is closed once they reach its size |
| `StatusBook.AgreeIff` | examples/clob/core/src/lib.rs:221-244 | adding an order keeps statuses and book in agreement if and only if no filled_size addition wraps |
| `StatusBook.CancelAgrees` | examples/clob/core/src/lib.rs:126-131 | a cancel keeps the agreement and closes the status |
| `StatusBook.BookOkOnAllRuns` | examples/clob/core/src/lib.rs:252-271 | the book invariant holds on every run short enough not to exhaust order ids; ids of statuses and resting orders are below the next id |
| `StatusBook.AgreeOnAllRuns` | examples/clob/core/src/lib.rs:221-244 | on every run with sizes up to 2^63, open statuses belong to resting orders, count exactly their fills, stay below their size, and the resting size is the size minus the fills as maker |
| `StatusBook.AgreeAlongRunIff` | examples/clob/core/src/lib.rs:221-244 | throughout a run of any sizes statuses and book agree if and only if no filled_size addition wraps |
| `FailingRuns.CountWraps` | examples/clob/core/src/lib.rs:226-229 | a run in which one does: the count of an ask that sold 2^64 is 0 and its status open |
| `Accounts.TransferExact` | examples/clob/core/src/lib.rs:198-219 | moving locked funds of one account to free funds of another, possibly the same, wraps nothing and conserves the total |
| `Owed.OwedCovers` | examples/clob/core/src/lib.rs:180-192 | what one open order is due is covered by what its owner owes in all |
| `Owed.FillDue` | examples/clob/core/src/lib.rs:198-219 | a fill within status and limit lowers what is due by exactly its base or quote |
| `Owed.LeftoverIsImprovement` | examples/clob/core/src/lib.rs:206-206 | what a completed buy leaves locked is the sum of size times price improvement over its fills |
| `Ledger.FillRoom` | examples/clob/core/src/lib.rs:198-219 | the seller has the fill's base and the buyer its quote locked, so no subtraction underflows |
| `Ledger.FillExact` | examples/clob/core/src/lib.rs:198-219 | no operation of a fill within its statuses wraps, both parties exist, totals are conserved and each account changes by the fill diff |
| `Ledger.SettleExact` | examples/clob/core/src/lib.rs:198-219 | a fill whose parties exist and have its base and quote locked wraps nothing, conserves both totals and changes each account by the fill diff, whatever the statuses say |
| `Ledger.FillLedger` | examples/clob/core/src/lib.rs:198-229 | such a fill keeps locked balances equal to what open orders owe plus the gap |
| `Ledger.FillsLedger` | examples/clob/core/src/lib.rs:195-230 | so does the whole fill loop, account by account and diff by diff |
| `Ledger.OpenLedger` | examples/clob/core/src/lib.rs:180-192 | locking the order's funds pays for opening its status |
| `Ledger.AddSolvent` | examples/clob/core/src/lib.rs:160-249 | adding an order within the statuses keeps the ledger solvent, conserves both totals, and changes every account by exactly its diffs |
| `Solvency.DepositSolvent` | examples/clob/core/src/lib.rs:69-88 | a deposit keeps the ledger solvent and adds exactly its amounts |
| `Solvency.OwnerNeverDropped` | examples/clob/core/src/lib.rs:102-105 | an account with nothing locked has no open order, so withdraw never drops the owner of one |
| `Solvency.WithdrawSolvent` | examples/clob/core/src/lib.rs:91-112 | a withdrawal keeps the ledger solvent and takes exactly its amounts, if it succeeds |
| `Solvency.FilledQuoteExact` | examples/clob/core/src/api/mod.rs:223-230 | the wrapping sum is the exact one while that fits |
| `Solvency.UntouchedIff` | examples/clob/core/src/lib.rs:136-145 | the resting size is the status size exactly if the order made no maker fill |
| `Solvency.CancelAmounts` | examples/clob/core/src/lib.rs:133-147 | the amount a cancel of an untouched order unlocks is exactly what the order is due, and is locked |
| `Solvency.CancelSolvent` | examples/clob/core/src/lib.rs:115-155 | cancelling an untouched order keeps the ledger solvent; its diff overstates the release by exactly what was already filled |
| `Responses.AcceptsIff` | examples/clob/core/src/lib.rs:164-178 | an order is accepted if and only if its account has both balances and, free, the notional modulo 2^64 of a buy or the size of a sell; what it has locked does not matter |
| `Responses.ResponseTells` | examples/clob/core/src/lib.rs:69-271 | in every reachable state a request succeeds exactly when a condition on balances, book and statuses, written out, holds; otherwise the response is empty, its diff is Noop, no balance changed, and no status but that of an open order without account; ids are used up exactly by orders of existing accounts |
| `Responses.CancelSucceeds` | examples/clob/core/src/lib.rs:115-155 | a cancel succeeds exactly on an open order of an existing account, and reports the status that was open; on other resting orders it clears the book |
| `Responses.NoneOwnerless` | examples/clob/core/src/lib.rs:136-147 | in a solvent state there is no open order without account |
| `Responses.NoopIff` | examples/clob/core/src/api/program.rs:119-120 | a Noop diff means an unchanged state except for two kinds of request |
| `FailingRuns.UnaffordableChanges` | examples/clob/core/src/lib.rs:163-178 | the first kind: an order its account cannot afford uses up an id |
| `FailingRuns.CancelOfLeftoverChanges` | examples/clob/core/src/lib.rs:117-131 | the second, in a run: the cancel of an order that rests although its status is closed |
| `Responses.OrderStatusTells` | examples/clob/core/src/lib.rs:232-248 | the reported status counts exactly the trades made, and is stored, and the order rests, if and only if something of it is left |
| `Responses.WithdrawUndoesDepositIff` | examples/clob/core/src/lib.rs:69-112 | withdrawing what was just deposited restores the state if and only if the account was not there with nothing in it |
| `Runs.TickSolvent` | examples/clob/core/src/lib.rs:252-271 | every within-status request keeps solvency, accounts for the totals and tells the truth up to the cancel surplus |
| `Runs.RunSolvent` | examples/clob/core/src/lib.rs:69-271 | so does every within-status run from any solvent state; totals are deposits minus successful withdrawals, with no bound on the sum of deposits |
| `Runs.SolventFromGenesis` | examples/clob/core/src/lib.rs:69-271 | from genesis, for every account: locked base is what open asks owe, locked quote is what open bids owe plus unreleased improvement, totals are conserved |
| `Runs.RunTruthful` | examples/clob/core/src/lib.rs:281-288 | each account's holdings change over a run by its diffs, except for what cancelled orders had already traded |
| `Runs.CurrentFits` | examples/clob/core/src/lib.rs:221-229 | while every resting order shows its unfilled size, every fill of the next order fits |
| `Runs.AddCurrent` | examples/clob/core/src/orderbook.rs:165-167 | an order filled completely or not at all keeps it so |
| `Runs.WholeWithin` | examples/clob/core/src/orderbook.rs:165-167 | if no partly filled taker ever rests, every run is within-status as far as fills go |
| `ModularDiffs.AddDiffsAre` | examples/clob/core/src/lib.rs:180-219 | the diffs of an order are its lock and then, one by one, its fills, with quantities modulo 2^64 |
| `ModularDiffs.AccountsComeAndGo` | examples/clob/core/src/lib.rs:69-112 | accounts appear only by a deposit and disappear only by a withdrawal that leaves nothing free or locked |
| `ModularDiffs.FilledQuoteMod` | examples/clob/core/src/api/mod.rs:223-230 | the filled quote is the true sum modulo 2^64, whatever its size |
| `ModularDiffs.TickMod` | examples/clob/core/src/lib.rs:252-271 | in every state each request changes each balance of an existing account by its diffs, less what a cancelled order had traded, modulo 2^64 |
| `ModularDiffs.RunMod` | examples/clob/core/src/lib.rs:281-288 | so does every run, solvent or not, for accounts not traded with after they were dropped |
| `SolvencyLimits.BuyMod` | examples/clob/core/src/lib.rs:198-229 | modulo 2^64, an accepted buy leaves each seller short by exactly what it oversold, and creates exactly the base sold by accounts that no longer exist |
| `BuyLimits.AsksOwed` | examples/clob/core/src/lib.rs:206-229 | buying from asks leaves what open bids owe alone |
| `BuyLimits.BuySolvent` | examples/clob/core/src/lib.rs:160-249 | a buy that fits keeps the ledger solvent, and what it locked and did not spend joins the unreleased improvement |
| `BuyLimits.BuyIff` | examples/clob/core/src/lib.rs:173-244 | an accepted buy of any price and notional leaves the ledger solvent, both totals conserved and every diff true if and only if every fill is within its maker's open status, it rests only with a positive price and a notional below 2^64, and its fills cost no more than its lock and unreleased improvement; with such a price and notional the fills alone decide, and the base side alone tells |
| `SellLimits.BidsOwed` | examples/clob/core/src/lib.rs:206-229 | through the fill loop of a sell, open bids owe each buyer what it paid less, plus what it was overcharged |
| `PaidFills.PaidExact` | examples/clob/core/src/lib.rs:197-230 | a fill loop whose parties have locked all it takes wraps nothing, conserves both totals and changes every account by the fill diffs |
| `SellLimits.SellMod` | examples/clob/core/src/lib.rs:198-229 | modulo 2^64, an accepted sell leaves each buyer short by exactly what it was overcharged; what accounts that no longer exist bought is lost, and what they paid is created |
| `SellLimits.SellSolvent` | examples/clob/core/src/lib.rs:160-249 | a sell whose overcharges are covered keeps the ledger solvent, the overcharges taken off the unreleased improvement |
| `SellLimits.SellIff` | examples/clob/core/src/lib.rs:198-229 | an accepted sell leaves the ledger solvent, both totals conserved and every diff true if and only if no count wraps, every buyer exists, it rests at no zero price, and no buyer is overcharged more than its unreleased improvement |
| `SolvencyLimits.CancelIff` | examples/clob/core/src/lib.rs:136-147 | a cancel leaves exactly what the other orders owe locked if and only if no maker fill touched the order |
| `SolvencyLimits.CancelTruthIff` | examples/clob/core/src/lib.rs:136-148 | the cancel diff of any open order is the true change of every account if and only if the order had traded nothing |
| `PartialTaker.PartialTakerBreaksLedger` | examples/clob/core/src/orderbook.rs:165-167 | a run of five requests after which 2^64 - 4 base is locked for a seller without open orders |
| `FailingRuns.SellBreaksLedger` | examples/clob/core/src/orderbook.rs:165-167 | a run of five requests after which 2^64 - 4 quote is locked for a buyer without open orders |
| `FailingRuns.CancelBreaksLedger` | examples/clob/core/src/lib.rs:136-147 | a run in which the cancel of a touched ask frees 2 of 6 and leaves 4 base locked for nobody |
| `DeltaSpec.ApplyAt` | examples/clob/core/src/api/program.rs:146-212 | applying a diff adds exactly its share to each of the three delta maps |
| `DeltaSpec.ApplyKeys` | examples/clob/core/src/api/program.rs:146-212 | an account gets an entry in a delta map exactly if a diff of that kind names it |
| `DeltaAlgebra.ApplyCommutes` | examples/clob/core/src/api/program.rs:146-212 | applying diffs commutes |
| `DeltaAlgebra.DeltasOfMultiset` | examples/clob/core/src/lib.rs:281-297 | the deltas of a batch depend only on the multiset of its diffs |
| `DeltaAlgebra.OrdersSumToZero` | examples/clob/core/src/api/program.rs:169-209 | over all accounts, order deltas of base sum to zero, and so do those of quote |
| `DeltaAlgebra.NetIsSum` | examples/clob/core/src/api/program.rs:146-212 | for each account and balance, deposits plus orders minus withdrawals is the sum of the diffs |
| `DeltaAlgebra.BatchesCompose` | examples/clob/core/src/lib.rs:281-288 | running two batches is running their concatenation; the deposit, order and withdrawal deltas of every account each add up, and each lists the accounts of both |
| `DeltaAlgebra.DeltasTruthful` | examples/clob/core/src/lib.rs:275-303 | on within-status runs the batch deltas are the true changes plus exactly what cancelled orders had traded |
| `DeltaAlgebra.DeltasExact` | examples/clob/core/src/lib.rs:275-303 | they are the true changes if the cancelled orders were unfilled |
| `Stf.SortKeys` | examples/clob/core/src/lib.rs:290-295 | collecting the keys of a map and sorting gives the ascending list of exactly these keys |
| `Stf.DeltaMaps.ApplyDiff` | examples/clob/core/src/api/program.rs:146-212 | the in-place updates of the three maps are the specified ones, also when buyer and seller are the same |
| `Stf.ZkvmStf` | examples/clob/core/src/lib.rs:275-303 | the loops end in the state of the run and list, by account, the deltas of its diffs |
| `Stf.ResultOfMultiset` | examples/clob/core/src/lib.rs:290-297 | the listed result depends on neither the order of diffs nor that of map entries |
| `StfResults.FundsListed` | examples/clob/core/src/lib.rs:290-297 | the deposit and withdrawal lists name, in rising order, exactly the accounts that deposit, and that withdraw successfully, in the batch, with the sums of these |
| `StfResults.TradersListed` | examples/clob/core/src/lib.rs:290-297 | the order list names, in rising order, exactly the accounts that placed an order, traded, or had one cancelled |
| `StfResults.OrdersListed` | examples/clob/core/src/lib.rs:275-303 | on within-status runs each listed order entry is what the orders of the batch did to the four balances of its account |
| `StfResults.OrdersListedMod` | examples/clob/core/src/lib.rs:275-303 | on all runs it is so modulo 2^64 |
| `NodeLog.RangeState` | examples/clob/node/src/batcher.rs:91-107 | executing a range of the log from the state before it gives the state at its end |
| `NodeRuns.DoOk` | examples/clob/node/src/engine.rs:53-107 | every transaction and message of engine and batcher, crashes included, keeps log, states and batches consistent |
| `NodeRuns.LogConsistent` | examples/clob/node/src/engine.rs:24-107 | in every reachable state each entry up to the processed index is the fold of tick over the stored log, seen is processed or one more, and batches are adjacent numbered ranges from 1 |
| `NodeRuns.NeverChanges` | examples/clob/node/src/engine.rs:71-100 | entries up to the processed index are never changed again, nor are batches |
| `NodeTurns.LogIsReceived` | examples/clob/node/src/engine.rs:53-100 | the processed log is exactly the requests received and then persisted, in order |
| `NodeTurns.RestartTells` | examples/clob/node/src/engine.rs:24-40 | a crash touches nothing but the engine, which then resumes after the request processed last, in its state |
| `NodeTurns.ReadLastTells` | examples/clob/node/src/batcher.rs:76-86 | a batch is begun exactly if something new is processed, and then reaches up to the processed index |
| `NodeTurns.BatchTakesAll` | examples/clob/node/src/batcher.rs:76-86 | in every run each batch ends at the processed index read for it |
| `NodeTurns.WholeTurn` | examples/clob/node/src/batcher.rs:73-121 | an uninterrupted turn of the batcher builds one batch of everything processed and not yet batched |
| `NodeTurns.InitTells` | examples/clob/node/src/batcher.rs:26-43 | the batcher's start sets the next batch index to 1 only if there is none |
| `NodeTurns.StoppedIff` | examples/clob/node/src/batcher.rs:157-177 | in every run the batcher stops if and only if the last batch failed three times; before that a failed try is followed by another |
| `NodeTurns.DeliveredAre` | examples/clob/node/src/batcher.rs:167-168 | what reaches the coprocessor are the batches of exactly the tries that reach it |
| `NodeDelivery.DeliveredOnceToThrice` | examples/clob/node/src/batcher.rs:145-176 | each batch reaches the coprocessor at most three times, and at least once before the next is built |
| `Nodes.ReadStartUpValues` | examples/clob/node/src/engine.rs:24-40 | start-up values and database after a start, and the error of a missing state |
| `Nodes.HandleRequest` | examples/clob/node/src/engine.rs:53-107 | one turn of the engine is its two transactions around a tick |
| `Nodes.EnsureInitialized` | examples/clob/node/src/batcher.rs:30-41 | the next batch starts at 1 unless it is already set |
| `Nodes.CreateBatch` | examples/clob/node/src/batcher.rs:73-107 | a batch is skipped exactly if nothing new is processed; otherwise it holds the whole new range of the log and the state before it |
| `Nodes.SubmitJobWithBackoff` | examples/clob/node/src/batcher.rs:157-177 | the first success ends it; after three failures it gives up; waits of 1, 8 and 64 seconds |
| `ExecActor.ExecutionActor.HandleExec` | crates/coproc/src/execute.rs:112-137 | a job is accepted or ignored as specified |
| `ExecActor.ExecutionActor.HandleRelayed` | crates/coproc/src/execute.rs:142-144 | an acknowledgement clears its nonce from the pending set |
| `ExecActor.ExecutionActor.HandleCompleted` | crates/coproc/src/execute.rs:155-188 | the whole new state for each way a task can end |
| `ExecActor.ExecutionActor.RelayCompleted` | crates/coproc/src/execute.rs:168-172 | the loop drains the buffer up to the first gap |
| `ExecJobs.SubmittedTells` | crates/coproc/src/execute.rs:108-137 | a job becomes pending and gets a task exactly if it is pending or done and, when ordered, its nonce is not below the next one |
| `ExecJobs.UnorderedTaken` | crates/coproc/src/execute.rs:109-157 | an unordered job is taken whatever its nonce and handed over the moment it is executed; a job in another state changes nothing |
| `ExecJobs.FinishedTells` | crates/coproc/src/execute.rs:160-186 | an executed job whose turn it is not replaces what the buffer has under its nonce; a failed one stops being pending; one without reply only loses its task |
| `ExecJobs.JobsConserved` | crates/coproc/src/execute.rs:106-188 | in every run, duplicates and lost replies included, each job taken is in flight, buffered, handed over, ended without result or replaced in the buffer, exactly once |
| `ExecJobs.UnorderedAtOnce` | crates/coproc/src/execute.rs:153-158 | in every run the unordered jobs handed over are those executed, in the order in which they finish |
| `ExecOrder.DrainOk` | crates/coproc/src/execute.rs:168-172 | draining stops at the first missing nonce and hands over exactly the nonces before it, in order |
| `ExecOrder.NextIsLeastMissing` | crates/coproc/src/execute.rs:92-177 | in every reachable state the next nonce is the least one not completed, if and only if one is missing at all; then the ordered nonces handed over are all those before it, once each, in order |
| `ExecOrder.CounterWraps` | crates/coproc/src/execute.rs:160-164 | once no nonce is missing the counter is back at 0: the last nonce alone does it |
| `ExecOrder.OrderIndependent` | crates/coproc/src/execute.rs:149-177 | runs that complete the same jobs hand over the same nonces |
| `ExecOrder.MissingBlocks` | crates/coproc/src/execute.rs:173-176 | a nonce that never completes holds back every later one |
| `ExecOrder.AcceptedIff` | crates/coproc/src/execute.rs:112-117 | while a nonce is missing, an ordered job is taken on exactly if its nonce has not been handed over yet |
| `ExecPending.NothingLostIff` | crates/coproc/src/execute.rs:106-188 | throughout a run each accepted job is in exactly one of in flight, buffered, handed over and failed, and pending are those neither failed nor acknowledged, if and only if accepted nonces are distinct, every task gets its reply and only jobs handed over are acknowledged |
| `ExecPending.StepPlacedIff` | crates/coproc/src/execute.rs:106-188 | one step keeps that if and only if it meets the condition |
| `ExecPending.RepeatBreaks` | crates/coproc/src/execute.rs:118-137 | accepting a nonce once more always leaves two jobs under it |
| `ExecPending.DuplicateUntracked` | crates/coproc/src/execute.rs:118-144 | with a repeated nonce the pending set can forget a job in flight |
| `ExecPending.LostStaysPending` | crates/coproc/src/execute.rs:179-181 | without a reply a nonce stays pending though its job is nowhere |
| `Retry.RelayJobResult` | crates/coproc/src/relayer.rs:352-379 | the retry loop gives the specified verdict, number of attempts and total wait |
| `Retry.AlwaysFailing` | crates/coproc/src/relayer.rs:352-379 | a job that always fails gets exactly the maximum plus two attempts and then is given up, after a single one if the maximum is 2^32 - 1 |
| `Retry.SucceedsAt` | crates/coproc/src/relayer.rs:352-379 | for every maximum, a job whose first success comes in time is attempted up to and including it |
| `Retry.WaitsClosedForm` | crates/coproc/src/relayer.rs:367-374 | the capped waits sum to 250 n (n + 1) up to 60 retries and grow by 30 seconds each after |
| `Retry.GivenUpIff` | crates/coproc/src/relayer.rs:352-379 | a failing job is eventually given up unless the maximum is 2^32 - 2, where the counter wraps |
| `Retry.SucceedsEver` | crates/coproc/src/relayer.rs:352-379 | with that maximum a job is relayed whenever it first succeeds |
| `DeadLetters.RelayRetry.RetryJobs` | crates/coproc/src/relayer.rs:116-200 | one pass deletes exactly the included and the exhausted jobs and counts a retry for the others |
| `DeadLetters.PassFalls` | crates/coproc/src/relayer.rs:116-200 | every pass lowers the sum of remaining retries by at least one a job, whatever the counters |
| `DeadLetters.FailingStays` | crates/coproc/src/relayer.rs:163-184 | a job that always fails is retried exactly the maximum minus its retries, modulo 2^32, plus one times |
| `DeadLetters.QueueEmptiesIff` | crates/coproc/src/relayer.rs:114-204 | without new failures n passes are sure to empty the queue if and only if no job has more than n retries left, modulo 2^32 for a counter above the maximum |
| `DeadLetters.Gone` | crates/coproc/src/relayer.rs:140-146 | a job included in a pass is gone after it, and none enters |
| `RelayJobs.TakeTells` | crates/coproc/src/relayer.rs:312-337 | a job received starts at attempt 1, awaited if ordered, beside the others if not |
| `RelayJobs.BesideIsRelay` | crates/coproc/src/relayer.rs:325-392 | the attempts of an unordered job follow the retry loop: kept while it goes on, acknowledged exactly on inclusion, else dead-lettered |
| `RelayJobs.AttemptsFlow` | crates/coproc/src/relayer.rs:350-379 | in every run, for each job and number i, attempts made or awaited are the jobs received, for i = 1, plus the failed attempts i - 1, while i - 1 is at most the maximum plus one |
| `RelayJobs.RelaysConserved` | crates/coproc/src/relayer.rs:312-399 | in every run each job received is being relayed, acknowledged or dead-lettered, exactly one of these and once |
| `RelayJobs.AcksArrive` | crates/coproc/src/relayer.rs:391-392 | acknowledgements reach the execution actor in the order of inclusion, and none is lost |
| `RelayOrder.OrderedThroughBoth` | crates/coproc/src/relayer.rs:280-339 | across both actors ordered nonces are received from the start on once each, relayed one at a time, and included in strictly rising order |
| `RelayOrder.SettledBefore` | crates/coproc/src/relayer.rs:310-325 | the acknowledgement or dead letter of every predecessor comes before anything of a job |
| `RelayOrder.TriesAreRelay` | crates/coproc/src/relayer.rs:352-395 | the actor's attempts follow the retry loop; an acknowledgement is sent exactly on inclusion, else the job is dead-lettered |
| `RelayPending.Projects` | crates/coproc/src/execute.rs:104-188 | every run of both actors is a run of the execution actor |
| `RelayPending.SystemLosesNothingIff` | crates/coproc/src/relayer.rs:381-399 | no acknowledgement comes without a handed-over job, so across both actors nothing is lost and pending is exact if and only if accepted nonces are distinct and every task gets its reply |
| `RootChain.BatchesChain` | examples/clob/node/src/batcher.rs:89-121 | each batch starts from the state that the program computes for the one before |
| `RootChain.SentAre` | crates/coproc/src/execute.rs:155-173 | the i-th job handed to the relay actor carries the i-th batch |
| `RootChain.RootsChain` | examples/clob/node/src/batcher.rs:71-154 | for every interleaving, run length and root function, the jobs handed over form one chain of state roots from genesis, with nonces 1, 2, and so on |
| `RootChain.ProgramComputes` | examples/clob/programs/program/src/main.rs:8-27 | from the bytes the batcher frames the program computes the batch's output state, for requests encoded in fewer than 2^32 bytes and decoders that undo the encoders |
| `Framing.LengthFirst` | examples/clob/node/src/batcher.rs:109-113 | the input is the length modulo 2^32, lowest byte first, then requests and state; the program reads any input so and panics exactly if it is too short |
| `Framing.SplitCombine` | examples/clob/programs/program/src/main.rs:14-18 | the program reads as requests the first length modulo 2^32 bytes, the rest as state |
| `Framing.RoundTripIff` | examples/clob/node/src/batcher.rs:110-114 | it reads back what the batcher framed if and only if the requests are shorter than 2^32 bytes |
| `MatchingGame.ApplyRequests` | examples/matching-game/core/src/lib.rs:75-131 | the loop computes the specified map and matches, or panics |
| `MatchingGame.ApplyAppend` | examples/matching-game/core/src/lib.rs:75-131 | applying two ranges in turn is applying them at once, with the matches concatenated |
| `MatchingGame.EveryoneAccountedFor` | examples/matching-game/core/src/lib.rs:81-128 | no waiting list has two addresses, and submits are twice the matches plus effective cancels plus those waiting |
| `MatchPairs.SubmitTells` | examples/matching-game/core/src/lib.rs:83-108 | a submit is matched with the first address waiting under its number, which leaves the list; with nobody there it waits itself |
| `MatchPairs.AddressAccountedFor` | examples/matching-game/core/src/lib.rs:75-131 | from any trie, for each address: places and submits before are occurrences in matches, effective cancels and places after |
| `MatchPairs.EveryMatchPairs` | examples/matching-game/core/src/lib.rs:89-102 | every match is between a submitter and whoever submitted the same number last before, with no request about that number in between |
| `MatchingGame.PanicIff` | examples/matching-game/core/src/lib.rs:111-126 | a request panics exactly if it cancels somebody who does not wait under an existing entry |
| `MatchingGame.DoubleCancelPanics` | examples/matching-game/core/src/lib.rs:111-126 | entries stay behind, so cancelling twice panics |
| `MatchingGame.EngineAndBatcherAgree` | examples/matching-game/server/src/batcher.rs:61-125 | at equal indices batcher and engine have the same root and matches, and a batch of processed requests never panics |
| `MatchingGame.BatcherCatchesUp` | examples/matching-game/server/src/batcher.rs:64-121 | a turn of the batcher takes everything processed, after which trie and matches are the engine's |

## Left out

- StatusBook.BookOkOnAllRuns: is about fewer than 2^64 requests, after which order ids repeat; so are `FillHistory` and `ModularDiffs.RunMod`.
- ModularDiffs.RunMod: leaves out an account that is traded with after a withdrawal has dropped it; the source skips its share of the fill.
- StatusBook.AgreeOnAllRuns: is about sizes up to 2^63; `StatusBook.AgreeAlongRunIff` is the exact statement for all sizes.
- ExecOrder.OrderIndependent: is about runs in which some nonce is still missing; otherwise all 2^64 have completed and the counter has wrapped.
- RootChain.RootsChain: is about fewer than 2^64 - 1 batches, so that nonces do not run out.
- Hashing, borsh, bincode and ABI encoding, Merkle tries, signatures: a state root is any function of the state, a trie is a map, the number hash is injective.
- SP1 execution, blobs and compression: a job's task ends executed, failed or without reply, at any time after its submission.
- gRPC, HTTP, CLIs, metrics, logging, websocket reconnects and sleeping; of waits only the backoff sums are kept.
- MDBX: tables are maps, each `view` or `update` is one atomic step.
- `crates/coproc/src/intake.rs` beyond the start nonce, and `crates/coproc/src/event.rs`: they only decide which jobs are submitted, and the actor is proved for all submissions.
- Restart of the batcher: its job nonce is a local that begins at 1, so one lifetime is modelled, from an empty database. The engine restarts at will.
- The exit of the two actors (`Exit` message, closed channels, a panicking task) and the bound of their channels: a run may stop anywhere.
- Dead-letter relays in the ordering theorems: they run outside the ordered path.
- A job whose parameters cannot be parsed leaves `relay_job_result` before the retry loop; jobs are taken to be well formed.
- Overflow panics of debug builds; the `debug_assert` calls.
- The order in which hash maps yield entries, and the tree inside the ordered maps: the model finds the best level by looking at all of them.
- Wrap-around of database indices and of 256-bit deltas, out of reach of 2^64 requests.
- `bin/exec` and the Solidity contracts are not part of this model.
