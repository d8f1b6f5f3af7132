# A verified model of the exchange engine

This Dafny project models the core of a limit-order exchange: the price-time matching book, the
cache of users' balances with its locking of funds, the worker that runs both as one state machine
and writes the database, and the two protocols around it, the transactional outbox relay and the
loop that publishes depth snapshots. `dafny verify dfyconfig.toml` checks all of it.

## How it is built

The code that works in place is modelled in place, and proved against functions on values; the
laws are then proved of those functions.

| module | what it holds |
|---|---|
| `Domain`, `Matching`, `Measures` | orders and trades, the 64-bit amount arithmetic, the reference matcher on sorted ladders of queues, sums over books |
| `MatchingLaws`, `BookLaws`, `RestoreLaws` | what the matcher does: conservation, priority, uncrossedness, round trips, rebuilding |
| `Ladders`, `Book` | the pointer-based book: nodes in intrusive doubly linked lists, level maps, sorted price indexes, one id map, a pool of recycled nodes; each method refines its counterpart on values |
| `Funds`, `BalanceCache` | balances as a value, with fields that wrap at 64 bits, and the cache of nested maps of mutable balances |
| `Engine`, `Claims`, `Solvency`, `Safety`, `RunLaws` | the worker's in-memory state machine, and its invariants over every run of events |
| `Unbounded`, `Overflow` | that machine on unbounded integers, and when the two agree; the deposits up to which memory stays consistent, and runs beyond them |
| `Exactness`, `Counterexamples` | for each condition on events: the exact condition, and a concrete input that breaks the guarantee without it |
| `Rows`, `Database`, `Persistence`, `Worker` | the tables with their constraints, the queries on them, the batched persistence, the worker itself |
| `Exchange`, `Limits` | API, outbox, worker and tables together: the tables follow memory in every run; how much may be deposited before a row overflows |
| `Records` | what is recorded is what was asked for: events, orders on the book, rows of trades |
| `OutboxRelay`, `RelayProtocol`, `Service` | the relay and its step protocol, the service's transactions, rebuilding the book |
| `DepthRefresh` | the flag, snapshot and publish protocol |

A price level's list is tied to a ghost sequence of nodes, and the level maps and indexes to a ghost
map from slots (side and price) to sequences; a book's value is the pair of ladders they spell. The
exchange as a whole, the relay and the depth loop are state machines over steps, so that every
interleaving is covered.

## What runs are assumed to look like

An event is admissible when its price is positive, its quantity positive and at most 2^31 - 1 (as
`internal/api/order_handler.go:91-99` checks), a buy's amount fits 64 bits, and a deposit is not
negative. Runs start from the empty state and have no restart. Order ids are fresh; in `Exchange`
this need not be assumed, nor that deposits are not negative, because the orders table's primary key
and the balances table's CHECK refuse the others before an event exists.

Balances in memory are signed 64-bit integers that wrap around. That memory stays consistent
(`Safety`, `Worker`) is shown of runs in which the deposits of BTC, and those of USD, each add up to
at most 2^63 - 1. The API accepts more; `Overflow.FitsIffConsistent` shows that the bound is exact in
either asset. If the deposits of every asset keep to it, no balance overflows, inside an event or
between events (`Unbounded.RunUnbounded`); without it, what is held is conserved modulo 2^64
(`RunLaws.RunConserves`). The laws of the book and of the order of trades need no bound.

The results about the tables (`Exchange`) assume the same of the accepted deposits, and that every
transaction that no constraint refuses commits. `Limits.FitsIffNeverFails` shows that the bound is
exact there too, and `Limits.OverfullTradeRefused` what happens beyond it. Deposits of assets that are
not traded need no bound, except where a result is about their own balances.

## What the code does and its documentation does not say

- ADR 0004 presents settlement panics as eliminated. Two things can still cause one. Prices have no
  upper bound, so a buy's amount can exceed 64 bits and wrap; it then locks too little. And the lock
  checks only what is available, so locks that add up to more than 2^63 - 1 wrap the locked field
  itself. `Exactness.FitsIffNeverPanics` says exactly when the first is ruled out,
  `Overflow.FitsIffNeverPanicsWithin` exactly when the second is.
- The top-level README calls event delivery "exactly-once" in style. An event whose marking fails is
  published again: `RelayProtocol.OnceIffNoLostMarks` gives the exact condition.
- A placement whose transaction fails to commit has already changed the book, and asks for no depth
  refresh: `DepthRefresh.UpdateLost`. `DepthRefresh.FailedChangeShown` says when it is shown all the
  same; the next commit makes up for it.
- A cancel notifies the relay before its own transaction commits: `RelayProtocol.CancelWakeUpLost`.
  The wake-up is lost exactly when that commit finds the relay parked with the slot empty
  (`RelayProtocol.AwakeIffNoLateCancel`).
- Strict FIFO has one exception: a taker passes over its own orders, and stops at a level where
  only its own are left, so the book can be crossed by one user's orders:
  `Counterexamples.OwnOrdersCross`, and exactly when in `RunLaws.RunUncrossedIff`.
- The book's `PlaceOrder` does not check for a repeated id, unlike `RestoreOrder`. The id map then
  leads to the new order, and the older one stays linked at its price, out of the map's reach
  (`Book.OrderBook.AddOrder`).

## Model

| member | source | states |
|---|---|---|
| `Safety.NeverInconsistent` | internal/core/services/worker.go:193-239 | In every run of admissible events, whatever their order, whose deposits of BTC and of USD each fit int64, no event ends in the "memory is inconsistent" panic or the out-of-sync return, on balances that wrap at 64 bits |
| `Overflow.FitsIffConsistent` | internal/core/domain/balance_cache.go:48-129 | Given limits on the deposits of BTC and of USD, no admissible run that keeps to them ends in the panic or out of sync exactly when both limits fit int64 |
| `Overflow.FitsIffNeverPanicsWithin` | internal/core/services/worker.go:217-238 | The panic alone is ruled out exactly when both limits fit int64 or no BTC is deposited |
| `Overflow.BuysEndInPanic` | internal/core/domain/balance_cache.go:48-57 | An admissible run with 2^63 USD deposited in all, in which two buys wrap their user's locked field and the next trade panics |
| `Overflow.SellsEndInPanic` | internal/core/domain/balance_cache.go:48-57 | An admissible run with 2^63 BTC deposited in all and no USD, in which sells of the greatest quantity wrap it and the next trade panics |
| `Unbounded.RunUnbounded` | internal/core/domain/balance_cache.go:48-129 | In a run whose deposits of every asset fit int64 no addition to a balance overflows, inside an event or between events: each event does what it does on unbounded integers |
| `Unbounded.StepUnbounded` | internal/core/domain/balance_cache.go:48-129 | One event does what it does on unbounded integers, from any state with the invariant, if a deposit finds room in its account |
| `Safety.RunSolvent` | internal/core/services/worker.go:177-239 | After every admissible run whose deposits fit int64, each user's locked BTC equals the remainders of their resting sells, locked USD is at least the sum of floor(price*remaining/1e8) over their resting buys, and what all users hold of each is exactly what was deposited |
| `Safety.Step` | internal/core/services/worker.go:412-435 | One admissible event, a deposit fitting with what is held, keeps that invariant on 64-bit fields, never panics, and makes each user's USD surplus grow by the price improvement, which is not negative, plus at most one unit per trade bought in |
| `Safety.SurplusOfRun` | internal/core/services/worker.go:177-239 | After any admissible run whose deposits fit int64 a user's USD surplus is at least the price improvement of the run, itself not negative, and at most that plus one unit per trade bought in |
| `Safety.SurplusNeverShrinks` | internal/core/services/worker.go:177-239 | No event of such a run makes a user's surplus shrink |
| `Safety.PlaceStep` | internal/core/services/worker.go:170-241 | A placement is rejected and changes nothing, or locks, matches and settles every trade, with no field overflowing |
| `Safety.PlaceSettles` | internal/core/services/worker.go:207-239 | Once the funds are locked every trade of the placement settles, and each surplus grows by the price improvement, which is not negative, plus at most one unit per trade bought in |
| `Safety.CancelStep` | internal/core/services/worker.go:324-363 | A cancel of a resting order always finds its claim locked and unlocks exactly that, with no field overflowing; every surplus stays |
| `Safety.DepositStep` | internal/core/services/worker.go:417-432 | A deposit that fits with what is held keeps the invariant and every surplus, and adds exactly its amount |
| `Solvency.CoveredSettles` | internal/core/services/worker.go:217-238 | Trades whose totals are covered by locked funds all settle one by one, as on unbounded integers, and take exactly what they owe out of them |
| `Claims.PlaceClaims` | internal/core/services/worker.go:177-191 | What matching does to the claims of every user: exact in BTC, in USD off by the price improvement plus at most one unit per trade bought in |
| `Claims.SplitOverTrades` | internal/core/services/worker.go:181-187 | Rounding down an amount trade by trade loses at most one unit per trade |
| `Exactness.FitsIffNeverPanics` | internal/core/services/worker.go:179-187 | In runs whose deposits fit int64, a buy the request handler accepts can be made to panic in settlement exactly when its amount does not fit 64 bits |
| `Counterexamples.UnfitBuyPanics` | internal/core/services/worker.go:179-237 | A concrete admissible-looking buy whose amount wraps to -2 and whose trade panics |
| `Domain.QuoteExactIffFits` | internal/core/domain/balance_cache.go:87-92 | The computed 64-bit amount is the exact floor just when that floor fits |
| `Domain.QuoteSplit` | internal/core/domain/balance_cache.go:87-92 | Amounts are superadditive: splitting a quantity in two loses at most one unit |
| `RunLaws.RunConserves` | internal/core/domain/balance_cache.go:48-129 | After any run of any events, whatever wraps, the users together hold of each asset what was deposited of it, modulo 2^64 |
| `RunLaws.RunHolds` | internal/core/domain/balance_cache.go:48-129 | Exactly that, and no negative field, for each asset whose deposits fit int64, in admissible runs whose deposits of BTC and USD fit |
| `RunLaws.NoOverflow` | internal/core/domain/balance_cache.go:48-129 | If an asset's deposits fit int64, and those of BTC and USD, every balance in it is between zero and 2^63 - 1 after every such run |
| `Funds.OperationsConserve` | internal/core/domain/balance_cache.go:48-129 | Lock, unlock and settlement conserve each asset's total modulo 2^64, a deposit adds its amount to its own, whatever wraps |
| `Funds.OperationsExact` | internal/core/domain/balance_cache.go:48-129 | While no traded balance is negative and what is held fits int64, the four operations are those on unbounded integers, and keep it so; a deposit if it fits with what is held |
| `Funds.AccountBound` | internal/core/domain/balance_cache.go:9-12 | No account holds more than its asset's total |
| `Exactness.DepositIff` | internal/core/domain/balance_cache.go:70-84 | A deposit leaves an account in range non-negative just when the sum is between zero and 2^63 - 1 |
| `Counterexamples.NegativeDepositOverdraws` | internal/core/domain/balance_cache.go:70-84 | The cache does not check a deposit's sign: a concrete one overdraws |
| `MatchingLaws.MatchFillsInTurn` | internal/core/domain/orderbook.go:141-189 | The trades in closed form: the makers of other users, best price first and first come first, each filled for the smaller of its remainder and what the volume ahead of it leaves of the taker, up to and including the first level that holds an order of the taker's own |
| `MatchingLaws.MatchFacts` | internal/core/domain/orderbook.go:141-189 | Taker quantity equals remainder plus traded quantities; trades are within the limit, between different users, with consecutive ids; the side stays well-formed |
| `MatchingLaws.MatchStops` | internal/core/domain/orderbook.go:142-185 | If a remainder still reaches the best level left, every order at that level is the taker's own |
| `MatchingLaws.PlaceStatus` | internal/core/domain/orderbook.go:90-104 | The status answered is Filled just when all of the order traded, Partial when some of it did, Placed when there was no trade |
| `BookLaws.PlaceFinds` | internal/core/domain/orderbook.go:90-104 | A new order is found afterwards exactly if it is not filled, as it came, with what did not trade open |
| `Safety.PlaceAnswer` | internal/core/services/worker.go:177-209 | A placement is answered Rejected just when the account is missing or has too little available, and else by how much of it traded |
| `Safety.CancelAnswer` | internal/core/services/worker.go:324-376 | A cancel is answered Cancelled exactly if the order is on the book |
| `Measures.MatchSums` | internal/core/domain/orderbook.go:141-189 | Volume, per-user remainders and per-order remainders fall by exactly what is traded; per-user quote sums by at most one unit more per trade; no order is hit more often than it rests |
| `BookLaws.MatchPriority` | internal/core/domain/orderbook.go:142-186 | If an order trades, every order of another user before it in price-time order is filled and off the book |
| `BookLaws.PlaceOk` | internal/core/domain/orderbook.go:78-105 | Placing keeps the book well-formed: levels sorted and non-empty, remainders positive |
| `BookLaws.PlaceCount` | internal/core/domain/orderbook.go:78-105 | Placing adds at most the taker's own id to the book, and no id twice |
| `BookLaws.CancelOk` | internal/core/domain/orderbook.go:107-117 | Cancelling takes an open order of that id off and keeps the book well-formed; it fails just when the id is not there |
| `BookLaws.CancelCount` | internal/core/domain/orderbook.go:107-117 | A cancel removes its own id and no other |
| `BookLaws.PlaceThenCancel` | internal/core/domain/orderbook.go:78-117 | Cancelling an order that came to rest without trading gives back the book it came to, exactly |
| `BookLaws.PlaceUncrossedIff` | internal/core/domain/orderbook.go:142-212 | A placement crosses an uncrossed book exactly if its limit reaches an order of its own user and the orders it may trade with, up to that level, do not fill it |
| `BookLaws.PlaceKeepsUncrossed` | internal/core/domain/orderbook.go:142-212 | In particular the book stays uncrossed when the taker has no order on the other side |
| `Matching.LadderExtensional` | internal/core/domain/orderbook.go:216-239 | A side of the book is determined by its queue at each price |
| `Matching.AddQueueAt` | internal/core/domain/orderbook.go:216-239 | Resting an order appends it to its own price's queue and touches no other price |
| `Matching.RemoveQueueAt` | internal/core/domain/orderbook.go:244-275 | Removing an order takes it out of its own price's queue, with the level if that empties it, and touches no other price |
| `Book.OrderBook.PlaceOrder` | internal/core/domain/orderbook.go:78-105 | Value and trades are the reference matcher's, whatever the id; the status says whether all, some or nothing traded; the linked structure stays consistent exactly unless the order comes to rest beside another of its own id; no other object is touched |
| `Book.OrderBook.MatchOrder` | internal/core/domain/orderbook.go:141-189 | The outer loop, with levels deleted under it, computes the reference match and terminates |
| `Book.OrderBook.SweepLevel` | internal/core/domain/orderbook.go:152-181 | The inner loop, unlinking nodes while it walks them, computes the reference sweep of one level |
| `Book.OrderBook.TradeWith` | internal/core/domain/orderbook.go:157-179 | One fill reduces taker, maker and level volume by the same quantity and unlinks a filled maker |
| `Book.OrderBook.BestOpposite` | internal/core/domain/orderbook.go:191-212 | The best opposite price, if there is one within the taker's limit |
| `Book.OrderBook.AddOrder` | internal/core/domain/orderbook.go:216-239 | Linking at the tail, creating level and index entry where needed, keeps lists, index, maps, pool and volumes consistent if the id is new; with an id in use it overwrites the id map and leaves the other order linked but out of reach |
| `Book.OrderBook.ShadowedBreaks` | internal/core/domain/orderbook.go:238 | A linked order whose id leads to another contradicts the consistency of the book |
| `Book.OrderBook.RemoveOrder` | internal/core/domain/orderbook.go:244-275 | Unlinking, dropping an emptied level and recycling the node keeps them consistent |
| `Book.OrderBook.CancelOrder` | internal/core/domain/orderbook.go:107-117 | Value is the reference cancel's; the recycled node still shows the cancelled order |
| `Book.OrderBook.RestoreOrder` | internal/core/domain/orderbook.go:132-136 | Value is the reference restore's: appended unless the id is there |
| `Book.OrderBook.GetOrder` | internal/core/domain/orderbook.go:127-130 | Finds exactly the orders of the book's value |
| `Book.OrderBook.ValueFinds` | internal/core/domain/orderbook.go:24 | The id map holds exactly the orders linked on the two sides |
| `Book.OrderBook.TakeSnapshot` | internal/core/domain/orderbook.go:54-68 | The bids show a price just when buys rest there, with the sum of what is open at it, in strictly falling order of price; the asks likewise for sells, in strictly rising order |
| `Measures.DepthShows` | internal/core/domain/orderbook.go:54-68 | The same of the depth of any well-formed book as a value |
| `Book.OrderBook.Reset` | internal/core/domain/orderbook.go:119-125 | An empty, consistent book that keeps the pool |
| `Book.OrderBook.LevelFor` | internal/core/domain/orderbook.go:219-225 | The level at a price, inserted at its sorted place in the index if new |
| `Book.OrderBook.DeleteIfEmpty` | internal/core/domain/orderbook.go:261-267 | An emptied level leaves map and index; another stays |
| `Book.PriceLevel.Append` | internal/core/domain/orderbook.go:227-237 | Appending at the tail gives the list with the node last, both ways |
| `Book.PriceLevel.Unlink` | internal/core/domain/orderbook.go:247-272 | Unlinking gives the list without that position, both ways, and clears the node |
| `Ladders.BinarySearch` | internal/core/domain/orderbook.go:223-263 | The position of a price in the index of its side, and whether it is there |
| `Ladders.AddLadder` | internal/core/domain/orderbook.go:216-239 | Appending to one queue, with the index kept sorted, is resting an order on the side as a value |
| `Ladders.RemoveLadder` | internal/core/domain/orderbook.go:244-275 | Dropping one position is removing that id from the side as a value |
| `RunLaws.RunPriority` | internal/core/domain/orderbook.go:142-186 | In any run, when a new order trades with a resting one, every order of another user that has a better price, or the same price and arrived earlier, is filled and gone; no trade is beyond the limit |
| `RunLaws.RunRecorded` | internal/core/domain/orderbook.go:216-239 | In any run the book holds only placed orders, each id once, each queue in order of arrival |
| `Records.RunPlaced` | internal/core/domain/orderbook.go:78-105 | In any run each order on the book has the user, price, quantity and side it was placed with, and no more open than was placed |
| `RunLaws.PairsTradeOnce` | internal/core/domain/orderbook.go:152-186 | No two trades of a run are between the same two orders or have the same id |
| `RunLaws.NewTrades` | internal/core/domain/orderbook.go:152-179 | Within a placement every maker appears once |
| `RunLaws.RunUncrossedIff` | internal/core/domain/orderbook.go:142-212 | The best bid is below the best ask throughout a run exactly when no order of the run crosses the book, a condition on the book and the balances before the order |
| `Counterexamples.OwnOrdersCross` | internal/core/domain/orderbook.go:142-185 | A concrete run whose last order crosses the book with its user's own order |
| `RunLaws.RunUncrossed` | internal/core/domain/orderbook.go:142-212 | In runs where no order arrives while its user rests on the other side, best bid is always below best ask |
| `RunLaws.PlaceThenCancelUndoes` | internal/core/services/worker.go:170-385 | Placing an order that does not trade and cancelling it restores the book and every balance exactly, just when what it locks fits int64 on top of what its account has locked |
| `Exactness.FreshIffKeepsUnique` | internal/core/domain/orderbook.go:78-105 | Placing does not check for a repeated id: ids stay unique under every admissible order placed with an id just when that id is not on the book |
| `Counterexamples.RepeatedIdRestsTwice` | internal/core/domain/orderbook.go:78-105 | A concrete repeated id that rests twice |
| `RestoreLaws.RestoreBuilds` | internal/core/domain/orderbook.go:132-136 | Restoring a list builds, per side and price, the first occurrences by id in list order |
| `RestoreLaws.RestoreDetermined` | internal/core/domain/orderbook.go:132-136 | Two lists build the same book if and only if those subsequences agree |
| `RestoreLaws.RestoreDump` | internal/core/domain/orderbook.go:132-136 | Dumping a book in priority order and restoring the dump gives the same book |
| `RestoreLaws.RebuildDump` | internal/core/services/order_service.go:162-172 | So does restoring its bids and then its asks |
| `Service.RestoreEach` | internal/core/services/order_service.go:169-171 | The loop over loaded orders builds the reference restore of the list |
| `Service.RebuildOrderBook` | internal/core/services/order_service.go:162-186 | Buys, then sells, then the snapshot of the rebuilt book |
| `BalanceCache.Cache.LockFunds` | internal/core/domain/balance_cache.go:48-57 | Moves the amount from available to locked, each wrapping at 64 bits, or fails on too little available and changes nothing |
| `BalanceCache.Cache.UnlockFunds` | internal/core/domain/balance_cache.go:59-68 | Moves the amount back, each field wrapping at 64 bits, or fails and changes nothing |
| `BalanceCache.Cache.Deposit` | internal/core/domain/balance_cache.go:70-84 | Adds to the account's wrapping field, opening it if needed, and changes no other |
| `BalanceCache.Cache.SettleTrade` | internal/core/domain/balance_cache.go:86-129 | The four transfers of a trade on wrapping fields, or, when either side has too little locked, failure without a change |
| `BalanceCache.Cache.InitBalance` | internal/core/domain/balance_cache.go:37-46 | Opens or replaces one account with a balance of its own |
| `BalanceCache.Cache.GetBalance` | internal/core/domain/balance_cache.go:28-35 | The account's balance; null exactly when there is no such account |
| `Worker.OrderWorker.HandlePlaceOrder` | internal/core/services/worker.go:170-313 | Memory, outcome, status and trades are the state machine's, whatever the id; the book stays consistent exactly unless the order rests beside another of its id; the database is that of the transaction or untouched; a refresh is flagged only after a commit |
| `Worker.OrderWorker.HandleCancelOrder` | internal/core/services/worker.go:315-385 | The same for a cancel, reading the recycled node |
| `Worker.OrderWorker.HandleDeposit` | internal/core/services/worker.go:417-432 | The same for a deposit |
| `Worker.OrderWorker.HandleMessage` | internal/core/services/worker.go:388-436 | One message of any kind: memory by the state machine, the database by the message's transaction if it commits and untouched otherwise, a refresh flagged only after a commit |
| `Worker.OrderWorker.Deliver` | internal/core/services/worker.go:487-513 | With tables that agree with memory, handling a pending event is one delivery of the exchange: the agreement is kept and nothing is rejected |
| `Worker.OrderWorker.SettleTrades` | internal/core/services/worker.go:217-238 | Settles in order and stops at the first failure |
| `Worker.OrderWorker.WritePlacement` | internal/core/services/worker.go:248-296 | The transaction of a placement: its tables as a whole, or nothing |
| `Worker.OrderWorker.Consume` | internal/core/services/worker.go:487-513 | A loop over any admissible run ends in the state machine's run, whatever commits; it stops at a panic, which leaves the lock held, and if the deposits fit int64 it handles every message and none panics or gets out of sync |
| `Worker.OrderWorker.Reset` | internal/core/services/worker.go:516-521 | Book and balances are empty |
| `Persistence.PersistTradeSettlements` | internal/core/services/worker.go:94-168 | One batch of deltas, collected in nested maps and listed in any order, leaves the rows that settling the trades one at a time leaves; it fails just when one of those rows breaks a constraint |
| `Persistence.CollectDeltas` | internal/core/services/worker.go:95-138 | One delta per touched account: the sum of what the trades add to it |
| `Persistence.ListDeltas` | internal/core/services/worker.go:140-153 | Each account of the nested maps appears once in the parallel lists, with its delta |
| `Rows.BatchSettles` | internal/db/balances.sql.go:14-28 | A batch with distinct keys has exactly one outcome: the trade-by-trade settlement |
| `Rows.TransferAllAt` | internal/core/services/worker.go:113-138 | Trade-by-trade settlement adds to each account the sum of its legs, and touches no other |
| `Exchange.DeltasFit` | internal/core/services/worker.go:105-138 | In a run whose deposits fit int64, what the trades of a placement add to either field of an account fits too |
| `Persistence.CreateBatch` | internal/adapters/repository/postgres_trade_repository.go:37-75 | The seven parallel arrays spell one row per trade, inserted as a whole or not at all |
| `Records.RowsAsPlaced` | internal/adapters/repository/postgres_trade_repository.go:50-64 | In every run each row of the trade log names as buyer an order placed to buy and as seller one placed to sell, the later one's user as taker and the earlier one's as maker; its id, price and quantity are the trade's, its price the earlier order's |
| `Records.TableRowsAsAsked` | internal/adapters/repository/postgres_trade_repository.go:37-75 | The same of each row stored in the trades table in a run of the whole exchange, the two orders being ones the API accepted |
| `Database.Queries.UpdateBalanceLock` | internal/db/balances.sql.go:176-204 | Matches the row only with the amount available; fails without a change otherwise |
| `Database.Queries.UpdateBalanceUnlock` | internal/db/balances.sql.go:206-234 | Matches the row only with the amount locked; fails without a change otherwise |
| `Database.Queries.UpsertBalance` | internal/db/balances.sql.go:236-263 | Inserts or adds; refuses a negative proposed row |
| `Database.Queries.EnsureBalancesExist` | internal/db/balances.sql.go:88-105 | Zero rows for the accounts without one; no other row changes |
| `Database.Queries.BatchUpdateBalances` | internal/db/balances.sql.go:14-45 | An outcome of the batch, or failure without a change if that breaks a constraint |
| `Database.Queries.CreateTradesBatch` | internal/db/orders.sql.go:104-117 | Inserts in order; skips a present id; fails on a repeated unique key or an unknown order |
| `Rows.InsertIff` | sql/migrations/001_orders.sql:27-40 | On a table that meets its keys and references, the statement adds the rows with new ids, or fails exactly if the table with them would not |
| `Rows.RowUpdates` | internal/db/balances.sql.go:176-263 | Exactly when the lock, the unlock and the deposit of a row succeed, and the one row they leave changed |
| `Exchange.TablesFollowMemory` | internal/core/services/worker.go:248-291 | In every run of API calls and deliveries in any order, as long as the accepted deposits of BTC and of USD each fit int64 and transactions that are not refused commit, each row's locked equals the cache's, its available the cache's plus the undelivered deposits, and the trades table records every trade |
| `Limits.FitsIffNeverFails` | internal/core/services/worker.go:248-296 | Given limits on the accepted deposits of BTC and of USD, the worker is never refused in any run that keeps to them exactly when both limits fit int64 |
| `Limits.OverfullTradeRefused` | internal/db/balances.sql.go:14-28 | A concrete run of accepted deposits of 2^63 USD in all, after which a trade wraps the seller's available balance to -2^63 in memory and the tables refuse it |
| `Exchange.WorkerNeverRefused` | internal/core/services/worker.go:365-380 | In no such run does a guard, the CHECK, a BIGINT range, a unique key or a foreign key reject what the worker writes, nor is memory inconsistent |
| `Exchange.TradesInserted` | sql/migrations/001_orders.sql:27-40 | The keys of the trades table admit all the trades of a new order |
| `Exchange.RowsConserve` | internal/db/balances.sql.go:14-263 | The table holds of each asset exactly the accepted deposits |
| `Exchange.PlacementPersists` | internal/core/services/worker.go:248-291 | What the worker writes for a placement is never rejected, and follows memory |
| `Exchange.CancelPersists` | internal/core/services/worker.go:365-375 | What it writes for a cancel is never rejected, and follows memory |
| `Exchange.TrackedStorable` | sql/migrations/004_balances.sql:5-9 | Rows that follow memory meet every constraint |
| `RelayProtocol.NoLostWakeUp` | internal/core/services/outbox_relay.go:27-51 | In failure-free runs, whenever the relay is parked with the slot empty, every event whose PlaceOrder or Deposit call has returned is published and marked |
| `RelayProtocol.AwakeIffNoLateCancel` | internal/core/services/order_service.go:67-83 | In a failure-free run the relay never sleeps on an event of a returned call, a cancel's included, exactly when no cancel commits while the relay is parked with the slot empty |
| `RelayProtocol.StepAwake` | internal/core/services/outbox_relay.go:27-51 | One step puts the relay to sleep on an event just if it commits a cancel while the relay is so parked |
| `RelayProtocol.OutboxSafety` | internal/core/services/outbox_relay.go:53-87 | Under any pattern of failures a marked event was published, and a committed one is never lost |
| `RelayProtocol.PublishedAsCommitted` | internal/core/services/outbox_relay.go:62-71 | Under any pattern of failures each published event is, id and content, the one row that was committed under that id |
| `RelayProtocol.PublishedOnce` | internal/core/services/outbox_relay.go:64-77 | While no marking fails no event is published twice, whatever else fails or arrives |
| `RelayProtocol.RepeatsIffUnmarked` | internal/core/services/outbox_relay.go:72-77 | Draining publishes no event twice exactly when every event published before was marked |
| `RelayProtocol.OnceIffNoLostMarks` | internal/core/services/outbox_relay.go:53-87 | After any run that leaves no batch half done, draining publishes no event twice exactly when no marking of published events failed in the run |
| `RelayProtocol.MarkFailureRepeats` | internal/core/services/outbox_relay.go:72-77 | A concrete run in which a failed marking publishes an event twice |
| `RelayProtocol.CancelWakeUpLost` | internal/core/services/order_service.go:67-83 | A cancel notifies inside its transaction: the relay can spend the wake-up first and park on an unpublished event |
| `RelayProtocol.RoundRefines` | internal/core/services/outbox_relay.go:53-87 | A round run as protocol steps does what the relay's process does as a whole, and parks just when it should |
| `OutboxRelay.Drains` | internal/core/services/outbox_relay.go:34-87 | Without faults and arrivals n rounds publish the first 100n events, each once and in order; all are out after ceil(count/100) rounds and not before |
| `OutboxRelay.RoundDrains` | internal/core/services/outbox_relay.go:62-79 | A round publishes the oldest events, at most a batch, and marks exactly those |
| `OutboxRelay.RoundPublishes` | internal/core/services/outbox_relay.go:53-87 | Whatever goes wrong, a round publishes exactly the stored rows of its batch whose publication does not fail, counts them, and marks those, or none when it fails |
| `OutboxRelay.Relay.Process` | internal/core/services/outbox_relay.go:53-87 | One call of process, with its retry and its faults, is one round |
| `OutboxRelay.Relay.RunUntilParked` | internal/core/services/outbox_relay.go:34-41 | The loop without faults publishes every unprocessed event once, in ceil(count/100) non-empty rounds |
| `OutboxRelay.Relay.PublishAll` | internal/core/services/outbox_relay.go:63-71 | The events whose publication succeeded, in order, are published, and their ids returned |
| `OutboxRelay.Outbox.FetchUnprocessed` | internal/db/outbox.sql.go:30-35 | The oldest unprocessed rows themselves, whole and in order, at most the limit |
| `OutboxRelay.UnprocessedAt` | internal/db/outbox.sql.go:30-35 | Each unmarked row stands at the place the number of unmarked rows before it gives, and no other row is listed |
| `OutboxRelay.Outbox.MarkProcessedBatch` | internal/db/outbox.sql.go:74-78 | Marks the listed rows and no other |
| `Service.OrderService.PlaceOrder` | internal/core/services/order_service.go:86-118 | Unless the id is taken or the commit fails, the order and one event with the order's own id, user, price, quantity and side are stored together, then the relay is notified; a failed call stores nothing and notifies nobody |
| `Service.OrderService.Deposit` | internal/core/services/order_service.go:134-160 | Unless the amount is negative, the row would overflow or the commit fails, the amount is added to one row and one event with the call's user, asset and amount is stored; a failed call changes nothing |
| `Service.OrderService.CancelOrder` | internal/core/services/order_service.go:53-84 | Only for one's own open order; notifies even when the commit fails |
| `Records.EventsAsAccepted` | internal/core/services/order_service.go:86-160 | In every run the events delivered and pending are, each as often, those the accepted calls asked for: none lost, altered, doubled or made up |
| `Records.EventsAsAsked` | internal/core/services/order_service.go:86-160 | Each such event carries all the parameters of an accepted call of the run |
| `DepthRefresh.NoLostUpdate` | internal/core/services/worker.go:57-92 | In every interleaving without failures the last snapshot set is current, or a refresh is flagged, in progress or about to be flagged; a stale one in progress is followed by another |
| `DepthRefresh.CatchesUp` | internal/core/services/worker.go:57-92 | Once the worker rests, the loop shows the current depth within two rounds exactly if no update was lost |
| `DepthRefresh.FailedChangeShown` | internal/core/services/worker.go:293-296 | A placement whose transaction fails is shown by the loop in the end exactly when, before the call, a refresh was flagged, or the loop had lowered the flag but not yet looked, or the depth about to be shown was the new one anyway |
| `DepthRefresh.FailedSetShown` | internal/core/services/worker.go:89-91 | When the update of the cache fails, the current depth is shown in the end exactly when the cache showed it already or another refresh had been flagged |
| `DepthRefresh.CommittedChangeShown` | internal/core/services/worker.go:310 | A change that commits is shown in the end, whatever was lost before it |
| `DepthRefresh.UpdateLost` | internal/core/services/worker.go:293-310 | After a failed commit the cache shows the old depth although the book has changed |

## Left out

- Crash recovery: hydrating the cache from balances and active orders, and anything after a restart.
- Order statuses in the database, including the batch update of makers' statuses; that batch has distinct ids by `RunLaws.NewTrades`. Price and quantity columns of the orders table; the ledger.
- Duplicate and reordered deliveries of one event to the worker: each event is handed over once, in any order.
- The lock that a panicking placement never releases: the panic is an outcome, after which `Worker.OrderWorker.Consume` takes no further message; it is shown unreachable for admissible events whose deposits fit 64 bits.
- Int64 width of prices, quantities and level volumes: quantities are capped and prices positive, and the volume of a level is a sum over unbounded integers. The wrap of amounts and of balances is modelled.
- Ids are natural numbers from one counter; the generator's bit packing is not part of this model. Creation times appear only as the order of rows.
- The caller's buffer for trades: trades are returned as a sequence, so its reuse between calls is not captured.
- The node pool is a field of the book. It may hand out any free node or a new one; what a shared pool would add is not captured.
- `OrderWorker.mu` and the goroutines: the worker's methods run one at a time; `DepthRefresh` models the race with the snapshot loop.
- The relay's timer as a bound in time: it appears as a step that may wake a parked relay at any point.
- Operations on a book in which one id rests twice: what leads there is stated; what later calls do to such a book, a cancel of that id or a fill of the older order, is not.
- The checks of `OrderService.CancelOrder` against the orders table appear as parameters (owner and status).
- Several relays on one table, and the expiry of the depth cache.
- Lengths of asset symbols; assets other than BTC and USD can be deposited but are never traded.
- HTTP handlers beyond the checks named above, authentication, JSON, Redis, Kafka and WebSocket adapters, metrics, migrations as such, the rate limiter and the frontend: wrappers around I/O.
- Persistence.PersistTradeSettlements: the deltas are summed over unbounded integers; for a placement in a run whose deposits fit, `Exchange.DeltasFit` shows the sums in the int64 range.
- Database.Queries.BatchUpdateBalances: which of several lines for one row wins is left open, as the statement leaves it; the worker's batches never have two.
- Database.Queries.EnsureBalancesExist: the time columns are not modelled.
- RelayProtocol.NoLostWakeUp: stated for events of PlaceOrder and Deposit calls only; for cancels it holds exactly under the condition of `RelayProtocol.AwakeIffNoLateCancel`.
