# Indian limit order book exchange, modelled in Dafny

This project models the core of a simulated Indian stock exchange built around
a limit order book (LOB):

- **Orders and the order pool** (`orders.dfy`). An order has an id, an agent, a
  side, a quantity, a type (market, limit, stop-loss, IOC, FOK), a timestamp
  and optional limit and trigger prices. The pool is a queue of recycled order
  records. It is handed out from the front and refilled at the back, and it
  grows by 1000 blank records when empty.
- **The order book** (`order_book.dfy`).
  - Bids and asks are lists of price levels, best first: the highest bid and
    the lowest ask. The source keys bids by the negated price.
  - Each level keeps a FIFO queue of order ids with a cached total volume and
    order count.
  - An index maps each id to its order.
  - Adding appends the order at the tail of its level, creating the level if
    needed. Cancelling unlinks it and deletes a level left empty.
  - The invariant `WellFormed` is proved to be kept by both. It says the sides
    are strictly sorted, each level is non-empty and consistent with its
    cached volume and count, and every indexed order sits in the queue at its
    own price.
- **The matching engine** (`matching_engine.dfy`).
  - Price-time priority: the taker trades with the head order of the best
    opposite level while it has quantity left and its price condition holds.
  - Makers filled in full are cancelled from the book.
  - A limit remainder rests on the book; the remainder of any other type is
    dropped.
  - The specification is the recursion `MatchLoop`/`Match` over single fills
    (`FillHead`). The engine's two nested loops are proved to compute it.
- **SEBI compliance** (`circuit_breakers.dfy`, `trading_sessions.dfy`,
  `sebi_compliance.dfy`).
  - Stock price bands per category: 2%, 5% or 10%, 10% for F&O stocks and 20%
    by default.
  - The index circuit-breaker classifier: 10%, 15% and 20% moves, with the
    action depending on the time bucket (before 13:00, 13:00 to 14:30, later).
  - Session rules, with the current session fixed to "regular".
  - Pre-trade validation: halt, then session, then price band.
  - The post-trade check, which reports and changes nothing.
- **The exchange** (`exchange.dfy`).
  - It issues order ids and takes records from the pool.
  - It validates each order, returning refused records to the pool.
  - It matches accepted orders and runs the post-trade check on the last
    trade price.
  - It cancels by id, returning the record to the pool.
- **The market data feed** (`market_data.dfy`). A subscriber list without
  duplicates and a broadcast that survives a failing subscriber.
- **The example session** of `run_simulation.py` (`scenarios.dfy`), worked
  through the specification.

The classes keep the source's own shape: `OrderBook`, `MatchingEngine`,
`Exchange`, `OrderPool` and `MarketDataFeed` have mutable fields and methods
with `modifies` clauses. Each method is proved equal to a function over values.
Examples are `BookAdd`, `BookCancel` and `Match` over `BookState`. The
properties are lemmas about those functions.

Other modelling choices:

- Prices and percentages are `real`.
- Timestamps are opaque integers.
- A time of day is a whole number of seconds since midnight.

## Model

| member | source | states |
|---|---|---|
| Orders.OrderPool.constructor | code/indian_lob_exchange/core/orders.py:76-85 | a new pool holds `initial_size` blank records (none for a non-positive size), 100000 by default |
| Orders.OrderPool.ExpandPool | code/indian_lob_exchange/core/orders.py:81-85 | `size` blank records are appended behind the existing ones |
| Orders.OrderPool.GetOrder | code/indian_lob_exchange/core/orders.py:87-98 | the returned order carries exactly the given fields; the front record is consumed; an empty pool first grows by 1000 (half of 0 is 0), leaving 999 |
| Orders.OrderPool.ReleaseOrder | code/indian_lob_exchange/core/orders.py:100-108 | a released order goes to the back of the pool and nothing else changes |
| OrderBook.WithoutAt | code/indian_lob_exchange/core/order_book.py:48-61 | unlinking an order from a duplicate-free queue removes exactly its position and keeps the others in order |
| OrderBook.WithoutMembers | code/indian_lob_exchange/core/order_book.py:48-61 | after unlinking, the queue holds every other id and not the removed one, stays duplicate-free and is one shorter |
| OrderBook.SumQtyAppend | code/indian_lob_exchange/core/order_book.py:34-45 | appending an order adds its quantity to the queue's total |
| OrderBook.SumQtyWithout | code/indian_lob_exchange/core/order_book.py:48-51 | unlinking an order subtracts its quantity from the queue's total |
| OrderBook.LimitAddOrderValid | code/indian_lob_exchange/core/order_book.py:34-46 | adding links the order at the tail, raises the volume by its quantity and the count by one, and the level stays consistent with the index |
| OrderBook.LimitRemoveOrderValid | code/indian_lob_exchange/core/order_book.py:48-63 | removing drops the order from the queue, lowers volume and count by its quantity and one, and the level stays consistent with the index |
| OrderBook.InsertSorted | code/indian_lob_exchange/core/order_book.py:95-105 | a new level inserted at its place keeps the side strictly sorted by key (descending bids, ascending asks) |
| OrderBook.SideAddQueues | code/indian_lob_exchange/core/order_book.py:95-108 | after adding, the side is still sorted, the queue at the order's price gains the id at its tail, and every other price's queue is unchanged |
| OrderBook.SideAddValid | code/indian_lob_exchange/core/order_book.py:104-109 | adding an order under a fresh id keeps every level of the side non-empty and consistent |
| OrderBook.BookAddQueues | code/indian_lob_exchange/core/order_book.py:86-109 | adding indexes the order under its id, leaves the other side alone and appends the id to the queue at its price only |
| OrderBook.BookAddValid | code/indian_lob_exchange/core/order_book.py:86-109 | adding an order with a fresh id keeps the book well formed |
| OrderBook.AddKeepsResting | code/indian_lob_exchange/core/order_book.py:86-109 | after adding, every indexed order, the new one included, sits in the queue at its own price |
| OrderBook.SideRemoveQueues | code/indian_lob_exchange/core/order_book.py:119-128 | unlinking keeps the side sorted, removes the id from the queue at its price only, and leaves every other price's queue as it was |
| OrderBook.SideRemoveValid | code/indian_lob_exchange/core/order_book.py:119-128 | unlinking a resting order keeps every remaining level non-empty and consistent with the index without that order, so a level left empty has disappeared |
| OrderBook.UnlinkFromSide | code/indian_lob_exchange/core/order_book.py:119-128 | unlinks the order from its level and deletes the level when its count reaches 0, as the specification `SideRemove` does |
| OrderBook.BookCancelQueues | code/indian_lob_exchange/core/order_book.py:111-129 | an unknown id returns nothing and changes nothing; a known id returns its order, leaves the index and its own queue, and no other queue changes |
| OrderBook.BookCancelValid | code/indian_lob_exchange/core/order_book.py:111-129 | cancelling any id keeps the book well formed |
| OrderBook.CancelKeepsResting | code/indian_lob_exchange/core/order_book.py:111-129 | after a cancellation every order still indexed sits in the queue at its own price |
| OrderBook.BestOfSide | code/indian_lob_exchange/core/order_book.py:131-145 | a side is empty iff no order of that side is indexed; otherwise its first level's head is such an order, and no order of that side has a better key |
| OrderBook.BestBidIsHighest | code/indian_lob_exchange/core/order_book.py:131-137 | best bid is None iff there is no buy order; otherwise it is the price of a resting buy and no buy is priced higher |
| OrderBook.BestAskIsLowest | code/indian_lob_exchange/core/order_book.py:139-145 | best ask is None iff there is no sell order; otherwise it is the price of a resting sell and no sell is priced lower |
| OrderBook.GetOrderResting | code/indian_lob_exchange/core/order_book.py:147-149 | a lookup finds exactly the indexed ids; the order found carries that id and rests in its own side's queue at its price, never on the other side |
| OrderBook.Limit.AddOrder | code/indian_lob_exchange/core/order_book.py:34-46 | specification of `Limit.add_order`: the id joins the tail of the queue, the volume grows by the quantity and the count by one; its properties are LimitAddOrderValid |
| OrderBook.Limit.RemoveOrder | code/indian_lob_exchange/core/order_book.py:48-63 | specification of `Limit.remove_order`: the id leaves the queue, volume and count drop by the quantity and one; its properties are WithoutAt, WithoutMembers and LimitRemoveOrderValid |
| OrderBook.SideAdd | code/indian_lob_exchange/core/order_book.py:95-108 | specification of adding to one side: find the level at the price or insert a new one at its sorted place, then append; its properties are SideAddQueues and SideAddValid |
| OrderBook.SideRemove | code/indian_lob_exchange/core/order_book.py:119-128 | specification of unlinking from one side: remove from the level at the price and delete the level when its count is 0; its properties are SideRemoveQueues and SideRemoveValid |
| OrderBook.BookAdd | code/indian_lob_exchange/core/order_book.py:86-109 | specification of `OrderBook.add_order` for a fresh id: the order is linked into its side and indexed; its properties are BookAddQueues, BookAddValid and AddKeepsResting |
| OrderBook.BookCancel | code/indian_lob_exchange/core/order_book.py:111-129 | specification of `OrderBook.cancel_order`: None and no change for an unknown id, else the order, removed from the index and its level; its properties are BookCancelQueues, BookCancelValid and CancelKeepsResting |
| OrderBook.BestBid | code/indian_lob_exchange/core/order_book.py:131-137 | specification of `best_bid`: the price of the first bid level, None when there is none; its properties are BestBidIsHighest and BestOfSide |
| OrderBook.BestAsk | code/indian_lob_exchange/core/order_book.py:139-145 | specification of `best_ask`: the price of the first ask level, None when there is none; its properties are BestAskIsLowest and BestOfSide |
| OrderBook.GetOrder | code/indian_lob_exchange/core/order_book.py:147-149 | specification of `get_order`: the indexed order or None; its property is GetOrderResting |
| OrderBook.OrderBook.constructor | code/indian_lob_exchange/core/order_book.py:75-84 | a new book has no bids, no asks and no orders, and is well formed |
| OrderBook.OrderBook.AddOrder | code/indian_lob_exchange/core/order_book.py:86-109 | a duplicate id is refused (the source raises ValueError) exactly when the id is indexed, and the book is unchanged; otherwise the book becomes `BookAdd` of the old one; the book stays well formed |
| OrderBook.OrderBook.CancelOrder | code/indian_lob_exchange/core/order_book.py:111-129 | returns the cancelled order (None for an unknown id), and the new book is `BookCancel` of the old one; the book stays well formed |
| MatchingEngine.LimitMatchable | code/indian_lob_exchange/core/matching_engine.py:49-54 | specification of `is_matchable`: the best opposite price exists, is non-zero (0.0 is falsy) and is no worse than the limit; used by MatchLoopWithinLimit and MatchUncrossed |
| MatchingEngine.PriceCondition | code/indian_lob_exchange/core/matching_engine.py:57-58 | specification of `price_condition`: `is_matchable` for a limit order, a non-empty opposite side for any other type; used by MatchLoopValid and MatchWithoutLiquidity |
| MatchingEngine.ReduceHead | code/indian_lob_exchange/core/matching_engine.py:66-83 | specification of the in-place reduction: the best level's volume and its head maker's quantity both drop by the traded amount; its property is ReduceHeadValid (through FillHeadBook) |
| MatchingEngine.FillHead | code/indian_lob_exchange/core/matching_engine.py:61-92 | specification of one pass of the inner loop: a trade with the head maker, both quantities reduced, a maker left at 0 cancelled; its properties are FillHeadTrade, FillHeadBook and FillHeadPriority |
| MatchingEngine.MatchLoop | code/indian_lob_exchange/core/matching_engine.py:60-98 | specification of the two loops of `match_order`: fill against the head while the taker has quantity and the price condition holds; its properties are MatchLoopTaker, MatchLoopValid, MatchLoopTrades, MatchLoopPriority, MatchLoopFilled, MatchLoopRemoved, MatchLoopMakers and MatchLoopWithinLimit |
| MatchingEngine.Match | code/indian_lob_exchange/core/matching_engine.py:34-105 | specification of `match_order`: MatchLoop, then a limit remainder is added to the book; its properties are MatchValid, MatchKeys, MatchTrades, MatchMakers, MatchRemainderDropped, MatchWithoutLiquidity, MatchLive and MatchUncrossed |
| MatchingEngine.FillHeadTrade | code/indian_lob_exchange/core/matching_engine.py:61-83 | one fill trades the head order of the best opposite level at that level's price for the smaller of the two quantities, stamped with the taker's id and time; both quantities drop by it; a maker left with quantity means the taker is done |
| MatchingEngine.FillHeadBook | code/indian_lob_exchange/core/matching_engine.py:66-92 | after one fill the book is well formed, a maker left with 0 has been cancelled, a partly filled maker keeps its reduced quantity, and every other order is unchanged |
| MatchingEngine.FillHeadPriority | code/indian_lob_exchange/core/matching_engine.py:61-94 | one fill trades the first order of the opposite side in priority order and removes exactly that order from the priority order when it is filled in full |
| MatchingEngine.FillHeadNext | code/indian_lob_exchange/core/matching_engine.py:85-94 | after a head maker is filled in full, the order behind it in the same level becomes the head and the price condition still holds |
| MatchingEngine.MatchLoopTaker | code/indian_lob_exchange/core/matching_engine.py:60-98 | matching changes only the taker's quantity |
| MatchingEngine.MatchLoopValid | code/indian_lob_exchange/core/matching_engine.py:60-98 | matching keeps the book well formed, only removes orders and changes their quantities (no other field), leaves the taker's own side untouched, and stops only when the taker is done or its price condition fails |
| MatchingEngine.MatchLoopTrades | code/indian_lob_exchange/core/matching_engine.py:66-83 | traded quantities plus the taker's remainder equal the incoming quantity; every trade names the taker and its timestamp, and its maker was resting on the opposite side at the trade's price |
| MatchingEngine.MatchLoopPriority | code/indian_lob_exchange/core/matching_engine.py:60-94 | the makers traded are a prefix of the opposite side in price-time priority order, and the side afterwards is that priority order without the fully filled makers |
| MatchingEngine.MatchLoopFilled | code/indian_lob_exchange/core/matching_engine.py:87-92 | the filled makers are the traded makers in order, each left with 0; only the last trade can leave its maker partly filled |
| MatchingEngine.MatchLoopRemoved | code/indian_lob_exchange/core/matching_engine.py:87-92 | the orders that leave the book are exactly the fully filled makers |
| MatchingEngine.MatchLoopMakers | code/indian_lob_exchange/core/matching_engine.py:60-98 | a resting order that no trade names keeps its record unchanged; each maker filled in full traded exactly the quantity it had; when the last trade does not fill its maker, that maker stays indexed with its old quantity less the traded quantity |
| MatchingEngine.FillHeadAccounted | code/indian_lob_exchange/core/matching_engine.py:66-92 | one fill takes the traded quantity from the head maker, which stays indexed exactly when it has quantity left (and then the taker is done), and leaves every other order unchanged |
| MatchingEngine.MatchLoopWithinLimit | code/indian_lob_exchange/core/matching_engine.py:51-58 | a limit buy never pays more than its limit and a limit sell never receives less |
| MatchingEngine.MatchValid | code/indian_lob_exchange/core/matching_engine.py:100-105 | after a match the book is well formed; a limit remainder rests at the tail of the queue at its price with its remaining quantity; otherwise the taker is not in the book |
| MatchingEngine.MatchKeys | code/indian_lob_exchange/core/matching_engine.py:34-105 | a match indexes no id other than the existing ones and the incoming order's |
| MatchingEngine.MatchTrades | code/indian_lob_exchange/core/matching_engine.py:34-105 | over the whole match, the taker's quantity is conserved (traded plus remaining equals submitted) and every trade is against a maker that was resting on the opposite side at the trade price; what the makers give up is MatchMakers |
| MatchingEngine.MatchMakers | code/indian_lob_exchange/core/matching_engine.py:34-105 | over the whole match, every order other than the incoming one that no trade names keeps its record unchanged, each maker filled in full traded exactly the quantity it had, and a last maker partly filled rests with its old quantity less the last trade's |
| MatchingEngine.MatchBesideTaker | code/indian_lob_exchange/core/matching_engine.py:102-105 | resting a limit remainder touches only the incoming order's own entry: the trades, the filled makers and every other indexed order are those of the matching loop |
| MatchingEngine.MatchRemainderDropped | code/indian_lob_exchange/core/matching_engine.py:57-58 | a non-limit order never rests, and it is left with quantity only when the opposite side has been swept empty |
| MatchingEngine.MatchWithoutLiquidity | code/indian_lob_exchange/core/matching_engine.py:57-60 | with no quantity or no price condition there are no trades and no fills; the book is unchanged except that a limit order with quantity rests |
| MatchingEngine.MatchLoopLive | code/indian_lob_exchange/core/matching_engine.py:60-92 | in a book where every order has quantity left, each trade is for a positive quantity and the book keeps that property |
| MatchingEngine.MatchLive | code/indian_lob_exchange/core/matching_engine.py:34-105 | a whole match keeps every resting order with quantity left and trades only positive quantities |
| MatchingEngine.UncrossedBest | code/indian_lob_exchange/core/order_book.py:131-145 | in a well-formed book, every bid being below every ask is the same as the best bid being below the best ask |
| MatchingEngine.MatchUncrossed | code/indian_lob_exchange/core/matching_engine.py:49-105 | with positive prices, a match leaves an uncrossed book uncrossed |
| MatchingEngine.MatchingEngine.constructor | code/indian_lob_exchange/core/matching_engine.py:26-28 | the engine works on the given book and its trade counter starts at 0 |
| MatchingEngine.MatchingEngine.GenerateTradeId | code/indian_lob_exchange/core/matching_engine.py:30-32 | each call returns one more than the last id |
| MatchingEngine.MatchingEngine.FillHeadOrder | code/indian_lob_exchange/core/matching_engine.py:64-92 | one pass of the inner loop produces the trade, maker, taker and book of `FillHead` |
| MatchingEngine.MatchingEngine.ReduceHeadInPlace | code/indian_lob_exchange/core/matching_engine.py:66-83 | lowers the level volume and the head maker's quantity by the traded amount, in place |
| MatchingEngine.MatchingEngine.MatchLevel | code/indian_lob_exchange/core/matching_engine.py:61-94 | the inner loop over a level leaves trades and fills such that, followed by the rest of the matching from the new book, they equal the matching from the old book |
| MatchingEngine.MatchingEngine.MatchOrder | code/indian_lob_exchange/core/matching_engine.py:34-105 | returns the trades and filled makers of `Match`, and leaves the book and the taker as `Match` does; the book stays well formed |
| CircuitBreakers.PriceBand | code/indian_lob_exchange/indian_market/circuit_breakers.py:34-37 | every band lies between 2% and 20%; an unknown category takes the default entry |
| CircuitBreakers.PriceBandTable | code/indian_lob_exchange/indian_market/circuit_breakers.py:16-22 | categories 1 to 3 get 2%, 5% and 10%, F&O stocks the 10% of their record, everything else 20% |
| CircuitBreakers.NewMonitor | code/indian_lob_exchange/indian_market/circuit_breakers.py:24-32 | a new monitor is not halted; its bands lie the band's share of the reference above and below it, so a positive reference lies strictly inside |
| CircuitBreakers.CheckPriceBandRelative | code/indian_lob_exchange/indian_market/circuit_breakers.py:39-46 | with a positive reference, a price passes iff it is no further from the reference than the band's share of it |
| CircuitBreakers.CheckPriceBand | code/indian_lob_exchange/indian_market/circuit_breakers.py:39-46 | specification of `check_price_band`: the price lies between the lower and upper band, both included; its property is CheckPriceBandRelative |
| CircuitBreakers.CheckIndexCircuitBreaker | code/indian_lob_exchange/indian_market/circuit_breakers.py:48-80 | specification of `check_index_circuit_breaker`; its properties are CheckIndexCircuitBreakerTable and NegativeReferenceNeverTriggers |
| CircuitBreakers.TriggeredLevel | code/indian_lob_exchange/indian_market/circuit_breakers.py:56-62 | the level is 0 or a table threshold reached by the move, and no reached threshold is higher |
| CircuitBreakers.TriggeredLevelMonotone | code/indian_lob_exchange/indian_market/circuit_breakers.py:56-62 | a larger move never triggers a lower level |
| CircuitBreakers.CheckIndexCircuitBreakerTable | code/indian_lob_exchange/indian_market/circuit_breakers.py:48-80 | a move below 10% never triggers; 20% or more halts for the day at any time; 15% gives 105 or 45 minutes or closes the market, and 10% gives 45, 15 or 0 minutes, before 13:00, until 14:30, or after |
| CircuitBreakers.NegativeReferenceNeverTriggers | code/indian_lob_exchange/indian_market/circuit_breakers.py:54-65 | against a negative reference price the move is negative and nothing triggers |
| TradingSessions.GetCurrentSession | code/indian_lob_exchange/indian_market/trading_sessions.py:28-34 | the session is always "regular", which is in the rules table |
| TradingSessions.SessionAllows | code/indian_lob_exchange/indian_market/trading_sessions.py:21-26 | an unknown session allows nothing; limit orders are allowed in every listed session but "closed"; no session allows FOK |
| TradingSessions.GetAllowedOrders | code/indian_lob_exchange/indian_market/trading_sessions.py:53-56 | the allowed types are limit, market, stop-loss and IOC |
| TradingSessions.IsOrderAllowed | code/indian_lob_exchange/indian_market/trading_sessions.py:45-51 | a type is allowed iff it is in the allowed set of the current session |
| TradingSessions.OnlyFillOrKillRefused | code/indian_lob_exchange/indian_market/trading_sessions.py:45-51 | at any time, every type but FOK is allowed |
| TradingSessions.RegularSessionWidest | code/indian_lob_exchange/indian_market/trading_sessions.py:21-26 | whatever a session allows, the regular session allows too |
| SebiCompliance.NewComplianceEngine | code/indian_lob_exchange/indian_market/sebi_compliance.py:15-17 | a new engine's monitor is built from the reference price and category and is not halted |
| SebiCompliance.ValidateOrder | code/indian_lob_exchange/indian_market/sebi_compliance.py:19-47 | valid iff the reason is "compliant" iff not halted, the type is allowed and a non-zero price is within the band; the reason is that of the first failing check in the order halt, session, band, and only a halted market gives the halt reason; a type refusal names the order type and the current session (only FOK is refused, in "regular"); a band refusal names the price and the monitor's own lower and upper bands, and the price lies outside them |
| SebiCompliance.ValidateOrderAccepts | code/indian_lob_exchange/indian_market/sebi_compliance.py:19-47 | an order that is not FOK and has no price or a price within the band is accepted while the market is open |
| SebiCompliance.PostTradeCheck | code/indian_lob_exchange/indian_market/sebi_compliance.py:49-58 | the post-trade check leaves the engine, and so the halt flag, unchanged |
| SebiCompliance.AfterTradesUnchanged | code/indian_lob_exchange/indian_market/sebi_compliance.py:49-58 | any number of post-trade checks leave the engine unchanged |
| SebiCompliance.NeverHalted | code/indian_lob_exchange/indian_market/sebi_compliance.py:49-58 | a new engine stays unhalted whatever trades follow |
| SebiCompliance.OutsideBandExample | code/run_simulation.py:56-60 | with reference 100 and the 10% F&O band, a buy limit at 111 is refused as outside 90 to 110 |
| Exchange.Exchange.constructor | code/indian_lob_exchange/exchange.py:15-20 | an empty book, order counter 0, a compliance engine for the reference price and category, and a full default pool |
| Exchange.Exchange.GetNextOrderId | code/indian_lob_exchange/exchange.py:22-24 | ids are issued 1, 2, 3, and so on |
| Exchange.Exchange.SubmitOrder | code/indian_lob_exchange/exchange.py:30-65 | every submission takes a fresh id and a pool record. A refused order leaves no trades and an unchanged book, and its record returns to the pool. An accepted one yields the trades and the book of `Match`. Compliance is unchanged and the book stays well formed |
| Exchange.Exchange.CancelOrder | code/indian_lob_exchange/exchange.py:67-75 | true iff the id was in the book; the book becomes `BookCancel` of the old one, and the cancelled order is appended to the pool |
| MarketData.IndexOf | code/indian_lob_exchange/agents/market_data.py:20-22 | the index is the first occurrence of the agent |
| MarketData.RemoveFirstExact | code/indian_lob_exchange/agents/market_data.py:20-22 | in a list without duplicates, removing an agent leaves a list one shorter, still without duplicates, without that agent, holding every other agent in the original order |
| MarketData.MarketDataFeed.constructor | code/indian_lob_exchange/agents/market_data.py:12-13 | a new feed has no subscribers |
| MarketData.MarketDataFeed.Subscribe | code/indian_lob_exchange/agents/market_data.py:15-18 | subscribing is idempotent and otherwise appends the agent; the list stays duplicate-free |
| MarketData.MarketDataFeed.Unsubscribe | code/indian_lob_exchange/agents/market_data.py:20-22 | removing an agent that is not subscribed is an error and changes nothing (the source raises ValueError); otherwise its entry is removed and it is no longer subscribed |
| MarketData.MarketDataFeed.Broadcast | code/indian_lob_exchange/agents/market_data.py:24-33 | every subscriber is notified once, in subscription order; a subscriber whose handler raises is logged as failed and the broadcast goes on |
| Scenarios.BuildBook | code/run_simulation.py:21-24 | the four limit orders give two bid levels (99, 98) and two ask levels (101, 102), and the book is well formed with best bid 99 and best ask 101 |
| Scenarios.BuildBookByMatching | code/run_simulation.py:21-24 | submitted to the matching engine, the four limit orders trade nothing (the bids meet an empty ask side, the asks are above the best bid of 99) and only rest, taking the book step by step to the same two-level book |
| Scenarios.MarketBuySweeps | code/run_simulation.py:34 | a market buy of 10 trades 8 at 101 with order 3 and then 2 at 102 with order 4, and only order 3 is filled in full |
| Scenarios.CancelBid | code/run_simulation.py:47-49 | after the market buy, cancelling order 2 returns it and leaves the 99 level as the only bid, with order 4 (10 left) the only ask |

## Left out

- Linked lists: the doubly linked order queue, the parent-level pointer and the SortedDict are modelled as a sequence of ids per level and a sorted sequence of levels. Object identity and aliasing of `Order` records are not modelled. Orders are values in the book's index, so the matching engine's mutation of the shared incoming order becomes the returned taker value.
- Orders.OrderPool.GetOrder: a record taken from the pool is replaced by a new value with the given fields. The reuse of the same Python object, which the pool exists for, is not modelled.
- Limit orders without a price: `SubmitOrder`, `Match` and `OrderBook.AddOrder` require a limit order to carry a price. In the source such an order fails with a TypeError when it is compared with a best price or negated as a bid key. On a book with no orders at all, a sell would instead open a level keyed by None.
- Exchange.Exchange.SubmitOrder: requires a non-zero reference price. The source's post-trade check divides by it and raises ZeroDivisionError once an order trades.
- MatchingEngine.MatchingEngine.MatchOrder: requires the incoming order's id not to be indexed already, and so do the lemmas MatchValid, MatchTrades, MatchMakers, MatchRemainderDropped and MatchUncrossed. The exchange guarantees this because every id is new. A repeated id would make the source's `add_order` raise ValueError after matching.
- Floating point: prices, bands and the price-change ratio are exact reals. In IEEE doubles, `100.0 * 1.1` is `110.00000000000001`, which can move a price that sits exactly on a band edge.
- Time of day is whole seconds since midnight. Sub-second times compare the same way against the 13:00 and 14:30 thresholds.
- The commented-out session logic and the session timings are not modelled, because the current session is always "regular". The halt check is modelled, but nothing ever raises the halt flag or sets the halt end time.
- Timing: `_get_current_time` (the wall clock) is replaced by the `currentTime` and `timestamp` parameters of `SubmitOrder`.
- Trade ids: `_generate_trade_id` is modelled but never called, as in the source. Trades carry no trade id.
- Unused fields: the trigger price is stored but has no effect anywhere, in the source or in the model. The F&O cooling period is stored and unused.
- Printing: `__repr__`, the post-trade `print` of a triggered circuit breaker and the broadcast's error message are output only.
- CircuitBreakers.CheckIndexCircuitBreaker: the source's result dictionary is the datatype `HaltInfo`. The 20% case carries no level, as in the source.
- MarketData.MarketDataFeed.Broadcast: the agents' `on_market_update` callbacks are foreign code. Whether each raises is the parameter `raises`, and the market data itself is not modelled.
- MatchingEngine.MatchUncrossed: the never-crossed property is proved for books with positive prices only. A price of 0 is falsy: `is_matchable` treats a best price of 0 as absent, and compliance skips the band check for it.
- MatchingEngine.MatchLive: that every resting order has quantity left is a separate invariant (`Live`). The book invariant does not include it, because `add_order` accepts any quantity.
- The docstring of `match_order` says makers "fully or partially filled" are returned. The code returns only fully filled makers, and the model follows the code.
- Scenarios: the example session is checked through the functional specification, with each order's timestamp set to its id. The exchange object and the pool are not run through it.
