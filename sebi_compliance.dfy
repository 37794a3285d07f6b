/**
  * The compliance facade: pre-trade checks on every submitted order and the
  * post-trade circuit-breaker check (indian_market/sebi_compliance.py).
  */
module SebiCompliance {
  import opened Orders
  import opened TradingSessions
  import opened CircuitBreakers

  /** The reason attached to a verdict; each rejection carries the data its message reports. */
  datatype Reason =
    | MarketHalted
    | OrderTypeNotAllowed(orderType: OrderType, session: string)
    | PriceOutsideBand(price: real, lowerBand: real, upperBand: real)
    | OrderCompliant

  /** The session manager holds no state, so the engine is its circuit-breaker monitor. */
  datatype ComplianceEngine = ComplianceEngine(circuitBreaker: CircuitBreakerMonitor)

  function NewComplianceEngine(referencePrice: real, stockCategory: string): (e: ComplianceEngine)
    ensures !e.circuitBreaker.marketHalted
    ensures e.circuitBreaker == NewMonitor(referencePrice, stockCategory)
  {
    ComplianceEngine(NewMonitor(referencePrice, stockCategory))
  }

  /** A price that the band check looks at: present and non-zero (a zero price is skipped like a missing one). */
  predicate PriceToCheck(price: Option<real>) {
    price.Some? && price.value != 0.0
  }

  /**
    * The pre-trade checks, in order: a halted market refuses everything,
    * then the session must accept the order type, then a priced order must
    * lie within the price band.
    */
  function ValidateOrder(e: ComplianceEngine, order: Order, currentTime: int): (r: (bool, Reason))
    ensures r.0 <==> r.1 == OrderCompliant
    ensures r.0 <==>
      !e.circuitBreaker.marketHalted
      && IsOrderAllowed(order.orderType, currentTime)
      && (PriceToCheck(order.price) ==> CheckPriceBand(e.circuitBreaker, order.price.value))
    ensures e.circuitBreaker.marketHalted ==> r.1 == MarketHalted
    ensures r.1.MarketHalted? ==> e.circuitBreaker.marketHalted
    ensures (!e.circuitBreaker.marketHalted && !IsOrderAllowed(order.orderType, currentTime)) ==>
      r.1 == OrderTypeNotAllowed(order.orderType, GetCurrentSession(currentTime))
    ensures (&& !e.circuitBreaker.marketHalted
             && IsOrderAllowed(order.orderType, currentTime)
             && PriceToCheck(order.price)
             && !CheckPriceBand(e.circuitBreaker, order.price.value)) ==>
      r.1 == PriceOutsideBand(order.price.value, e.circuitBreaker.lowerBand, e.circuitBreaker.upperBand)
    ensures r.1.OrderTypeNotAllowed? ==> r.1 == OrderTypeNotAllowed(order.orderType, "regular") && order.orderType == FOK
    ensures r.1.PriceOutsideBand? ==>
      order.price.Some? && r.1.price == order.price.value &&
      (r.1.price < r.1.lowerBand || r.1.upperBand < r.1.price)
  {
    var monitor := e.circuitBreaker;
    if monitor.marketHalted then (false, MarketHalted)
    else if !IsOrderAllowed(order.orderType, currentTime) then
      OnlyFillOrKillRefused(order.orderType, currentTime);
      (false, OrderTypeNotAllowed(order.orderType, GetCurrentSession(currentTime)))
    else if PriceToCheck(order.price) && !CheckPriceBand(monitor, order.price.value) then
      (false, PriceOutsideBand(order.price.value, monitor.lowerBand, monitor.upperBand))
    else (true, OrderCompliant)
  }

  /** Orders at or between the band edges, and orders without a price, pass every check except the order-type rule. */
  lemma ValidateOrderAccepts(e: ComplianceEngine, order: Order, currentTime: int)
    requires !e.circuitBreaker.marketHalted
    requires order.orderType != FOK
    requires order.price.None? || CheckPriceBand(e.circuitBreaker, order.price.value)
    ensures ValidateOrder(e, order, currentTime) == (true, OrderCompliant)
  {
    OnlyFillOrKillRefused(order.orderType, currentTime);
  }

  /**
    * The post-trade check classifies the trade price with the index circuit
    * breaker and reports the outcome, but the engine it returns is the one
    * it was given: a triggered breaker never halts the market.
    */
  function PostTradeCheck(e: ComplianceEngine, tradePrice: real, currentTime: int): (r: (ComplianceEngine, HaltInfo))
    requires e.circuitBreaker.referencePrice != 0.0
    ensures r.0.circuitBreaker.marketHalted == e.circuitBreaker.marketHalted
    ensures r.0 == e
  {
    (e, CheckIndexCircuitBreaker(e.circuitBreaker, tradePrice, currentTime))
  }

  /** The halt flag is never raised, so an engine that starts open stays open and refuses nothing for being halted. */
  lemma NeverHalted(referencePrice: real, stockCategory: string, tradePrices: seq<real>, currentTime: int)
    requires referencePrice != 0.0
    ensures var e := AfterTrades(NewComplianceEngine(referencePrice, stockCategory), tradePrices, currentTime);
      !e.circuitBreaker.marketHalted && e == NewComplianceEngine(referencePrice, stockCategory)
  {
    AfterTradesUnchanged(NewComplianceEngine(referencePrice, stockCategory), tradePrices, currentTime);
  }

  /** The engine after a post-trade check of each price in turn. */
  function AfterTrades(e: ComplianceEngine, tradePrices: seq<real>, currentTime: int): ComplianceEngine
    requires e.circuitBreaker.referencePrice != 0.0
    decreases |tradePrices|
  {
    if tradePrices == [] then e
    else
      var next := PostTradeCheck(e, tradePrices[0], currentTime).0;
      AfterTrades(next, tradePrices[1..], currentTime)
  }

  lemma {:induction false} AfterTradesUnchanged(e: ComplianceEngine, tradePrices: seq<real>, currentTime: int)
    requires e.circuitBreaker.referencePrice != 0.0
    ensures AfterTrades(e, tradePrices, currentTime) == e
    decreases |tradePrices|
  {
    if tradePrices != [] {
      AfterTradesUnchanged(e, tradePrices[1..], currentTime);
    }
  }

  /** With reference price 100 and the F&O band of 10%, a buy limit at 111 is refused for its price. */
  lemma OutsideBandExample(currentTime: int)
    ensures var e := NewComplianceEngine(100.0, "fno_stocks");
      var order := Order(6, 6, Buy, 10, Limit, 0, Some(111.0), None);
      ValidateOrder(e, order, currentTime) == (false, PriceOutsideBand(111.0, 90.0, 110.0))
  {
    var e := NewComplianceEngine(100.0, "fno_stocks");
    assert PriceBand("fno_stocks") == 0.10;
    assert e.circuitBreaker.upperBand == 110.0;
    OnlyFillOrKillRefused(Limit, currentTime);
  }
}
