/**
  * The exchange: it numbers incoming orders, takes their records from the
  * pool, runs the compliance checks, hands accepted orders to the matching
  * engine and runs the post-trade check (exchange.py).
  *
  * The wall clock is replaced by two parameters of each submission: the
  * time of day (seconds since midnight) and the timestamp stamped on the
  * order.
  */
module Exchange {
  import opened Orders
  import opened OrderBook
  import opened MatchingEngine
  import opened SebiCompliance

  /** The message returned with a submission: the compliance reason of a refusal, or acceptance. */
  datatype Message = Refused(reason: Reason) | OrderAccepted

  class Exchange {
    const orderBook: OrderBook
    const matchingEngine: MatchingEngine
    var compliance: ComplianceEngine
    const orderPool: OrderPool
    var orderIdCounter: int

    /**
      * The engine matches against this exchange's book, the book is well
      * formed, and every order id in it was issued already, so the next
      * id is fresh.
      */
    predicate Valid()
      reads this, orderBook
    {
      && matchingEngine.orderBook == orderBook
      && orderBook.Valid()
      && forall id :: id in orderBook.orders ==> id <= orderIdCounter
    }

    constructor (referencePrice: real, stockCategory: string := "default")
      ensures Valid() && fresh(orderBook) && fresh(orderPool)
      ensures orderBook.State() == EmptyBook && orderIdCounter == 0
      ensures compliance == NewComplianceEngine(referencePrice, stockCategory)
      ensures orderPool.pool == Blanks(DefaultPoolSize)
    {
      var book := new OrderBook();
      orderBook := book;
      matchingEngine := new MatchingEngine(book);
      compliance := NewComplianceEngine(referencePrice, stockCategory);
      orderPool := new OrderPool();
      orderIdCounter := 0;
    }

    /** Ids are issued 1, 2, 3, ...: each call returns one more than the last. */
    method GetNextOrderId() returns (id: int)
      modifies this`orderIdCounter
      ensures orderIdCounter == old(orderIdCounter) + 1 && id == orderIdCounter
    {
      orderIdCounter := orderIdCounter + 1;
      id := orderIdCounter;
    }

    /**
      * Submits an order. It always consumes an id and a pool record. A
      * refused order goes back to the pool and leaves the book as it was;
      * an accepted one is matched, the book becomes the match's book, and
      * the last trade's price is run through the circuit breaker, which
      * changes nothing.
      */
    method SubmitOrder(agentId: int, side: OrderSide, quantity: int, orderType: OrderType,
                       price: Option<real>, triggerPrice: Option<real>, currentTime: int, timestamp: int)
      returns (accepted: bool, message: Message, trades: seq<Trade>)
      requires Valid()
      requires compliance.circuitBreaker.referencePrice != 0.0
      requires orderType.Limit? ==> price.Some?
      modifies this, orderBook, orderPool
      ensures Valid()
      ensures orderIdCounter == old(orderIdCounter) + 1 && compliance == old(compliance)
      ensures var order := Order(orderIdCounter, agentId, side, quantity, orderType, timestamp, price, triggerPrice);
        var verdict := ValidateOrder(old(compliance), order, currentTime);
        var taken := if old(orderPool.pool) == [] then Blanks(ExpansionSize - 1) else old(orderPool.pool)[1..];
        && accepted == verdict.0
        && (!accepted ==>
              && message == Refused(verdict.1) && trades == []
              && orderBook.State() == old(orderBook.State())
              && orderPool.pool == taken + [order])
        && (accepted ==>
              var r := Match(old(orderBook.State()), order);
              && message == OrderAccepted && trades == r.trades
              && orderBook.State() == r.book
              && orderPool.pool == taken)
    {
      var orderId := GetNextOrderId();
      var order := orderPool.GetOrder(orderId, agentId, side, quantity, orderType, timestamp, price, triggerPrice);
      var verdict := ValidateOrder(compliance, order, currentTime);
      if !verdict.0 {
        orderPool.ReleaseOrder(order);
        return false, Refused(verdict.1), [];
      }
      ghost var b := orderBook.State();
      MatchKeys(b, order);
      var filled, taker;
      trades, filled, taker := matchingEngine.MatchOrder(order);
      if trades != [] {
        var lastTradePrice := trades[|trades| - 1].price;
        var checked := PostTradeCheck(compliance, lastTradePrice, currentTime);
        compliance := checked.0;
      }
      return true, OrderAccepted, trades;
    }

    /** Cancels a resting order and returns its record to the pool; false when the id is not in the book. */
    method CancelOrder(orderId: int) returns (cancelled: bool)
      requires Valid()
      modifies orderBook, orderPool
      ensures Valid()
      ensures cancelled <==> orderId in old(orderBook.orders)
      ensures orderBook.State() == BookCancel(old(orderBook.State()), orderId).1
      ensures orderPool.pool == old(orderPool.pool) + (if cancelled then [old(orderBook.orders)[orderId]] else [])
    {
      ghost var b := orderBook.State();
      BookCancelQueues(b, orderId, Buy, 0.0);
      var cancelledOrder := orderBook.CancelOrder(orderId);
      if cancelledOrder.Some? {
        orderPool.ReleaseOrder(cancelledOrder.value);
        return true;
      }
      return false;
    }
  }
}
