/**
  * Order records and the order recycling pool
  * (core/orders.py).
  */
module Orders {

  datatype Option<T> = None | Some(value: T)

  /** Side of an order. */
  datatype OrderSide = Buy | Sell

  /** The five order types the exchange knows about. */
  datatype OrderType = Market | Limit | StopLoss | IOC | FOK

  /**
    * An order. Prices are exact reals (no floating-point rounding); the
    * timestamp is an opaque number supplied by the caller. The source's
    * next/prev/parent links are not fields here: the book keeps each price
    * level's queue as a sequence of order ids and finds the level by price.
    */
  datatype Order = Order(
    orderId: int,
    agentId: int,
    side: OrderSide,
    quantity: int,
    orderType: OrderType,
    timestamp: int,
    price: Option<real> := None,
    triggerPrice: Option<real> := None)

  /** The placeholder record the pool is filled with. */
  const BlankOrder := Order(0, 0, Buy, 0, Limit, 0)

  /** Number of records a new pool starts with. */
  const DefaultPoolSize := 100000

  /** Number of records added when the pool runs dry. */
  const ExpansionSize := 1000

  function Blanks(n: nat): seq<Order> {
    seq(n, _ => BlankOrder)
  }

  /**
    * A FIFO queue of reusable order records. Records are handed out from
    * the front and returned at the back.
    */
  class OrderPool {
    var pool: seq<Order>

    constructor (initialSize: int := DefaultPoolSize)
      ensures pool == Blanks(if initialSize > 0 then initialSize else 0)
    {
      pool := [];
      new;
      ExpandPool(initialSize);
    }

    /** Appends `size` placeholder records (none when `size` is not positive). */
    method ExpandPool(size: int)
      modifies this
      ensures pool == old(pool) + Blanks(if size > 0 then size else 0)
    {
      var count := if size > 0 then size else 0;
      var i := 0;
      while i < count
        invariant 0 <= i <= count
        invariant pool == old(pool) + Blanks(i)
      {
        pool := pool + [BlankOrder];
        i := i + 1;
      }
    }

    /**
      * Takes the front record and re-initialises it with the given fields.
      * An empty pool is first refilled, so the call never fails.
      */
    method GetOrder(orderId: int, agentId: int, side: OrderSide, quantity: int,
                    orderType: OrderType, timestamp: int,
                    price: Option<real> := None, triggerPrice: Option<real> := None)
      returns (order: Order)
      modifies this
      ensures order == Order(orderId, agentId, side, quantity, orderType, timestamp, price, triggerPrice)
      ensures old(pool) != [] ==> pool == old(pool)[1..]
      ensures old(pool) == [] ==> pool == Blanks(ExpansionSize - 1)
    {
      if |pool| == 0 {
        // Grow by half the current size, or by ExpansionSize when that is 0.
        var half := |pool| / 2;
        ExpandPool(if half != 0 then half else ExpansionSize);
      }
      // Re-initialising overwrites every field of the popped record,
      // so nothing of its previous contents survives.
      pool := pool[1..];
      order := Order(orderId, agentId, side, quantity, orderType, timestamp, price, triggerPrice);
    }

    /** Returns a record to the back of the queue. */
    method ReleaseOrder(order: Order)
      modifies this
      ensures pool == old(pool) + [order]
    {
      pool := pool + [order];
    }
  }
}
