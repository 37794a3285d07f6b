/**
  * Matching incoming orders against the book under price-time priority
  * (core/matching_engine.py).
  *
  * The specification is a recursion over single fills: while the taker has
  * quantity left and its price condition holds, it trades with the order at
  * the head of the best opposite level. The engine's nested loops walk the
  * same sequence of fills: a maker filled in full leaves the book, so the
  * order after it becomes the head, and a partial fill of a maker leaves the
  * taker with nothing.
  */
module MatchingEngine {
  import opened Orders
  import opened OrderBook

  datatype Trade = Trade(makerOrderId: int, takerOrderId: int, price: real, quantity: int, timestamp: int)

  /** The outcome of matching: trades in execution order, fully filled makers, the book after, and the taker's remainder. */
  datatype MatchResult = MatchResult(trades: seq<Trade>, filled: seq<Order>, book: BookState, taker: Order)

  /** One fill against the head of the best opposite level. */
  datatype Fill = Fill(trade: Trade, maker: Order, book: BookState, taker: Order)

  function Min(x: int, y: int): int {
    if x <= y then x else y
  }

  function OppositeLevels(b: BookState, o: Order): seq<Limit> {
    Levels(b, Opposite(o.side))
  }

  /**
    * The engine's `is_matchable` for limit orders: the best opposite price
    * must be present and non-zero (a zero price is falsy) and no worse than
    * the taker's limit.
    */
  predicate LimitMatchable(b: BookState, side: OrderSide, price: real) {
    if side == Buy then BestAsk(b).Some? && BestAsk(b).value != 0.0 && price >= BestAsk(b).value
    else BestBid(b).Some? && BestBid(b).value != 0.0 && price <= BestBid(b).value
  }

  /** Limit orders test their price; every other type only needs a non-empty opposite side. */
  predicate PriceCondition(b: BookState, o: Order) {
    if o.orderType.Limit? then o.price.Some? && LimitMatchable(b, o.side, o.price.value)
    else OppositeLevels(b, o) != []
  }

  /** The book with the head order of the first level on `side` and that level's volume both reduced by `q`. */
  function ReduceHead(b: BookState, side: OrderSide, q: int): BookState
    requires WellFormed(b) && Levels(b, side) != []
  {
    var levels := Levels(b, side);
    assert LevelValid(levels[0], side, b.orders);
    var level := levels[0];
    var makerId := level.queue[0];
    assert Belongs(level.queue[0], level.price, side, b.orders);
    var maker := b.orders[makerId];
    WithLevels(b, side, levels[0 := level.(totalVolume := level.totalVolume - q)])
      .(orders := b.orders[makerId := maker.(quantity := maker.quantity - q)])
  }

  /**
    * Trades the head maker of the best opposite level against the taker for
    * the smaller of the two quantities; the level's volume and both
    * quantities drop by that amount, and a maker left with nothing is
    * cancelled from the book.
    */
  function FillHead(b: BookState, o: Order): Fill
    requires WellFormed(b) && OppositeLevels(b, o) != []
  {
    var side := Opposite(o.side);
    var level := Levels(b, side)[0];
    assert LevelValid(level, side, b.orders);
    var makerId := level.queue[0];
    assert Belongs(level.queue[0], level.price, side, b.orders);
    var maker := b.orders[makerId];
    var q := Min(o.quantity, maker.quantity);
    var maker1 := maker.(quantity := maker.quantity - q);
    var b1 := ReduceHead(b, side, q);
    var b2 := if maker1.quantity == 0 then BookCancel(b1, makerId).1 else b1;
    Fill(Trade(makerId, o.orderId, level.price, q, o.timestamp), maker1, b2, o.(quantity := o.quantity - q))
  }

  /** FillHead spelled out field by field, for the engine's method. */
  lemma FillHeadIs(b: BookState, o: Order, q: int)
    requires WellFormed(b) && OppositeLevels(b, o) != []
    requires OppositeLevels(b, o)[0].queue != [] && OppositeLevels(b, o)[0].queue[0] in b.orders
    requires q == Min(o.quantity, b.orders[OppositeLevels(b, o)[0].queue[0]].quantity)
    ensures var level := OppositeLevels(b, o)[0];
      var makerId := level.queue[0];
      var maker := b.orders[makerId];
      var b1 := ReduceHead(b, Opposite(o.side), q);
      var f := FillHead(b, o);
      && f.trade == Trade(makerId, o.orderId, level.price, q, o.timestamp)
      && f.maker == maker.(quantity := maker.quantity - q)
      && f.taker == o.(quantity := o.quantity - q)
      && f.book == (if maker.quantity - q == 0 then BookCancel(b1, makerId).1 else b1)
  {
  }

  /* ---------------------------------------------------------------------- */
  /* Lemmas: one fill                                                        */
  /* ---------------------------------------------------------------------- */

  /** A level that does not hold `id` is unaffected by a change to that order. */
  lemma LevelUpdateOther(l: Limit, side: OrderSide, orders: map<int, Order>, id: int, o: Order)
    requires LevelValid(l, side, orders) && id !in l.queue
    ensures LevelValid(l, side, orders[id := o])
  {
    SumQtyFrame(l.queue, orders, orders[id := o]);
  }

  /** Reducing the head order of a side and its level's volume together keeps every level of the side valid. */
  lemma ReduceHeadSide(levels: seq<Limit>, side: OrderSide, orders: map<int, Order>, q: int)
    requires SideValid(levels, side, orders) && levels != []
    ensures levels[0].queue != [] && levels[0].queue[0] in orders
    ensures SideValid(levels[0 := levels[0].(totalVolume := levels[0].totalVolume - q)], side,
                      orders[levels[0].queue[0] := orders[levels[0].queue[0]].(quantity := orders[levels[0].queue[0]].quantity - q)])
  {
    var level := levels[0];
    assert LevelValid(level, side, orders);
    var id := level.queue[0];
    assert Belongs(level.queue[0], level.price, side, orders);
    var maker1 := orders[id].(quantity := orders[id].quantity - q);
    var orders2 := orders[id := maker1];
    var level1 := level.(totalVolume := level.totalVolume - q);
    var levels1 := levels[0 := level1];
    SumQtyUpdate(level.queue, orders, id, maker1);
    forall i | 0 <= i < |level.queue| ensures Belongs(level.queue[i], level.price, side, orders2) {
      assert Belongs(level.queue[i], level.price, side, orders);
    }
    assert LevelValid(level1, side, orders2);
    forall j | 0 < j < |levels| ensures LevelValid(levels1[j], side, orders2) {
      if id in levels[j].queue {
        OnlyLevelOf(levels, side, orders, id, j);
        UniqueLevel(levels, side, 0);
      }
      LevelUpdateOther(levels[j], side, orders, id, maker1);
    }
    QueueAtUpdate(levels, side, 0, level1, 0.0);
  }

  /** A change to an order of the other side leaves every level of this side valid. */
  lemma UpdateOtherSide(levels: seq<Limit>, side: OrderSide, orders: map<int, Order>, id: int, o: Order)
    requires SideValid(levels, side, orders) && id in orders && orders[id].side != side
    ensures SideValid(levels, side, orders[id := o])
  {
    NotOnSide(levels, side, orders, id);
    forall j | 0 <= j < |levels| ensures LevelValid(levels[j], side, orders[id := o]) {
      LevelUpdateOther(levels[j], side, orders, id, o);
    }
  }

  /** Reducing the head changes only quantities and a volume: no queue, no price and no index key. */
  lemma ReduceHeadShape(b: BookState, side: OrderSide, q: int)
    requires WellFormed(b) && Levels(b, side) != []
    ensures var b1 := ReduceHead(b, side, q);
      && b1.orders.Keys == b.orders.Keys
      && (forall id :: id in b.orders ==> b1.orders[id] == b.orders[id].(quantity := b1.orders[id].quantity))
      && Levels(b1, Opposite(side)) == Levels(b, Opposite(side))
      && |Levels(b1, side)| == |Levels(b, side)|
      && (forall j :: 0 <= j < |Levels(b, side)| ==>
            Levels(b1, side)[j].queue == Levels(b, side)[j].queue &&
            Levels(b1, side)[j].price == Levels(b, side)[j].price)
  {
    var levels := Levels(b, side);
    assert LevelValid(levels[0], side, b.orders);
    var id := levels[0].queue[0];
    var b1 := ReduceHead(b, side, q);
    assert b1.orders == b.orders[id := b.orders[id].(quantity := b.orders[id].quantity - q)];
    assert Levels(b1, side) == levels[0 := levels[0].(totalVolume := levels[0].totalVolume - q)];
  }

  /** ReduceHead spelled out, with the facts the engine's method needs to index the head. */
  lemma ReduceHeadParts(b: BookState, side: OrderSide, q: int)
    requires WellFormed(b) && Levels(b, side) != []
    ensures var levels := Levels(b, side);
      && levels[0].queue != [] && levels[0].queue[0] in b.orders
      && ReduceHead(b, side, q) ==
         WithLevels(b, side, levels[0 := levels[0].(totalVolume := levels[0].totalVolume - q)])
           .(orders := b.orders[levels[0].queue[0] := b.orders[levels[0].queue[0]].(quantity := b.orders[levels[0].queue[0]].quantity - q)])
      && WellFormed(ReduceHead(b, side, q))
  {
    ReduceHeadValid(b, side, q);
  }

  /** Reducing the head order and its level's volume by the same amount keeps the book well formed. */
  lemma ReduceHeadValid(b: BookState, side: OrderSide, q: int)
    requires WellFormed(b) && Levels(b, side) != []
    ensures WellFormed(ReduceHead(b, side, q))
  {
    var levels := Levels(b, side);
    ReduceHeadSide(levels, side, b.orders, q);
    var level := levels[0];
    var id := level.queue[0];
    var maker1 := b.orders[id].(quantity := b.orders[id].quantity - q);
    var level1 := level.(totalVolume := level.totalVolume - q);
    var b1 := ReduceHead(b, side, q);
    assert Levels(b1, side) == levels[0 := level1];
    assert b1.orders == b.orders[id := maker1];
    assert Levels(b1, Opposite(side)) == Levels(b, Opposite(side));
    assert LevelValid(level, side, b.orders);
    assert Belongs(level.queue[0], level.price, side, b.orders);
    UpdateOtherSide(Levels(b, Opposite(side)), Opposite(side), b.orders, id, maker1);
    assert SideValid(b1.bids, Buy, b1.orders) && SideValid(b1.asks, Sell, b1.orders);
    ReduceHeadResting(b, side, q);
  }

  lemma ReduceHeadResting(b: BookState, side: OrderSide, q: int)
    requires WellFormed(b) && Levels(b, side) != []
    ensures forall x :: x in ReduceHead(b, side, q).orders ==> Resting(ReduceHead(b, side, q), x)
  {
    var b1 := ReduceHead(b, side, q);
    ReduceHeadShape(b, side, q);
    forall x | x in b1.orders ensures Resting(b1, x) {
      assert Resting(b, x);
      var o := b.orders[x];
      if o.side == side {
        QueueAtSameShape(Levels(b, side), Levels(b1, side), o.price.value);
      }
    }
  }

  /**
    * One fill: the trade is for the smaller of the two quantities, at the
    * price of the best opposite level, with the maker at the head of that
    * level; both quantities drop by the traded amount, and unless the maker
    * is left with nothing the taker is done.
    */
  lemma FillHeadTrade(b: BookState, o: Order)
    requires WellFormed(b) && OppositeLevels(b, o) != []
    ensures var f := FillHead(b, o);
      var head := OppositeLevels(b, o)[0];
      && head.queue != [] && head.queue[0] in b.orders
      && var maker := b.orders[head.queue[0]];
      && f.trade == Trade(head.queue[0], o.orderId, head.price, Min(o.quantity, maker.quantity), o.timestamp)
      && f.maker == maker.(quantity := maker.quantity - f.trade.quantity)
      && f.taker == o.(quantity := o.quantity - f.trade.quantity)
      && (f.maker.quantity != 0 ==> f.taker.quantity == 0)
      && maker.orderId == head.queue[0]
      && maker.side == Opposite(o.side) && maker.price == Some(head.price)
  {
    var side := Opposite(o.side);
    var level := Levels(b, side)[0];
    assert LevelValid(level, side, b.orders);
    assert Belongs(level.queue[0], level.price, side, b.orders);
  }

  /**
    * After one fill the book is well formed; a maker left with nothing has
    * left it, a maker partly filled stays with its reduced quantity, other
    * orders keep theirs, and the taker's own side is untouched.
    */
  lemma FillHeadBook(b: BookState, o: Order)
    requires WellFormed(b) && OppositeLevels(b, o) != []
    ensures var f := FillHead(b, o);
      && WellFormed(f.book)
      && f.book.orders.Keys == (if f.maker.quantity == 0 then b.orders.Keys - {f.maker.orderId} else b.orders.Keys)
      && (forall id :: id in f.book.orders ==> f.book.orders[id] == b.orders[id].(quantity := f.book.orders[id].quantity))
      && (forall id :: id in f.book.orders && id != f.maker.orderId ==> f.book.orders[id] == b.orders[id])
      && (f.maker.quantity != 0 ==> f.book.orders[f.maker.orderId] == f.maker)
      && |f.book.orders| < |b.orders| + (if f.taker.quantity > 0 then 0 else 1)
      && Levels(f.book, o.side) == Levels(b, o.side)
  {
    var side := Opposite(o.side);
    var level := Levels(b, side)[0];
    assert LevelValid(level, side, b.orders);
    assert Belongs(level.queue[0], level.price, side, b.orders);
    var f := FillHead(b, o);
    var q := f.trade.quantity;
    var b1 := ReduceHead(b, side, q);
    ReduceHeadValid(b, side, q);
    ReduceHeadShape(b, side, q);
    assert Opposite(side) == o.side;
    if f.maker.quantity == 0 {
      BookCancelQueues(b1, level.queue[0], o.side, 0.0);
      BookCancelValid(b1, level.queue[0]);
      assert |f.book.orders.Keys| == |b.orders.Keys| - 1;
    }
  }

  /* ---------------------------------------------------------------------- */
  /* Matching                                                                */
  /* ---------------------------------------------------------------------- */

  /** Fills against the head of the book while the taker has quantity left and its price condition holds. */
  function MatchLoop(b: BookState, o: Order): MatchResult
    requires WellFormed(b)
    decreases |b.orders| + (if o.quantity > 0 then 1 else 0)
  {
    if o.quantity > 0 && PriceCondition(b, o) then
      assert OppositeLevels(b, o) != [] by {
        if o.orderType.Limit? {
          assert Opposite(o.side) == (if o.side == Buy then Sell else Buy);
        }
      }
      var f := FillHead(b, o);
      FillHeadTrade(b, o);
      FillHeadBook(b, o);
      Prepend(f, MatchLoop(f.book, f.taker))
    else
      MatchResult([], [], b, o)
  }

  /** A fill in front of the rest of the matching: its trade, and its maker when filled in full. */
  function Prepend(f: Fill, r: MatchResult): MatchResult {
    r.(trades := [f.trade] + r.trades, filled := (if f.maker.quantity == 0 then [f.maker] else []) + r.filled)
  }

  /** What prepending one fill does to a result, component by component. */
  lemma PrependParts(f: Fill, r: MatchResult)
    ensures var p := Prepend(f, r);
      && p.book == r.book && p.taker == r.taker
      && p.trades == [f.trade] + r.trades
      && |p.filled| == (if f.maker.quantity == 0 then 1 else 0) + |r.filled|
      && MakerIds(p.trades) == [f.trade.makerOrderId] + MakerIds(r.trades)
  {
    assert ([f.trade] + r.trades)[1..] == r.trades;
  }

  /** One unfolding of MatchLoop. */
  lemma MatchLoopStep(b: BookState, o: Order)
    requires WellFormed(b) && o.quantity > 0 && PriceCondition(b, o)
    ensures OppositeLevels(b, o) != []
    ensures WellFormed(FillHead(b, o).book)
    ensures MatchLoop(b, o) == Prepend(FillHead(b, o), MatchLoop(FillHead(b, o).book, FillHead(b, o).taker))
  {
    if o.orderType.Limit? {
      assert Opposite(o.side) == (if o.side == Buy then Sell else Buy);
    }
    FillHeadBook(b, o);
  }

  /**
    * match_order: the fills of MatchLoop; a limit order's remainder then
    * rests on the book and any other type's remainder is dropped.
    */
  function Match(b: BookState, o: Order): MatchResult
    requires WellFormed(b) && (o.orderType.Limit? ==> o.price.Some?)
  {
    var r := MatchLoop(b, o);
    if r.taker.quantity > 0 && o.orderType.Limit? then
      assert r.taker.price == o.price by { MatchLoopTaker(b, o); }
      r.(book := BookAdd(r.book, r.taker))
    else r
  }

  /** The taker's remainder differs from the incoming order in its quantity only. */
  lemma {:induction false} MatchLoopTaker(b: BookState, o: Order)
    requires WellFormed(b)
    ensures MatchLoop(b, o).taker == o.(quantity := MatchLoop(b, o).taker.quantity)
    decreases |b.orders| + (if o.quantity > 0 then 1 else 0)
  {
    if o.quantity > 0 && PriceCondition(b, o) {
      var f := FillHead(b, o);
      FillHeadTrade(b, o);
      FillHeadBook(b, o);
      MatchLoopTaker(f.book, f.taker);
    }
  }

  /* ---------------------------------------------------------------------- */
  /* Lemmas: matching                                                        */
  /* ---------------------------------------------------------------------- */

  /**
    * Matching keeps the book well formed, only removes orders and changes
    * quantities, never touches the taker's own side, and stops only when the
    * taker is done or its price condition fails.
    */
  lemma {:induction false} MatchLoopValid(b: BookState, o: Order)
    requires WellFormed(b)
    ensures var r := MatchLoop(b, o);
      && WellFormed(r.book)
      && r.book.orders.Keys <= b.orders.Keys
      && (forall id :: id in r.book.orders ==> r.book.orders[id] == b.orders[id].(quantity := r.book.orders[id].quantity))
      && Levels(r.book, o.side) == Levels(b, o.side)
      && (r.taker.quantity <= 0 || !PriceCondition(r.book, r.taker))
    decreases |b.orders| + (if o.quantity > 0 then 1 else 0)
  {
    MatchLoopTaker(b, o);
    if o.quantity > 0 && PriceCondition(b, o) {
      var f := FillHead(b, o);
      FillHeadTrade(b, o);
      FillHeadBook(b, o);
      MatchLoopValid(f.book, f.taker);
    }
  }

  /** The total quantity of a list of trades. */
  function SumQuantity(trades: seq<Trade>): int {
    if trades == [] then 0 else trades[0].quantity + SumQuantity(trades[1..])
  }

  /**
    * A trade made by taker o: it names o and carries its timestamp, and its
    * maker rests in orders on the opposite side at the trade's price.
    */
  predicate TradedAgainst(t: Trade, o: Order, orders: map<int, Order>) {
    && t.takerOrderId == o.orderId
    && t.timestamp == o.timestamp
    && t.makerOrderId in orders
    && orders[t.makerOrderId].side == Opposite(o.side)
    && orders[t.makerOrderId].price == Some(t.price)
  }

  /** The step of MatchLoopTrades: one fill in front of trades against a later book. */
  lemma TradesStep(f: Fill, r: MatchResult, o: Order, orders: map<int, Order>, orders': map<int, Order>)
    requires f.taker == o.(quantity := o.quantity - f.trade.quantity)
    requires forall id :: id in orders' ==> id in orders && orders'[id].side == orders[id].side && orders'[id].price == orders[id].price
    requires TradedAgainst(f.trade, o, orders)
    requires SumQuantity(r.trades) + r.taker.quantity == f.taker.quantity
    requires forall i :: 0 <= i < |r.trades| ==> TradedAgainst(r.trades[i], f.taker, orders')
    ensures var p := Prepend(f, r);
      && SumQuantity(p.trades) + p.taker.quantity == o.quantity
      && forall i :: 0 <= i < |p.trades| ==> TradedAgainst(p.trades[i], o, orders)
  {
    var p := Prepend(f, r);
    assert p.trades[1..] == r.trades;
    forall i | 0 < i < |p.trades| ensures TradedAgainst(p.trades[i], o, orders) {
      assert p.trades[i] == r.trades[i - 1];
      assert TradedAgainst(r.trades[i - 1], f.taker, orders');
    }
  }

  /**
    * Quantity is conserved: the traded quantities and the taker's remainder
    * add up to the incoming quantity. Every trade names the taker and carries
    * its timestamp, and trades a maker that was resting on the opposite side
    * at the trade's price.
    */
  lemma {:induction false} MatchLoopTrades(b: BookState, o: Order)
    requires WellFormed(b)
    ensures var r := MatchLoop(b, o);
      && SumQuantity(r.trades) + r.taker.quantity == o.quantity
      && forall i :: 0 <= i < |r.trades| ==> TradedAgainst(r.trades[i], o, b.orders)
    decreases |b.orders| + (if o.quantity > 0 then 1 else 0)
  {
    if o.quantity > 0 && PriceCondition(b, o) {
      MatchLoopStep(b, o);
      var f := FillHead(b, o);
      FillHeadTrade(b, o);
      FillHeadBook(b, o);
      MatchLoopTrades(f.book, f.taker);
      TradesStep(f, MatchLoop(f.book, f.taker), o, b.orders, f.book.orders);
    }
  }

  /* ---------------------------------------------------------------------- */
  /* Lemmas: price-time priority                                             */
  /* ---------------------------------------------------------------------- */

  /** A side's order ids in priority order: best level first, arrival order within a level. */
  function Flatten(levels: seq<Limit>): seq<int> {
    if levels == [] then [] else levels[0].queue + Flatten(levels[1..])
  }

  function MakerIds(trades: seq<Trade>): seq<int> {
    if trades == [] then [] else [trades[0].makerOrderId] + MakerIds(trades[1..])
  }

  lemma {:induction false} FlattenSameQueues(levels: seq<Limit>, levels': seq<Limit>)
    requires |levels| == |levels'|
    requires forall j :: 0 <= j < |levels| ==> levels'[j].queue == levels[j].queue
    ensures Flatten(levels') == Flatten(levels)
  {
    if levels != [] {
      FlattenSameQueues(levels[1..], levels'[1..]);
    }
  }

  /** Unlinking the head order of the first level drops the first id of the side's priority order. */
  lemma FlattenRemoveHead(levels: seq<Limit>, maker: Order)
    requires levels != [] && levels[0].queue != [] && levels[0].orderCount == |levels[0].queue|
    requires maker.orderId == levels[0].queue[0] && maker.price == Some(levels[0].price)
    ensures Flatten(levels) != [] && Flatten(levels)[0] == maker.orderId
    ensures Flatten(SideRemove(levels, maker)) == Flatten(levels)[1..]
  {
    var l := levels[0];
    var rest := Flatten(levels[1..]);
    assert Flatten(levels) == l.queue + rest;
    FindLevelIs(levels, l.price, 0);
    var l' := l.RemoveOrder(maker);
    assert l'.queue == l.queue[1..];
    if l'.orderCount == 0 {
      assert SideRemove(levels, maker) == levels[1..];
      assert l.queue == [maker.orderId];
    } else {
      var levels' := levels[0 := l'];
      assert SideRemove(levels, maker) == levels';
      assert levels'[1..] == levels[1..];
      assert Flatten(levels') == l.queue[1..] + rest;
    }
  }

  /**
    * One fill trades the first order in priority order on the opposite side,
    * and removes exactly that order from the priority order when it is
    * filled in full.
    */
  lemma FillHeadPriority(b: BookState, o: Order)
    requires WellFormed(b) && OppositeLevels(b, o) != []
    ensures var f := FillHead(b, o);
      var flat := Flatten(OppositeLevels(b, o));
      && flat != [] && f.trade.makerOrderId == flat[0]
      && Flatten(OppositeLevels(f.book, o)) == (if f.maker.quantity == 0 then flat[1..] else flat)
      && f.taker.side == o.side
      && (f.maker.quantity != 0 ==> f.taker.quantity == 0)
  {
    var side := Opposite(o.side);
    var levels := Levels(b, side);
    var f := FillHead(b, o);
    FillHeadTrade(b, o);
    var q := f.trade.quantity;
    var b1 := ReduceHead(b, side, q);
    ReduceHeadShape(b, side, q);
    ReduceHeadValid(b, side, q);
    var levels1 := Levels(b1, side);
    FlattenSameQueues(levels, levels1);
    if f.maker.quantity == 0 {
      var id := levels[0].queue[0];
      assert LevelValid(levels1[0], side, b1.orders);
      FlattenRemoveHead(levels1, b1.orders[id]);
      assert Levels(f.book, side) == SideRemove(levels1, b1.orders[id]);
    }
  }

  /** The sequence arithmetic behind one step of MatchLoopPriority. */
  lemma PriorityStep(flat: seq<int>, f: Fill, r: MatchResult, rest: seq<int>)
    requires flat != [] && f.trade.makerOrderId == flat[0]
    requires var tail := if f.maker.quantity == 0 then flat[1..] else flat;
      && |r.filled| <= |r.trades| <= |tail|
      && MakerIds(r.trades) == tail[..|r.trades|]
      && rest == tail[|r.filled|..]
    requires f.maker.quantity != 0 ==> r.trades == [] && r.filled == []
    ensures var p := Prepend(f, r);
      && |p.filled| <= |p.trades| <= |flat|
      && MakerIds(p.trades) == flat[..|p.trades|]
      && rest == flat[|p.filled|..]
  {
    PrependParts(f, r);
    var makers := MakerIds(r.trades);
    if f.maker.quantity == 0 {
      assert flat[1..][..|makers|] == flat[1..1 + |makers|];
      assert flat[..1 + |makers|] == [flat[0]] + flat[1..1 + |makers|];
    }
  }

  lemma {:induction false} MatchLoopPriority(b: BookState, o: Order)
    requires WellFormed(b)
    ensures var r := MatchLoop(b, o);
      var flat := Flatten(OppositeLevels(b, o));
      && |r.filled| <= |r.trades| <= |flat|
      && MakerIds(r.trades) == flat[..|r.trades|]
      && Flatten(OppositeLevels(r.book, o)) == flat[|r.filled|..]
    decreases |b.orders| + (if o.quantity > 0 then 1 else 0)
  {
    if o.quantity > 0 && PriceCondition(b, o) {
      MatchLoopStep(b, o);
      var f := FillHead(b, o);
      FillHeadPriority(b, o);
      MatchLoopPriority(f.book, f.taker);
      var r' := MatchLoop(f.book, f.taker);
      var full := f.maker.quantity == 0;
      if !full {
        assert r' == MatchResult([], [], f.book, f.taker);
      }
      assert OppositeLevels(f.book, f.taker) == OppositeLevels(f.book, o);
      assert OppositeLevels(r'.book, f.taker) == OppositeLevels(r'.book, o);
      PriorityStep(Flatten(OppositeLevels(b, o)), f, r', Flatten(OppositeLevels(r'.book, o)));
    }
  }

  /**
    * The makers filled in full are the traded makers in order, all but
    * possibly the last, each left with nothing.
    */
  predicate FilledPrefix(trades: seq<Trade>, filled: seq<Order>) {
    && |filled| <= |trades| <= |filled| + 1
    && forall i :: 0 <= i < |filled| ==> filled[i].orderId == trades[i].makerOrderId && filled[i].quantity == 0
  }

  /** The step of MatchLoopFilled: a partly filled maker ends the matching. */
  lemma FilledStep(f: Fill, r: MatchResult)
    requires f.maker.orderId == f.trade.makerOrderId
    requires f.maker.quantity != 0 ==> r.trades == [] && r.filled == []
    requires FilledPrefix(r.trades, r.filled)
    ensures FilledPrefix(Prepend(f, r).trades, Prepend(f, r).filled)
  {
    var p := Prepend(f, r);
    if f.maker.quantity == 0 {
      forall i | 0 < i < |p.filled|
        ensures p.filled[i].orderId == p.trades[i].makerOrderId && p.filled[i].quantity == 0
      {
        assert p.filled[i] == r.filled[i - 1] && p.trades[i] == r.trades[i - 1];
      }
    }
  }

  lemma {:induction false} MatchLoopFilled(b: BookState, o: Order)
    requires WellFormed(b)
    ensures FilledPrefix(MatchLoop(b, o).trades, MatchLoop(b, o).filled)
    decreases |b.orders| + (if o.quantity > 0 then 1 else 0)
  {
    if o.quantity > 0 && PriceCondition(b, o) {
      MatchLoopStep(b, o);
      var f := FillHead(b, o);
      FillHeadTrade(b, o);
      MatchLoopFilled(f.book, f.taker);
      if f.maker.quantity != 0 {
        assert MatchLoop(f.book, f.taker) == MatchResult([], [], f.book, f.taker);
      }
      FilledStep(f, MatchLoop(f.book, f.taker));
    }
  }

  /** The orders that leave the book are exactly the makers filled in full. */
  lemma {:induction false} MatchLoopRemoved(b: BookState, o: Order)
    requires WellFormed(b)
    ensures MatchLoop(b, o).book.orders.Keys == b.orders.Keys - FilledIds(MatchLoop(b, o).filled)
    decreases |b.orders| + (if o.quantity > 0 then 1 else 0)
  {
    if o.quantity > 0 && PriceCondition(b, o) {
      MatchLoopStep(b, o);
      var f := FillHead(b, o);
      FillHeadKeys(b, o);
      MatchLoopRemoved(f.book, f.taker);
      var r' := MatchLoop(f.book, f.taker);
      if f.maker.quantity != 0 {
        assert r' == MatchResult([], [], f.book, f.taker);
      }
      FilledIdsPrepend(f, r'.filled);
      var m: set<int> := if f.maker.quantity == 0 then {f.maker.orderId} else {};
      assert MatchLoop(b, o).book == r'.book;
      assert MatchLoop(b, o).filled == (if f.maker.quantity == 0 then [f.maker] else []) + r'.filled;
      SetDifferenceStep(b.orders.Keys, m, FilledIds(r'.filled), r'.book.orders.Keys);
    }
  }

  /**
    * What a list of trades did to the makers, given the number filled in
    * full: an order that no trade names keeps its record, each maker filled
    * in full traded exactly the quantity it had, and a last maker that is
    * not filled in full stays with its quantity less the last trade's.
    */
  predicate MakersAccounted(trades: seq<Trade>, filledCount: nat, orders: map<int, Order>, orders': map<int, Order>) {
    && (forall id :: id in orders' && id !in MakerIds(trades) ==> id in orders && orders'[id] == orders[id])
    && (forall i :: 0 <= i < filledCount && i < |trades| ==>
          trades[i].makerOrderId in orders && trades[i].quantity == orders[trades[i].makerOrderId].quantity)
    && (filledCount < |trades| ==>
          var t := trades[|trades| - 1];
          && t.makerOrderId in orders && t.makerOrderId in orders'
          && orders'[t.makerOrderId].quantity == orders[t.makerOrderId].quantity - t.quantity)
  }

  /**
    * What one fill did to the makers: the maker traded from the quantity it
    * had, it is still indexed with its new quantity exactly when that is not
    * zero (and then the taker is done), and every other order is unchanged.
    */
  predicate FillAccounted(f: Fill, orders: map<int, Order>, orders': map<int, Order>) {
    && f.trade.makerOrderId == f.maker.orderId && f.maker.orderId in orders
    && f.maker == orders[f.maker.orderId].(quantity := orders[f.maker.orderId].quantity - f.trade.quantity)
    && (forall id :: id in orders' ==> id in orders)
    && (f.maker.orderId in orders' <==> f.maker.quantity != 0)
    && (forall id :: id in orders' && id != f.maker.orderId ==> orders'[id] == orders[id])
    && (f.maker.orderId in orders' ==> orders'[f.maker.orderId] == f.maker)
    && (f.maker.quantity != 0 ==> f.taker.quantity == 0)
  }

  lemma FillHeadAccounted(b: BookState, o: Order)
    requires WellFormed(b) && OppositeLevels(b, o) != []
    ensures FillAccounted(FillHead(b, o), b.orders, FillHead(b, o).book.orders)
  {
    FillHeadTrade(b, o);
    FillHeadBook(b, o);
  }

  /** The step of MatchLoopMakers: one fill in front of the rest of the matching. */
  lemma MakersStep(f: Fill, r: MatchResult, orders: map<int, Order>, fb: map<int, Order>)
    requires FillAccounted(f, orders, fb)
    requires f.maker.quantity != 0 ==> r.trades == [] && r.filled == [] && r.book.orders == fb
    requires forall id :: id in r.book.orders ==> id in fb
    requires MakersAccounted(r.trades, |r.filled|, fb, r.book.orders)
    ensures MakersAccounted(Prepend(f, r).trades, |Prepend(f, r).filled|, orders, Prepend(f, r).book.orders)
  {
    var p := Prepend(f, r);
    var m := f.maker.orderId;
    PrependParts(f, r);
    if f.maker.quantity != 0 {
      assert p.trades == [f.trade] && MakerIds(p.trades) == [m];
    } else {
      forall i | 0 <= i < |p.filled| && i < |p.trades|
        ensures p.trades[i].makerOrderId in orders && p.trades[i].quantity == orders[p.trades[i].makerOrderId].quantity
      {
        if i > 0 {
          assert p.trades[i] == r.trades[i - 1];
        }
      }
      if |p.filled| < |p.trades| {
        assert p.trades[|p.trades| - 1] == r.trades[|r.trades| - 1];
      }
    }
  }

  /**
    * The makers of a matching: an order no trade names is left as it was,
    * each maker filled in full traded all it had, and only the last maker
    * can be partly filled, keeping its quantity less the last trade's.
    */
  lemma {:induction false} MatchLoopMakers(b: BookState, o: Order)
    requires WellFormed(b)
    ensures MakersAccounted(MatchLoop(b, o).trades, |MatchLoop(b, o).filled|, b.orders, MatchLoop(b, o).book.orders)
    decreases |b.orders| + (if o.quantity > 0 then 1 else 0)
  {
    if o.quantity > 0 && PriceCondition(b, o) {
      MatchLoopStep(b, o);
      var f := FillHead(b, o);
      FillHeadAccounted(b, o);
      MatchLoopMakers(f.book, f.taker);
      var r' := MatchLoop(f.book, f.taker);
      assert forall id :: id in r'.book.orders ==> id in f.book.orders by {
        MatchLoopValid(f.book, f.taker);
      }
      if f.maker.quantity != 0 {
        assert r' == MatchResult([], [], f.book, f.taker);
      }
      MakersStep(f, r', b.orders, f.book.orders);
    }
  }

  lemma SetDifferenceStep(k: set<int>, m: set<int>, f: set<int>, r: set<int>)
    requires r == (k - m) - f
    ensures r == k - (m + f)
  {
  }

  lemma FillHeadKeys(b: BookState, o: Order)
    requires WellFormed(b) && OppositeLevels(b, o) != []
    ensures FillHead(b, o).book.orders.Keys ==
            b.orders.Keys - (if FillHead(b, o).maker.quantity == 0 then {FillHead(b, o).maker.orderId} else {})
  {
    FillHeadBook(b, o);
  }

  function FilledIds(filled: seq<Order>): set<int> {
    set i | 0 <= i < |filled| :: filled[i].orderId
  }

  lemma FilledIdsPrepend(f: Fill, filled: seq<Order>)
    ensures FilledIds((if f.maker.quantity == 0 then [f.maker] else []) + filled) ==
            (if f.maker.quantity == 0 then {f.maker.orderId} else {}) + FilledIds(filled)
  {
    var s := (if f.maker.quantity == 0 then [f.maker] else []) + filled;
    var n := if f.maker.quantity == 0 then 1 else 0;
    forall id | id in FilledIds(filled) ensures id in FilledIds(s) {
      var i :| 0 <= i < |filled| && filled[i].orderId == id;
      assert s[i + n] == filled[i];
    }
    if n == 1 {
      assert s[0] == f.maker;
    }
  }

  /* ---------------------------------------------------------------------- */
  /* Lemmas: the whole match                                                 */
  /* ---------------------------------------------------------------------- */

  /**
    * After a match the book is well formed. A limit order's remainder rests
    * at the tail of the queue at its price with the remaining quantity; the
    * taker of any other type, or a limit taker filled in full, is not in the
    * book.
    */
  lemma MatchValid(b: BookState, o: Order)
    requires WellFormed(b) && (o.orderType.Limit? ==> o.price.Some?) && o.orderId !in b.orders
    ensures var r := Match(b, o);
      && WellFormed(r.book)
      && r.taker == o.(quantity := r.taker.quantity)
      && (r.taker.quantity > 0 && o.orderType.Limit? ==>
            && r.book.orders[o.orderId] == r.taker
            && var q := QueueAt(Levels(r.book, o.side), o.price.value);
               q != [] && q[|q| - 1] == o.orderId)
      && (r.taker.quantity <= 0 || !o.orderType.Limit? ==> o.orderId !in r.book.orders)
  {
    var r := MatchLoop(b, o);
    MatchLoopValid(b, o);
    MatchLoopTaker(b, o);
    if r.taker.quantity > 0 && o.orderType.Limit? {
      BookAddValid(r.book, r.taker);
      BookAddQueues(r.book, r.taker, o.side, o.price.value);
    }
  }

  /** A match indexes no order other than those already indexed and the incoming one. */
  lemma MatchKeys(b: BookState, o: Order)
    requires WellFormed(b) && (o.orderType.Limit? ==> o.price.Some?)
    ensures Match(b, o).book.orders.Keys <= b.orders.Keys + {o.orderId}
  {
    var r := MatchLoop(b, o);
    MatchLoopValid(b, o);
    assert r.book.orders.Keys <= b.orders.Keys;
    if r.taker.quantity > 0 && o.orderType.Limit? {
      MatchLoopTaker(b, o);
      assert Match(b, o).book.orders == r.book.orders[o.orderId := r.taker];
    }
  }

  /** The trades of a match and the quantity conservation of MatchLoopTrades. */
  lemma MatchTrades(b: BookState, o: Order)
    requires WellFormed(b) && (o.orderType.Limit? ==> o.price.Some?) && o.orderId !in b.orders
    ensures var r := Match(b, o);
      && SumQuantity(r.trades) + r.taker.quantity == o.quantity
      && forall i :: 0 <= i < |r.trades| ==>
           && r.trades[i].takerOrderId == o.orderId
           && r.trades[i].makerOrderId in b.orders
           && b.orders[r.trades[i].makerOrderId].side == Opposite(o.side)
           && b.orders[r.trades[i].makerOrderId].price == Some(r.trades[i].price)
  {
    MatchLoopTrades(b, o);
  }

  /**
    * The makers of a whole match: every order other than the incoming one
    * that no trade names keeps its record, each maker filled in full traded
    * all it had, and a last maker partly filled rests with its quantity less
    * the last trade's.
    */
  lemma MatchMakers(b: BookState, o: Order)
    requires WellFormed(b) && (o.orderType.Limit? ==> o.price.Some?) && o.orderId !in b.orders
    ensures var r := Match(b, o);
      MakersAccounted(r.trades, |r.filled|, b.orders, r.book.orders - {o.orderId})
  {
    MatchLoopMakers(b, o);
    MatchBesideTaker(b, o);
  }

  /** Apart from the incoming order's own entry, a match leaves the book and the result of MatchLoop. */
  lemma MatchBesideTaker(b: BookState, o: Order)
    requires WellFormed(b) && (o.orderType.Limit? ==> o.price.Some?) && o.orderId !in b.orders
    ensures Match(b, o).trades == MatchLoop(b, o).trades && Match(b, o).filled == MatchLoop(b, o).filled
    ensures Match(b, o).book.orders - {o.orderId} == MatchLoop(b, o).book.orders
  {
    var r := MatchLoop(b, o);
    assert o.orderId !in r.book.orders by {
      MatchLoopValid(b, o);
    }
    if r.taker.quantity > 0 && o.orderType.Limit? {
      assert Match(b, o).book.orders == r.book.orders[o.orderId := r.taker] by {
        MatchLoopTaker(b, o);
      }
    }
  }

  /**
    * A limit order never trades at a price worse than its limit: a buy pays
    * at most its price and a sell receives at least its price.
    */
  predicate WithinLimit(trades: seq<Trade>, side: OrderSide, limit: real) {
    forall i :: 0 <= i < |trades| ==>
      if side == Buy then trades[i].price <= limit else trades[i].price >= limit
  }

  lemma WithinLimitPrepend(t: Trade, trades: seq<Trade>, side: OrderSide, limit: real)
    requires WithinLimit([t], side, limit) && WithinLimit(trades, side, limit)
    ensures WithinLimit([t] + trades, side, limit)
  {
    forall i | 0 < i < |[t] + trades| ensures ([t] + trades)[i] == trades[i - 1] {
    }
  }

  lemma {:induction false} MatchLoopWithinLimit(b: BookState, o: Order)
    requires WellFormed(b) && o.orderType.Limit? && o.price.Some?
    ensures WithinLimit(MatchLoop(b, o).trades, o.side, o.price.value)
    decreases |b.orders| + (if o.quantity > 0 then 1 else 0)
  {
    if o.quantity > 0 && PriceCondition(b, o) {
      MatchLoopStep(b, o);
      var f := FillHead(b, o);
      FillHeadTrade(b, o);
      MatchLoopWithinLimit(f.book, f.taker);
      assert WithinLimit([f.trade], o.side, o.price.value);
      WithinLimitPrepend(f.trade, MatchLoop(f.book, f.taker).trades, o.side, o.price.value);
    }
  }

  /**
    * What is left of an order of any type but limit is dropped, and it is
    * left only when the opposite side has been swept empty.
    */
  lemma MatchRemainderDropped(b: BookState, o: Order)
    requires WellFormed(b) && !o.orderType.Limit? && o.orderId !in b.orders
    ensures var r := Match(b, o);
      && o.orderId !in r.book.orders
      && (r.taker.quantity > 0 ==> OppositeLevels(r.book, o) == [])
  {
    MatchLoopValid(b, o);
    MatchLoopTaker(b, o);
  }

  /**
    * With nothing to trade against (or nothing to trade), a match produces
    * no trade; the book is unchanged except that a limit order with quantity
    * rests.
    */
  lemma MatchWithoutLiquidity(b: BookState, o: Order)
    requires WellFormed(b) && (o.orderType.Limit? ==> o.price.Some?)
    requires o.quantity <= 0 || !PriceCondition(b, o)
    ensures Match(b, o).trades == [] && Match(b, o).filled == []
    ensures Match(b, o).book == if o.quantity > 0 && o.orderType.Limit? then BookAdd(b, o) else b
  {
  }

  /* ---------------------------------------------------------------------- */
  /* Lemmas: book-wide invariants of matching                                */
  /* ---------------------------------------------------------------------- */

  /** Every resting order has quantity left. */
  predicate Live(b: BookState) {
    forall x :: x in b.orders ==> b.orders[x].quantity > 0
  }

  /**
    * In a book whose orders all have quantity left, every trade is for a
    * positive quantity and the book keeps that property.
    */
  lemma {:induction false} MatchLoopLive(b: BookState, o: Order)
    requires WellFormed(b) && Live(b)
    ensures Live(MatchLoop(b, o).book)
    ensures forall i :: 0 <= i < |MatchLoop(b, o).trades| ==> MatchLoop(b, o).trades[i].quantity > 0
    decreases |b.orders| + (if o.quantity > 0 then 1 else 0)
  {
    if o.quantity > 0 && PriceCondition(b, o) {
      MatchLoopStep(b, o);
      var f := FillHead(b, o);
      FillHeadLive(b, o);
      MatchLoopLive(f.book, f.taker);
      var r' := MatchLoop(f.book, f.taker);
      PositivePrepend(f.trade, r'.trades);
    }
  }

  /** One fill against a live book trades a positive quantity and leaves the book live. */
  lemma FillHeadLive(b: BookState, o: Order)
    requires WellFormed(b) && Live(b) && o.quantity > 0 && OppositeLevels(b, o) != []
    ensures Live(FillHead(b, o).book) && FillHead(b, o).trade.quantity > 0
  {
    var f := FillHead(b, o);
    FillHeadTrade(b, o);
    FillHeadBook(b, o);
    forall x | x in f.book.orders ensures f.book.orders[x].quantity > 0 {
      if x != f.maker.orderId {
        assert f.book.orders[x] == b.orders[x];
      }
    }
  }

  /** Prepending a trade for a positive quantity keeps every trade positive. */
  lemma PositivePrepend(t: Trade, trades: seq<Trade>)
    requires t.quantity > 0 && forall i :: 0 <= i < |trades| ==> trades[i].quantity > 0
    ensures forall i :: 0 <= i < |[t] + trades| ==> ([t] + trades)[i].quantity > 0
  {
  }

  /** A match keeps every resting order with quantity left. */
  lemma MatchLive(b: BookState, o: Order)
    requires WellFormed(b) && Live(b) && (o.orderType.Limit? ==> o.price.Some?)
    ensures Live(Match(b, o).book)
    ensures forall i :: 0 <= i < |Match(b, o).trades| ==> Match(b, o).trades[i].quantity > 0
  {
    MatchLoopLive(b, o);
  }

  /** Every resting buy is priced below every resting sell. */
  predicate Uncrossed(b: BookState) {
    forall x, y ::
      x in b.orders && y in b.orders && b.orders[x].side == Buy && b.orders[y].side == Sell &&
      b.orders[x].price.Some? && b.orders[y].price.Some? ==>
      b.orders[x].price.value < b.orders[y].price.value
  }

  predicate PositivePrices(b: BookState) {
    forall x :: x in b.orders && b.orders[x].price.Some? ==> b.orders[x].price.value > 0.0
  }

  /** In a well-formed book, being uncrossed is the best bid lying below the best ask. */
  lemma UncrossedBest(b: BookState)
    requires WellFormed(b)
    ensures Uncrossed(b) <==> BestBid(b).None? || BestAsk(b).None? || BestBid(b).value < BestAsk(b).value
  {
    BestBidIsHighest(b);
    BestAskIsLowest(b);
  }

  /** Removing orders and changing quantities keeps a book uncrossed and its prices positive. */
  lemma UncrossedSubset(b: BookState, b': BookState)
    requires Uncrossed(b) && PositivePrices(b)
    requires b'.orders.Keys <= b.orders.Keys
    requires forall x :: x in b'.orders ==> b'.orders[x] == b.orders[x].(quantity := b'.orders[x].quantity)
    ensures Uncrossed(b') && PositivePrices(b')
  {
  }

  /** An order priced apart from every resting order of the other side keeps the book uncrossed. */
  lemma UncrossedAdd(b: BookState, t: Order)
    requires Uncrossed(b) && PositivePrices(b) && t.orderId !in b.orders
    requires t.price.Some? && t.price.value > 0.0
    requires forall y :: y in b.orders && b.orders[y].side != t.side && b.orders[y].price.Some? ==>
      if t.side == Buy then t.price.value < b.orders[y].price.value else b.orders[y].price.value < t.price.value
    ensures var b' := b.(orders := b.orders[t.orderId := t]);
      Uncrossed(b') && PositivePrices(b')
  {
  }

  /**
    * A limit price that does not reach the best opposite price is apart from
    * every resting order of the other side, once prices are positive.
    */
  lemma NotMatchableApart(b: BookState, side: OrderSide, p: real)
    requires WellFormed(b) && PositivePrices(b) && !LimitMatchable(b, side, p)
    ensures forall y :: y in b.orders && b.orders[y].side != side && b.orders[y].price.Some? ==>
      if side == Buy then p < b.orders[y].price.value else b.orders[y].price.value < p
  {
    BestBidIsHighest(b);
    BestAskIsLowest(b);
  }

  /**
    * With positive prices a match never crosses the book: the makers it
    * leaves were already apart, and a limit remainder rests only once it no
    * longer reaches the best opposite price.
    */
  lemma MatchUncrossed(b: BookState, o: Order)
    requires WellFormed(b) && o.orderId !in b.orders
    requires o.orderType.Limit? ==> o.price.Some? && o.price.value > 0.0
    requires Uncrossed(b) && PositivePrices(b)
    ensures Uncrossed(Match(b, o).book) && PositivePrices(Match(b, o).book)
  {
    var r := MatchLoop(b, o);
    MatchLoopValid(b, o);
    MatchLoopTaker(b, o);
    UncrossedSubset(b, r.book);
    if r.taker.quantity > 0 && o.orderType.Limit? {
      NotMatchableApart(r.book, o.side, o.price.value);
      UncrossedAdd(r.book, r.taker);
      assert Match(b, o).book.orders == r.book.orders[o.orderId := r.taker];
    }
  }

  /* ---------------------------------------------------------------------- */
  /* The engine object                                                       */
  /* ---------------------------------------------------------------------- */

  /** Trades and filled makers already produced, in front of the rest of the matching. */
  function Combine(trades: seq<Trade>, filled: seq<Order>, r: MatchResult): MatchResult {
    r.(trades := trades + r.trades, filled := filled + r.filled)
  }

  /**
    * After a maker at the head is filled in full, the order behind it in the
    * same level becomes the head of the best level, at the same price, so
    * the price condition still holds.
    */
  lemma FillHeadNext(b: BookState, o: Order)
    requires WellFormed(b) && OppositeLevels(b, o) != [] && PriceCondition(b, o)
    requires FillHead(b, o).maker.quantity == 0 && |OppositeLevels(b, o)[0].queue| > 1
    ensures var f := FillHead(b, o);
      && OppositeLevels(f.book, o) != []
      && OppositeLevels(f.book, o)[0].price == OppositeLevels(b, o)[0].price
      && OppositeLevels(f.book, o)[0].queue[0] == OppositeLevels(b, o)[0].queue[1]
      && PriceCondition(f.book, f.taker)
  {
    var side := Opposite(o.side);
    var levels := Levels(b, side);
    var f := FillHead(b, o);
    FillHeadTrade(b, o);
    var q := f.trade.quantity;
    var b1 := ReduceHead(b, side, q);
    ReduceHeadShape(b, side, q);
    ReduceHeadValid(b, side, q);
    var levels1 := Levels(b1, side);
    var id := levels[0].queue[0];
    var l := levels1[0];
    assert LevelValid(l, side, b1.orders);
    var maker1 := b1.orders[id];
    assert Levels(f.book, side) == SideRemove(levels1, maker1);
    FindLevelIs(levels1, l.price, 0);
    assert Without(l.queue, id) == l.queue[1..];
    assert Levels(f.book, side) == levels1[0 := l.RemoveOrder(maker1)];
    assert Opposite(o.side) == (if o.side == Buy then Sell else Buy);
  }

  lemma CombinePrepend(trades: seq<Trade>, filled: seq<Order>, f: Fill, r: MatchResult)
    ensures Combine(trades, filled, Prepend(f, r)) ==
            Combine(trades + [f.trade], filled + (if f.maker.quantity == 0 then [f.maker] else []), r)
  {
    assert trades + ([f.trade] + r.trades) == trades + [f.trade] + r.trades;
    var m := if f.maker.quantity == 0 then [f.maker] else [];
    assert filled + (m + r.filled) == filled + m + r.filled;
  }

  /** Everything one pass of the engine's level loop needs about the fill it makes. */
  lemma LevelStep(b: BookState, o: Order, trades: seq<Trade>, filled: seq<Order>)
    requires WellFormed(b) && o.quantity > 0 && PriceCondition(b, o)
    ensures OppositeLevels(b, o) != [] && OppositeLevels(b, o)[0].queue != []
    ensures var f := FillHead(b, o);
      var level := OppositeLevels(b, o)[0];
      && WellFormed(f.book) && f.taker.side == o.side
      && Combine(trades + [f.trade], filled + (if f.maker.quantity == 0 then [f.maker] else []), MatchLoop(f.book, f.taker))
         == Combine(trades, filled, MatchLoop(b, o))
      && |f.book.orders| + (if f.taker.quantity > 0 then 1 else 0) < |b.orders| + 1
      && (|level.queue| > 1 && f.maker.quantity == 0 && f.taker.quantity > 0 ==>
            && OppositeLevels(f.book, f.taker) != []
            && OppositeLevels(f.book, f.taker)[0].queue[0] == level.queue[1]
            && PriceCondition(f.book, f.taker))
  {
    var f := FillHead(b, o);
    MatchLoopStep(b, o);
    FillHeadTrade(b, o);
    FillHeadProgress(b, o);
    CombinePrepend(trades, filled, f, MatchLoop(f.book, f.taker));
    if |OppositeLevels(b, o)[0].queue| > 1 && f.maker.quantity == 0 && f.taker.quantity > 0 {
      FillHeadNext(b, o);
      assert OppositeLevels(f.book, f.taker) == OppositeLevels(f.book, o);
    }
  }

  /** Each fill shrinks the index or finishes the taker. */
  lemma FillHeadProgress(b: BookState, o: Order)
    requires WellFormed(b) && OppositeLevels(b, o) != [] && o.quantity > 0
    ensures var f := FillHead(b, o);
      |f.book.orders| + (if f.taker.quantity > 0 then 1 else 0) < |b.orders| + 1
  {
    FillHeadTrade(b, o);
    FillHeadBook(b, o);
  }

  class MatchingEngine {
    const orderBook: OrderBook
    var tradeIdCounter: int

    constructor (orderBook: OrderBook)
      ensures this.orderBook == orderBook && tradeIdCounter == 0
    {
      this.orderBook := orderBook;
      tradeIdCounter := 0;
    }

    /** Trade ids count up from 1. */
    method GenerateTradeId() returns (id: int)
      modifies this
      ensures tradeIdCounter == old(tradeIdCounter) + 1 && id == tradeIdCounter
    {
      tradeIdCounter := tradeIdCounter + 1;
      id := tradeIdCounter;
    }

    /**
      * The body of the inner loop of match_order: trades the taker against
      * the head order of the best opposite level.
      */
    method FillHeadOrder(o: Order, side: OrderSide, makerId: int) returns (trade: Trade, maker: Order, taker: Order)
      requires orderBook.Valid() && side == Opposite(o.side)
      requires Levels(orderBook.State(), side) != [] && makerId == Levels(orderBook.State(), side)[0].queue[0]
      modifies orderBook
      ensures Fill(trade, maker, orderBook.State(), taker) == FillHead(old(orderBook.State()), o)
      ensures orderBook.Valid()
    {
      ghost var b := orderBook.State();
      var level := if side == Buy then orderBook.bids[0] else orderBook.asks[0];
      assert LevelValid(level, side, orderBook.orders);
      assert Belongs(level.queue[0], level.price, side, orderBook.orders);
      maker := orderBook.orders[makerId];
      var tradeQuantity := Min(o.quantity, maker.quantity);
      FillHeadIs(b, o, tradeQuantity);
      ReduceHeadInPlace(side, tradeQuantity);
      trade := Trade(makerId, o.orderId, level.price, tradeQuantity, o.timestamp);
      taker := o.(quantity := o.quantity - tradeQuantity);
      maker := maker.(quantity := maker.quantity - tradeQuantity);
      if maker.quantity == 0 {
        var _ := orderBook.CancelOrder(makerId);
      }
    }

    /** Takes `q` off the head order of the first level on `side` and off that level's volume, in place. */
    method ReduceHeadInPlace(side: OrderSide, q: int)
      requires orderBook.Valid() && Levels(orderBook.State(), side) != []
      modifies orderBook
      ensures orderBook.State() == ReduceHead(old(orderBook.State()), side, q)
      ensures orderBook.Valid()
    {
      ghost var b := orderBook.State();
      ReduceHeadParts(b, side, q);
      var levels := if side == Buy then orderBook.bids else orderBook.asks;
      var makerId := levels[0].queue[0];
      var maker := orderBook.orders[makerId];
      var newLevels := levels[0 := levels[0].(totalVolume := levels[0].totalVolume - q)];
      var newOrders := orderBook.orders[makerId := maker.(quantity := maker.quantity - q)];
      if side == Buy {
        orderBook.bids := newLevels;
      } else {
        orderBook.asks := newLevels;
      }
      orderBook.orders := newOrders;
    }

    /**
      * The inner loop of match_order: fills against the orders of the best
      * opposite level, from its head in arrival order, until the level is
      * used up or the taker is done.
      */
    method MatchLevel(o: Order, side: OrderSide, trades: seq<Trade>, filled: seq<Order>)
      returns (taker: Order, trades': seq<Trade>, filled': seq<Order>)
      requires orderBook.Valid() && side == Opposite(o.side)
      requires o.quantity > 0 && PriceCondition(orderBook.State(), o)
      modifies orderBook
      ensures orderBook.Valid() && taker.side == o.side
      ensures Combine(trades', filled', MatchLoop(orderBook.State(), taker)) ==
              Combine(trades, filled, MatchLoop(old(orderBook.State()), o))
      ensures |orderBook.orders| + (if taker.quantity > 0 then 1 else 0) < |old(orderBook.orders)| + 1
    {
      ghost var b0 := orderBook.State();
      MatchLoopStep(b0, o);
      taker, trades', filled' := o, trades, filled;
      var bestLevel := (if side == Buy then orderBook.bids else orderBook.asks)[0];
      assert LevelValid(bestLevel, side, orderBook.orders);
      var current: Option<int> := Some(bestLevel.queue[0]);
      ghost var stepped := false;
      while current.Some? && taker.quantity > 0
        invariant orderBook.Valid()
        invariant Combine(trades', filled', MatchLoop(orderBook.State(), taker)) ==
                  Combine(trades, filled, MatchLoop(b0, o))
        invariant current.Some? && taker.quantity > 0 ==>
          && OppositeLevels(orderBook.State(), taker) != []
          && current.value == OppositeLevels(orderBook.State(), taker)[0].queue[0]
          && PriceCondition(orderBook.State(), taker)
        invariant taker.side == o.side
        invariant |orderBook.orders| + (if taker.quantity > 0 then 1 else 0) <= |b0.orders| + (if stepped then 0 else 1)
        invariant !stepped ==> current.Some? && taker == o
        decreases |orderBook.orders| + (if taker.quantity > 0 then 1 else 0)
      {
        LevelStep(orderBook.State(), taker, trades', filled');
        var level := (if side == Buy then orderBook.bids else orderBook.asks)[0];
        var next := if |level.queue| > 1 then Some(level.queue[1]) else None;
        var trade, maker;
        trade, maker, taker := FillHeadOrder(taker, side, current.value);
        trades' := trades' + [trade];
        if maker.quantity == 0 {
          filled' := filled' + [maker];
        }
        current := next;
        stepped := true;
      }
    }

    /**
      * match_order: takes the best opposite level by level while the taker
      * has quantity left and its price condition holds; returns the trades,
      * the makers filled in full and the taker as left by matching, and
      * rests a limit remainder on the book.
      */
    method MatchOrder(incoming: Order) returns (trades: seq<Trade>, filled: seq<Order>, taker: Order)
      requires orderBook.Valid() && incoming.orderId !in orderBook.orders
      requires incoming.orderType.Limit? ==> incoming.price.Some?
      modifies orderBook
      ensures MatchResult(trades, filled, orderBook.State(), taker) == Match(old(orderBook.State()), incoming)
      ensures orderBook.Valid()
    {
      ghost var b0 := orderBook.State();
      var o := incoming;
      trades, filled := [], [];
      var side := Opposite(o.side);
      var priceCondition := PriceCondition(orderBook.State(), o);
      while o.quantity > 0 && priceCondition
        invariant orderBook.Valid()
        invariant priceCondition == PriceCondition(orderBook.State(), o)
        invariant o.side == incoming.side
        invariant Combine(trades, filled, MatchLoop(orderBook.State(), o)) == MatchLoop(b0, incoming)
        decreases |orderBook.orders| + (if o.quantity > 0 then 1 else 0)
      {
        o, trades, filled := MatchLevel(o, side, trades, filled);
        priceCondition := PriceCondition(orderBook.State(), o);
      }
      assert MatchLoop(orderBook.State(), o) == MatchResult([], [], orderBook.State(), o);
      MatchLoopValid(b0, incoming);
      MatchLoopTaker(b0, incoming);
      if o.quantity > 0 && o.orderType.Limit? {
        var _ := orderBook.AddOrder(o);
      }
      taker := o;
    }
  }
}
