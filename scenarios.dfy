/**
  * The example session of run_simulation.py, worked through the
  * specification: four limit orders build the book, a market buy of 10
  * sweeps the best ask and part of the next, and a cancellation removes a
  * bid. (The refusal of a buy at 111 against the 10% F&O band is
  * SebiCompliance.OutsideBandExample.)
  */
module Scenarios {
  import opened Orders
  import opened OrderBook
  import opened MatchingEngine

  const Bid1: Order := Order(1, 1, Buy, 10, OrderType.Limit, 1, Some(99.0), None)
  const Bid2: Order := Order(2, 2, Buy, 5, OrderType.Limit, 2, Some(98.0), None)
  const Ask3: Order := Order(3, 3, Sell, 8, OrderType.Limit, 3, Some(101.0), None)
  const Ask4: Order := Order(4, 4, Sell, 12, OrderType.Limit, 4, Some(102.0), None)
  const MarketBuy5: Order := Order(5, 5, Buy, 10, Market, 5, None, None)

  /** The book after the four limit orders, written out level by level. */
  const Built: BookState := BookState(
    [Limit.Limit(99.0, [1], 10, 1), Limit.Limit(98.0, [2], 5, 1)],
    [Limit.Limit(101.0, [3], 8, 1), Limit.Limit(102.0, [4], 12, 1)],
    map[1 := Bid1, 2 := Bid2, 3 := Ask3, 4 := Ask4])

  /** An order priced beyond every level of its side opens a new last level holding just that order. */
  lemma SideAddAtEnd(levels: seq<Limit>, order: Order)
    requires order.price.Some?
    requires forall j :: 0 <= j < |levels| ==> Key(order.side, levels[j].price) < Key(order.side, order.price.value)
    ensures SideAdd(levels, order) == levels + [Limit.Limit(order.price.value, [order.orderId], order.quantity, 1)]
  {
    var p := order.price.value;
    assert forall j :: 0 <= j < |levels| ==> levels[j].price != p;
    assert FindLevel(levels, p) == |levels|;
    assert InsertionPoint(levels, order.side, p) == |levels|;
    assert Insert(levels, |levels|, NewLimit(p)) == levels + [NewLimit(p)];
    assert NewLimit(p).AddOrder(order) == Limit.Limit(p, [order.orderId], order.quantity, 1);
  }

  const Bids1: seq<Limit> := [Limit.Limit(99.0, [1], 10, 1)]
  const Asks3: seq<Limit> := [Limit.Limit(101.0, [3], 8, 1)]

  /** The book after each of the first three orders. */
  const Book1: BookState := BookState(Bids1, [], map[1 := Bid1])
  const Book2: BookState := BookState(Built.bids, [], map[1 := Bid1, 2 := Bid2])
  const Book3: BookState := BookState(Built.bids, Asks3, map[1 := Bid1, 2 := Bid2, 3 := Ask3])

  lemma AddBid1()
    ensures BookAdd(EmptyBook, Bid1) == Book1 && WellFormed(Book1)
  {
    AddStep(EmptyBook, Bid1, Book1);
  }

  lemma AddBid2()
    requires WellFormed(Book1)
    ensures BookAdd(Book1, Bid2) == Book2 && WellFormed(Book2)
  {
    AddStep(Book1, Bid2, Book2);
  }

  lemma AddAsk3()
    requires WellFormed(Book2)
    ensures BookAdd(Book2, Ask3) == Book3 && WellFormed(Book3)
  {
    AddStep(Book2, Ask3, Book3);
  }

  lemma AddAsk4()
    requires WellFormed(Book3)
    ensures BookAdd(Book3, Ask4) == Built && WellFormed(Built)
  {
    AddStep(Book3, Ask4, Built);
  }

  /** Adding the four orders in turn to an empty book gives two levels a side, best prices first. */
  lemma BuildBook()
    ensures BookAdd(BookAdd(BookAdd(BookAdd(EmptyBook, Bid1), Bid2), Ask3), Ask4) == Built
    ensures WellFormed(Built) && BestBid(Built) == Some(99.0) && BestAsk(Built) == Some(101.0)
  {
    AddBid1();
    AddBid2();
    AddAsk3();
    AddAsk4();
  }

  /**
    * The same four orders submitted to the matching engine, one step per
    * line of the requires: none of them finds a price to trade at (the bids
    * meet an empty ask side, and 101 and 102 are above the best bid of 99),
    * so each only rests, and the book goes through Book1, Book2 and Book3 to
    * Built. (The books are parameters so that the solver does not try to
    * evaluate the matching on the literal books.)
    */
  lemma BuildBookByMatching(b: BookState, o: Order, next: BookState)
    requires || (b == EmptyBook && o == Bid1 && next == Book1)
             || (b == Book1 && o == Bid2 && next == Book2)
             || (b == Book2 && o == Ask3 && next == Book3)
             || (b == Book3 && o == Ask4 && next == Built)
    requires WellFormed(b)
    ensures Match(b, o).trades == [] && Match(b, o).book == next
  {
    AddBid1();
    AddBid2();
    AddAsk3();
    AddAsk4();
    assert BestAsk(b) == None || BestBid(b) == Some(99.0);
    MatchWithoutLiquidity(b, o);
  }

  /** One step of BuildBook: the order opens a new last level on its side and the book stays well formed. */
  lemma AddStep(b: BookState, order: Order, next: BookState)
    requires WellFormed(b) && order.price.Some? && order.orderId !in b.orders
    requires forall j :: 0 <= j < |Levels(b, order.side)| ==>
      Key(order.side, Levels(b, order.side)[j].price) < Key(order.side, order.price.value)
    requires next == WithLevels(b, order.side,
      Levels(b, order.side) + [Limit.Limit(order.price.value, [order.orderId], order.quantity, 1)])
      .(orders := b.orders[order.orderId := order])
    ensures BookAdd(b, order) == next && WellFormed(next)
  {
    SideAddAtEnd(Levels(b, order.side), order);
    BookAddValid(b, order);
  }

  /** The book after order 3 is filled in full and leaves. */
  const AfterFirstFill: BookState := BookState(Built.bids, [Limit.Limit(102.0, [4], 12, 1)], Reduced.orders - {3})

  /** The book after order 4 gives up 2 of its 12. */
  const AfterSecondFill: BookState := BookState(Built.bids, [Limit.Limit(102.0, [4], 10, 1)],
                                     AfterFirstFill.orders[4 := Ask4.(quantity := 10)])

  /** The first fill: 8 at 101 against order 3, which leaves the book; 2 remain to buy. */
  lemma FirstFill(b: BookState, o: Order)
    requires b == Built && o == MarketBuy5 && WellFormed(b)
    ensures OppositeLevels(b, o) != []
    ensures FillHead(b, o) ==
      Fill(Trade(3, 5, 101.0, 8, 5), Ask3.(quantity := 0), AfterFirstFill, MarketBuy5.(quantity := 2))
  {
    ReduceFirst();
    CancelFirst(Reduced);
  }

  /** Order 3 and the 101 level both drop by 8. */
  const Reduced: BookState := BookState(Built.bids, [Limit.Limit(101.0, [3], 0, 1), Limit.Limit(102.0, [4], 12, 1)],
                             Built.orders[3 := Ask3.(quantity := 0)])

  lemma ReduceFirst()
    requires WellFormed(Built)
    ensures ReduceHead(Built, Sell, 8) == Reduced
  {
  }

  /**
    * Order 3 leaves the book. (The book is a parameter equal to Reduced so
    * that the solver does not try to evaluate the cancellation on the
    * literal book.)
    */
  lemma CancelFirst(b: BookState)
    requires b == Reduced
    ensures BookCancel(b, 3).1 == AfterFirstFill
  {
    CancelUnfold(b, 3, Ask3.(quantity := 0));
    RemoveAsk3();
  }

  /** BookCancel of an indexed, priced order, unfolded. */
  lemma CancelUnfold(b: BookState, id: int, order: Order)
    requires id in b.orders && b.orders[id] == order && order.price.Some?
    ensures BookCancel(b, id).1 ==
      WithLevels(b.(orders := b.orders - {id}), order.side, SideRemove(Levels(b, order.side), order))
  {
  }

  lemma RemoveAsk3()
    ensures SideRemove(Reduced.asks, Ask3.(quantity := 0)) == AfterFirstFill.asks
  {
    SideRemoveOnlyAtHead(Reduced.asks, Ask3.(quantity := 0));
    assert Reduced.asks[1..] == AfterFirstFill.asks;
  }

  /** Removing the only order of the first level deletes that level. */
  lemma SideRemoveOnlyAtHead(levels: seq<Limit>, order: Order)
    requires order.price.Some? && levels != []
    requires levels[0].price == order.price.value && levels[0].queue == [order.orderId] && levels[0].orderCount == 1
    ensures SideRemove(levels, order) == levels[1..]
  {
    assert FindLevel(levels, order.price.value) == 0;
    assert Without([order.orderId], order.orderId) == [];
    assert levels[..0] + levels[1..] == levels[1..];
  }

  /** The second fill: 2 at 102 against order 4, which keeps 10; nothing remains to buy. */
  lemma SecondFill(b: BookState, o: Order)
    requires b == AfterFirstFill && o == MarketBuy5.(quantity := 2) && WellFormed(b)
    ensures OppositeLevels(b, o) != []
    ensures FillHead(b, o) ==
      Fill(Trade(4, 5, 102.0, 2, 5), Ask4.(quantity := 10), AfterSecondFill, MarketBuy5.(quantity := 0))
  {
    assert ReduceHead(b, Sell, 2) == AfterSecondFill;
  }

  /** From the second fill on: one trade with order 4 and the loop stops with nothing left to buy. */
  lemma LoopFromSecondFill(b: BookState, o: Order)
    requires b == AfterFirstFill && o == MarketBuy5.(quantity := 2) && WellFormed(b)
    ensures MatchLoop(b, o) ==
      MatchResult([Trade(4, 5, 102.0, 2, 5)], [], AfterSecondFill, MarketBuy5.(quantity := 0))
  {
    SecondFill(b, o);
    MatchLoopStep(b, o);
  }

  /**
    * The market buy of 10 trades 8 at 101 with order 3 and then 2 at 102
    * with order 4, which keeps 10. (The book and the order are parameters
    * equal to Built and MarketBuy5, for the reason given at CancelFirst.)
    */
  lemma MarketBuySweeps(b: BookState, o: Order)
    requires b == Built && o == MarketBuy5
    ensures WellFormed(b)
    ensures Match(b, o) ==
      MatchResult([Trade(3, 5, 101.0, 8, 5), Trade(4, 5, 102.0, 2, 5)], [Ask3.(quantity := 0)],
                  AfterSecondFill, MarketBuy5.(quantity := 0))
  {
    BuildBook();
    LoopFromFirstFill(b, o);
  }

  lemma LoopFromFirstFill(b: BookState, o: Order)
    requires b == Built && o == MarketBuy5 && WellFormed(b)
    ensures MatchLoop(b, o) ==
      MatchResult([Trade(3, 5, 101.0, 8, 5), Trade(4, 5, 102.0, 2, 5)], [Ask3.(quantity := 0)],
                  AfterSecondFill, MarketBuy5.(quantity := 0))
  {
    FirstFill(b, o);
    MatchLoopStep(b, o);
    LoopFromSecondFill(AfterFirstFill, o.(quantity := 2));
    var trades := [Trade(3, 5, 101.0, 8, 5)] + [Trade(4, 5, 102.0, 2, 5)];
    assert trades == [Trade(3, 5, 101.0, 8, 5), Trade(4, 5, 102.0, 2, 5)];
    var filled: seq<Order> := [Ask3.(quantity := 0)] + [];
    assert filled == [Ask3.(quantity := 0)];
  }

  /**
    * After the market buy, cancelling order 2 returns it and leaves the 99
    * level as the only bid; the ask side keeps order 4 with 10.
    */
  lemma CancelBid()
    ensures BookCancel(AfterSecondFill, 2) ==
      (Some(Bid2), BookState(Bids1, AfterSecondFill.asks, map[1 := Bid1, 4 := Ask4.(quantity := 10)]))
  {
    RemoveBid2();
    assert AfterSecondFill.orders - {2} == map[1 := Bid1, 4 := Ask4.(quantity := 10)];
  }

  lemma RemoveBid2()
    ensures SideRemove(Built.bids, Bid2) == Bids1
  {
    assert Without([2], 2) == [];
    assert FindLevel(Built.bids, 98.0) == 1;
  }
}
