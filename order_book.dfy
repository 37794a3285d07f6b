/**
  * The limit order book (core/order_book.py).
  *
  * Each side is a sequence of price levels sorted by key (bids under the
  * negated price, so the best bid comes first; asks under the price). A level
  * keeps the ids of its resting orders in arrival order, which stands for the
  * doubly-linked queue of the source; the orders themselves live in the
  * id-to-order index.
  */
module OrderBook {
  import opened Orders

  /* ---------------------------------------------------------------------- */
  /* Queues of order ids                                                     */
  /* ---------------------------------------------------------------------- */

  /** The queue with the first occurrence of `id` unlinked. */
  function Without(q: seq<int>, id: int): seq<int> {
    if q == [] then []
    else if q[0] == id then q[1..]
    else [q[0]] + Without(q[1..], id)
  }

  predicate NoDup(q: seq<int>) {
    forall i, j :: 0 <= i < j < |q| ==> q[i] != q[j]
  }

  /** Total quantity of the orders whose ids are in `q`. */
  function SumQty(q: seq<int>, orders: map<int, Order>): int {
    if q == [] then 0
    else (if q[0] in orders then orders[q[0]].quantity else 0) + SumQty(q[1..], orders)
  }

  /** Unlinking the order at position `i` leaves the others in their order. */
  lemma {:induction false} WithoutAt(q: seq<int>, i: int)
    requires NoDup(q) && 0 <= i < |q|
    ensures Without(q, q[i]) == q[..i] + q[i + 1..]
  {
    if i > 0 {
      assert q[0] != q[i];
      WithoutAt(q[1..], i - 1);
      assert q[1..][i - 1] == q[i];
      assert q[1..][..i - 1] == q[1..i];
      assert q[1..][i..] == q[i + 1..];
      assert [q[0]] + q[1..i] == q[..i];
    }
  }

  lemma {:induction false} WithoutAbsent(q: seq<int>, id: int)
    requires id !in q
    ensures Without(q, id) == q
  {
    if q != [] {
      WithoutAbsent(q[1..], id);
    }
  }

  lemma {:induction false} WithoutMembers(q: seq<int>, id: int)
    requires NoDup(q)
    ensures NoDup(Without(q, id))
    ensures forall x :: x in Without(q, id) <==> x in q && x != id
    ensures id in q ==> |Without(q, id)| == |q| - 1
  {
    if q != [] {
      if q[0] == id {
        assert forall x :: x in q[1..] ==> x != id;
      } else {
        WithoutMembers(q[1..], id);
        var r := Without(q[1..], id);
        assert Without(q, id) == [q[0]] + r;
        assert q[0] !in r;
        forall i, j | 0 <= i < j < |[q[0]] + r| ensures ([q[0]] + r)[i] != ([q[0]] + r)[j] {
          if i > 0 {
            assert ([q[0]] + r)[i] == r[i - 1];
          }
        }
      }
    }
  }

  lemma {:induction false} SumQtyAppend(q: seq<int>, id: int, orders: map<int, Order>)
    ensures SumQty(q + [id], orders) == SumQty(q, orders) + (if id in orders then orders[id].quantity else 0)
  {
    if q == [] {
      assert q + [id] == [id];
    } else {
      assert (q + [id])[1..] == q[1..] + [id];
      SumQtyAppend(q[1..], id, orders);
    }
  }

  /** SumQty only depends on the quantities of the orders listed in `q`. */
  lemma {:induction false} SumQtyFrame(q: seq<int>, orders: map<int, Order>, orders': map<int, Order>)
    requires forall i :: 0 <= i < |q| ==> SameQuantity(q[i], orders, orders')
    ensures SumQty(q, orders') == SumQty(q, orders)
  {
    if q != [] {
      assert SameQuantity(q[0], orders, orders');
      SumQtyFrame(q[1..], orders, orders');
    }
  }

  /** `id` is absent from both indexes, or present in both with one quantity. */
  predicate SameQuantity(id: int, orders: map<int, Order>, orders': map<int, Order>) {
    (id in orders <==> id in orders') && (id in orders ==> orders[id].quantity == orders'[id].quantity)
  }

  lemma {:induction false} SumQtyUpdate(q: seq<int>, orders: map<int, Order>, id: int, o: Order)
    requires NoDup(q) && id in q && id in orders
    ensures SumQty(q, orders[id := o]) == SumQty(q, orders) - orders[id].quantity + o.quantity
  {
    if q[0] == id {
      assert id !in q[1..];
      SumQtyFrame(q[1..], orders, orders[id := o]);
    } else {
      SumQtyUpdate(q[1..], orders, id, o);
    }
  }

  lemma {:induction false} SumQtyWithout(q: seq<int>, orders: map<int, Order>, id: int)
    requires NoDup(q) && id in q
    ensures SumQty(Without(q, id), orders) == SumQty(q, orders) - (if id in orders then orders[id].quantity else 0)
  {
    if q[0] != id {
      SumQtyWithout(q[1..], orders, id);
    }
  }

  /* ---------------------------------------------------------------------- */
  /* Price levels                                                            */
  /* ---------------------------------------------------------------------- */

  /**
    * One price level: the ids of its orders in arrival order, with the
    * cached total volume and order count the source keeps beside the queue.
    */
  datatype Limit = Limit(price: real, queue: seq<int>, totalVolume: int, orderCount: int)
  {
    /** Links the order in at the tail of the queue. */
    function AddOrder(order: Order): Limit {
      this.(queue := queue + [order.orderId],
            totalVolume := totalVolume + order.quantity,
            orderCount := orderCount + 1)
    }

    /** Unlinks the order from the queue. */
    function RemoveOrder(order: Order): Limit {
      this.(queue := Without(queue, order.orderId),
            totalVolume := totalVolume - order.quantity,
            orderCount := orderCount - 1)
    }
  }

  function NewLimit(price: real): Limit {
    Limit.Limit(price, [], 0, 0)
  }

  /** `id` is indexed under its own id, on `side`, at `price`. */
  predicate Belongs(id: int, price: real, side: OrderSide, orders: map<int, Order>) {
    && id in orders
    && orders[id].orderId == id
    && orders[id].side == side
    && orders[id].price == Some(price)
  }

  /**
    * The level's count is its queue length, its volume is the sum of its
    * orders' quantities, and it holds each order once, at its own price.
    */
  predicate LevelConsistent(l: Limit, side: OrderSide, orders: map<int, Order>) {
    && l.orderCount == |l.queue|
    && l.totalVolume == SumQty(l.queue, orders)
    && NoDup(l.queue)
    && forall i :: 0 <= i < |l.queue| ==> Belongs(l.queue[i], l.price, side, orders)
  }

  /** A level in the book is consistent and never empty. */
  predicate LevelValid(l: Limit, side: OrderSide, orders: map<int, Order>) {
    |l.queue| > 0 && LevelConsistent(l, side, orders)
  }

  /* ---------------------------------------------------------------------- */
  /* Book sides                                                              */
  /* ---------------------------------------------------------------------- */

  /** Sort key of a level: bids use the negated price so that the best bid comes first. */
  function Key(side: OrderSide, price: real): real {
    if side == Buy then -price else price
  }

  predicate Sorted(levels: seq<Limit>, side: OrderSide) {
    forall i, j :: 0 <= i < j < |levels| ==> Key(side, levels[i].price) < Key(side, levels[j].price)
  }

  predicate SideValid(levels: seq<Limit>, side: OrderSide, orders: map<int, Order>) {
    && Sorted(levels, side)
    && forall i :: 0 <= i < |levels| ==> LevelValid(levels[i], side, orders)
  }

  /** Position of the level at `price`, or |levels| when there is none. */
  function FindLevel(levels: seq<Limit>, price: real): (k: nat)
    ensures k <= |levels|
    ensures k < |levels| ==> levels[k].price == price
    ensures forall j :: 0 <= j < k ==> levels[j].price != price
  {
    if levels == [] then 0
    else if levels[0].price == price then 0
    else 1 + FindLevel(levels[1..], price)
  }

  /** Where a level at `price` goes so that the keys stay in order. */
  function InsertionPoint(levels: seq<Limit>, side: OrderSide, price: real): (k: nat)
    ensures k <= |levels|
    ensures forall j :: 0 <= j < k ==> Key(side, levels[j].price) < Key(side, price)
    ensures k < |levels| ==> Key(side, price) <= Key(side, levels[k].price)
  {
    if levels == [] || Key(side, price) <= Key(side, levels[0].price) then 0
    else 1 + InsertionPoint(levels[1..], side, price)
  }

  function Insert(levels: seq<Limit>, i: nat, l: Limit): seq<Limit>
    requires i <= |levels|
  {
    levels[..i] + [l] + levels[i..]
  }

  /** The queue at `price`: the abstract view of a side, price by price. */
  function QueueAt(levels: seq<Limit>, price: real): seq<int> {
    var k := FindLevel(levels, price);
    if k < |levels| then levels[k].queue else []
  }

  /* ---------------------------------------------------------------------- */
  /* The whole book as a value                                               */
  /* ---------------------------------------------------------------------- */

  datatype BookState = BookState(bids: seq<Limit>, asks: seq<Limit>, orders: map<int, Order>)

  function Levels(b: BookState, side: OrderSide): seq<Limit> {
    if side == Buy then b.bids else b.asks
  }

  function WithLevels(b: BookState, side: OrderSide, levels: seq<Limit>): BookState {
    if side == Buy then b.(bids := levels) else b.(asks := levels)
  }

  /** The indexed order `id` sits in the queue of its level. */
  predicate Resting(b: BookState, id: int) {
    && id in b.orders
    && b.orders[id].price.Some?
    && id in QueueAt(Levels(b, b.orders[id].side), b.orders[id].price.value)
  }

  /** The invariant the book keeps between operations. */
  predicate WellFormed(b: BookState) {
    && SideValid(b.bids, Buy, b.orders)
    && SideValid(b.asks, Sell, b.orders)
    && forall id :: id in b.orders ==> Resting(b, id)
  }

  const EmptyBook := BookState([], [], map[])

  /** The side with `order` linked in at the tail of its price level, a new level being inserted when missing. */
  function SideAdd(levels: seq<Limit>, order: Order): seq<Limit>
    requires order.price.Some?
  {
    var price := order.price.value;
    var k := FindLevel(levels, price);
    var i := if k < |levels| then k else InsertionPoint(levels, order.side, price);
    var withLevel := if k < |levels| then levels else Insert(levels, i, NewLimit(price));
    withLevel[i := withLevel[i].AddOrder(order)]
  }

  /** The side with `order` unlinked from its price level; a level left empty is deleted. */
  function SideRemove(levels: seq<Limit>, order: Order): seq<Limit>
    requires order.price.Some?
  {
    var k := FindLevel(levels, order.price.value);
    if k == |levels| then levels
    else
      var level := levels[k].RemoveOrder(order);
      if level.orderCount == 0 then levels[..k] + levels[k + 1..] else levels[k := level]
  }

  /** Adding a limit order whose id is not yet indexed. */
  function BookAdd(b: BookState, order: Order): BookState
    requires order.price.Some?
  {
    WithLevels(b, order.side, SideAdd(Levels(b, order.side), order))
      .(orders := b.orders[order.orderId := order])
  }

  /**
    * Cancelling by id: the order leaves the index and its level, and a level
    * left empty is deleted. The first component is the cancelled order.
    */
  function BookCancel(b: BookState, orderId: int): (Option<Order>, BookState) {
    if orderId !in b.orders then (None, b)
    else
      var order := b.orders[orderId];
      var b1 := b.(orders := b.orders - {orderId});
      if order.price.None? then (Some(order), b1)
      else (Some(order), WithLevels(b1, order.side, SideRemove(Levels(b, order.side), order)))
  }

  function BestBid(b: BookState): Option<real> {
    if b.bids == [] then None else Some(b.bids[0].price)
  }

  function BestAsk(b: BookState): Option<real> {
    if b.asks == [] then None else Some(b.asks[0].price)
  }

  /* ---------------------------------------------------------------------- */
  /* Lemmas: finding levels                                                  */
  /* ---------------------------------------------------------------------- */

  /** FindLevel's contract determines its result. */
  lemma FindLevelIs(levels: seq<Limit>, price: real, k: nat)
    requires k <= |levels|
    requires k < |levels| ==> levels[k].price == price
    requires forall j :: 0 <= j < k ==> levels[j].price != price
    ensures FindLevel(levels, price) == k
  {
  }

  lemma {:induction false} FindLevelConcat(s: seq<Limit>, t: seq<Limit>, price: real)
    ensures FindLevel(s + t, price) ==
            if FindLevel(s, price) < |s| then FindLevel(s, price) else |s| + FindLevel(t, price)
  {
    if s == [] {
      assert s + t == t;
    } else {
      assert (s + t)[0] == s[0];
      assert (s + t)[1..] == s[1..] + t;
      if s[0].price != price {
        FindLevelConcat(s[1..], t, price);
        assert FindLevel(s + t, price) == 1 + FindLevel(s[1..] + t, price);
        assert FindLevel(s, price) == 1 + FindLevel(s[1..], price);
      }
    }
  }

  /** In a sorted side, each price has at most one level. */
  lemma UniqueLevel(levels: seq<Limit>, side: OrderSide, j: int)
    requires Sorted(levels, side) && 0 <= j < |levels|
    ensures FindLevel(levels, levels[j].price) == j
  {
  }

  lemma QueueAtLevel(levels: seq<Limit>, side: OrderSide, j: int)
    requires Sorted(levels, side) && 0 <= j < |levels|
    ensures QueueAt(levels, levels[j].price) == levels[j].queue
  {
    UniqueLevel(levels, side, j);
  }

  /** A non-empty queue at `price` comes from the level at `price`. */
  lemma QueueAtSome(levels: seq<Limit>, price: real) returns (k: nat)
    requires QueueAt(levels, price) != []
    ensures k < |levels| && levels[k].price == price && QueueAt(levels, price) == levels[k].queue
  {
    k := FindLevel(levels, price);
  }

  /** Replacing a level by one at the same price changes only that price's queue. */
  lemma QueueAtUpdate(levels: seq<Limit>, side: OrderSide, k: int, l: Limit, price: real)
    requires Sorted(levels, side) && 0 <= k < |levels| && l.price == levels[k].price
    ensures Sorted(levels[k := l], side)
    ensures QueueAt(levels[k := l], price) == if price == l.price then l.queue else QueueAt(levels, price)
  {
    var levels' := levels[k := l];
    FindLevelIs(levels', price, FindLevel(levels, price));
    if price == l.price {
      UniqueLevel(levels, side, k);
    }
  }

  /** Two sides with the same prices and queues level by level have the same queue at every price. */
  lemma QueueAtSameShape(levels: seq<Limit>, levels': seq<Limit>, price: real)
    requires |levels'| == |levels|
    requires forall j :: 0 <= j < |levels| ==> levels'[j].queue == levels[j].queue && levels'[j].price == levels[j].price
    ensures QueueAt(levels', price) == QueueAt(levels, price)
  {
    FindLevelIs(levels', price, FindLevel(levels, price));
  }

  lemma QueueAtConcat(a: seq<Limit>, c: seq<Limit>, price: real)
    ensures QueueAt(a + c, price) == if FindLevel(a, price) < |a| then QueueAt(a, price) else QueueAt(c, price)
  {
    FindLevelConcat(a, c, price);
    var fa := FindLevel(a, price);
    var k := FindLevel(a + c, price);
    if fa < |a| {
      assert k == fa && (a + c)[fa] == a[fa];
    } else {
      var fc := FindLevel(c, price);
      assert k == |a| + fc;
      if fc < |c| {
        assert (a + c)[k] == c[fc];
      } else {
        assert k == |a + c|;
      }
    }
  }

  lemma QueueAtCons(l: Limit, c: seq<Limit>, price: real)
    ensures QueueAt([l] + c, price) == if price == l.price then l.queue else QueueAt(c, price)
  {
    assert ([l] + c)[0] == l;
    assert ([l] + c)[1..] == c;
    var fc := FindLevel(c, price);
    if price != l.price && fc < |c| {
      assert ([l] + c)[1 + fc] == c[fc];
    }
  }

  /** Inserting a level at a new price adds that price's queue and nothing else. */
  lemma QueueAtInsert(levels: seq<Limit>, i: nat, l: Limit, price: real)
    requires i <= |levels| && FindLevel(levels, l.price) == |levels|
    ensures QueueAt(Insert(levels, i, l), price) == if price == l.price then l.queue else QueueAt(levels, price)
  {
    var a, c := levels[..i], levels[i..];
    assert levels == a + c;
    assert Insert(levels, i, l) == a + ([l] + c);
    QueueAtConcat(a, c, price);
    QueueAtConcat(a, [l] + c, price);
    QueueAtCons(l, c, price);
    assert FindLevel(a, l.price) == |a| by {
      FindLevelConcat(a, c, l.price);
    }
  }

  lemma DeleteSorted(levels: seq<Limit>, side: OrderSide, k: int)
    requires Sorted(levels, side) && 0 <= k < |levels|
    ensures Sorted(levels[..k] + levels[k + 1..], side)
  {
    var rest := levels[..k] + levels[k + 1..];
    forall i, j | 0 <= i < j < |rest|
      ensures Key(side, rest[i].price) < Key(side, rest[j].price)
    {
      var i' := if i < k then i else i + 1;
      var j' := if j < k then j else j + 1;
      assert rest[i] == levels[i'] && rest[j] == levels[j'];
    }
  }

  /** Deleting a level removes that price's queue and nothing else. */
  lemma QueueAtDelete(levels: seq<Limit>, side: OrderSide, k: int, price: real)
    requires Sorted(levels, side) && 0 <= k < |levels|
    ensures Sorted(levels[..k] + levels[k + 1..], side)
    ensures QueueAt(levels[..k] + levels[k + 1..], price) == if price == levels[k].price then [] else QueueAt(levels, price)
  {
    DeleteSorted(levels, side, k);
    var a, c := levels[..k], levels[k + 1..];
    assert levels == a + ([levels[k]] + c);
    QueueAtConcat(a, c, price);
    QueueAtConcat(a, [levels[k]] + c, price);
    QueueAtCons(levels[k], c, price);
    if price == levels[k].price {
      DeletedPriceGone(levels, side, k);
    }
  }

  /** Once level k is deleted, no level is left at its price. */
  lemma DeletedPriceGone(levels: seq<Limit>, side: OrderSide, k: int)
    requires Sorted(levels, side) && 0 <= k < |levels|
    ensures FindLevel(levels[..k], levels[k].price) == k
    ensures FindLevel(levels[k + 1..], levels[k].price) == |levels| - k - 1
  {
    var a, c := levels[..k], levels[k + 1..];
    forall j | 0 <= j < |a| ensures a[j].price != levels[k].price {
      assert a[j] == levels[j];
    }
    forall j | 0 <= j < |c| ensures c[j].price != levels[k].price {
      assert c[j] == levels[k + 1 + j];
    }
    FindLevelIs(a, levels[k].price, |a|);
    FindLevelIs(c, levels[k].price, |c|);
  }

  /** A level placed between two sorted runs it separates keeps the keys in order. */
  lemma SortedJoin(a: seq<Limit>, l: Limit, c: seq<Limit>, side: OrderSide)
    requires Sorted(a, side) && Sorted(c, side)
    requires forall j :: 0 <= j < |a| ==> Key(side, a[j].price) < Key(side, l.price)
    requires forall j :: 0 <= j < |c| ==> Key(side, l.price) < Key(side, c[j].price)
    ensures Sorted(a + [l] + c, side)
  {
    var r := a + [l] + c;
    forall x, y | 0 <= x < y < |r|
      ensures Key(side, r[x].price) < Key(side, r[y].price)
    {
      if y < |a| {
        assert r[x] == a[x] && r[y] == a[y];
      } else if y == |a| {
        assert r[x] == a[x];
      } else if x < |a| {
        assert r[x] == a[x] && r[y] == c[y - |a| - 1];
      } else if x == |a| {
        assert r[y] == c[y - |a| - 1];
      } else {
        assert r[x] == c[x - |a| - 1] && r[y] == c[y - |a| - 1];
      }
    }
  }

  lemma InsertSorted(levels: seq<Limit>, side: OrderSide, l: Limit)
    requires Sorted(levels, side) && FindLevel(levels, l.price) == |levels|
    ensures Sorted(Insert(levels, InsertionPoint(levels, side, l.price), l), side)
  {
    var i := InsertionPoint(levels, side, l.price);
    var a, c := levels[..i], levels[i..];
    SortedSlice(levels, side, 0, i);
    SortedSlice(levels, side, i, |levels|);
    forall j | 0 <= j < |a| ensures Key(side, a[j].price) < Key(side, l.price) {
      assert a[j] == levels[j];
    }
    forall j | 0 <= j < |c| ensures Key(side, l.price) < Key(side, c[j].price) {
      assert levels[i].price != l.price;
      assert c[j] == levels[i + j];
    }
    SortedJoin(a, l, c, side);
  }

  lemma SortedSlice(levels: seq<Limit>, side: OrderSide, lo: int, hi: int)
    requires Sorted(levels, side) && 0 <= lo <= hi <= |levels|
    ensures Sorted(levels[lo..hi], side)
  {
    forall x, y | 0 <= x < y < hi - lo
      ensures Key(side, levels[lo..hi][x].price) < Key(side, levels[lo..hi][y].price)
    {
      assert levels[lo..hi][x] == levels[lo + x] && levels[lo..hi][y] == levels[lo + y];
    }
  }

  /* ---------------------------------------------------------------------- */
  /* Lemmas: levels                                                          */
  /* ---------------------------------------------------------------------- */

  lemma LevelExtend(l: Limit, side: OrderSide, orders: map<int, Order>, id: int, o: Order)
    requires LevelConsistent(l, side, orders) && id !in orders
    ensures LevelConsistent(l, side, orders[id := o])
  {
    SumQtyFrame(l.queue, orders, orders[id := o]);
  }

  lemma LevelShrink(l: Limit, side: OrderSide, orders: map<int, Order>, id: int)
    requires LevelConsistent(l, side, orders) && id !in l.queue
    ensures LevelConsistent(l, side, orders - {id})
  {
    SumQtyFrame(l.queue, orders, orders - {id});
  }

  /**
    * Limit.AddOrder links the order in at the tail, so the queue stays in
    * arrival order, and it keeps volume and count in step with the queue.
    */
  lemma LimitAddOrderValid(l: Limit, side: OrderSide, orders: map<int, Order>, o: Order)
    requires LevelConsistent(l, side, orders)
    requires o.orderId !in orders && o.side == side && o.price == Some(l.price)
    ensures LevelValid(l.AddOrder(o), side, orders[o.orderId := o])
    ensures l.AddOrder(o).queue == l.queue + [o.orderId]
    ensures l.AddOrder(o).totalVolume == l.totalVolume + o.quantity
  {
    var orders' := orders[o.orderId := o];
    var l' := l.AddOrder(o);
    SumQtyFrame(l.queue, orders, orders');
    SumQtyAppend(l.queue, o.orderId, orders');
    assert o.orderId !in l.queue;
    forall i | 0 <= i < |l'.queue| ensures Belongs(l'.queue[i], l'.price, side, orders') {
      if i < |l.queue| {
        assert l'.queue[i] == l.queue[i];
      }
    }
  }

  /**
    * Limit.RemoveOrder unlinks exactly that order: the others keep their
    * relative order, and volume and count drop by its quantity and by one.
    */
  lemma LimitRemoveOrderValid(l: Limit, side: OrderSide, orders: map<int, Order>, i: int)
    requires LevelValid(l, side, orders) && 0 <= i < |l.queue|
    ensures var l' := l.RemoveOrder(orders[l.queue[i]]);
      && LevelConsistent(l', side, orders - {l.queue[i]})
      && l'.queue == l.queue[..i] + l.queue[i + 1..]
      && l'.totalVolume == l.totalVolume - orders[l.queue[i]].quantity
  {
    var id := l.queue[i];
    var l' := l.RemoveOrder(orders[id]);
    assert Belongs(id, l.price, side, orders);
    WithoutAt(l.queue, i);
    WithoutMembers(l.queue, id);
    SumQtyWithout(l.queue, orders, id);
    SumQtyFrame(l'.queue, orders, orders - {id});
    forall j | 0 <= j < |l'.queue| ensures Belongs(l'.queue[j], l'.price, side, orders - {id}) {
      assert l'.queue[j] in l.queue;
      var j' :| 0 <= j' < |l.queue| && l.queue[j'] == l'.queue[j];
      assert Belongs(l.queue[j'], l.price, side, orders);
    }
  }

  lemma SideExtend(levels: seq<Limit>, side: OrderSide, orders: map<int, Order>, id: int, o: Order)
    requires SideValid(levels, side, orders) && id !in orders
    ensures SideValid(levels, side, orders[id := o])
  {
    forall i | 0 <= i < |levels| ensures LevelValid(levels[i], side, orders[id := o]) {
      LevelExtend(levels[i], side, orders, id, o);
    }
  }

  lemma SideShrink(levels: seq<Limit>, side: OrderSide, orders: map<int, Order>, id: int)
    requires SideValid(levels, side, orders)
    requires forall i :: 0 <= i < |levels| ==> id !in levels[i].queue
    ensures SideValid(levels, side, orders - {id})
  {
    forall i | 0 <= i < |levels| ensures LevelValid(levels[i], side, orders - {id}) {
      LevelShrink(levels[i], side, orders, id);
    }
  }

  /* ---------------------------------------------------------------------- */
  /* Lemmas: adding and cancelling                                           */
  /* ---------------------------------------------------------------------- */

  function Opposite(side: OrderSide): OrderSide {
    if side == Buy then Sell else Buy
  }

  /** SideAdd appends the id to the queue at the order's price and leaves every other queue alone. */
  lemma SideAddQueues(levels: seq<Limit>, order: Order, price: real)
    requires order.price.Some? && Sorted(levels, order.side)
    ensures Sorted(SideAdd(levels, order), order.side)
    ensures QueueAt(SideAdd(levels, order), price) ==
            if price == order.price.value then QueueAt(levels, price) + [order.orderId]
            else QueueAt(levels, price)
  {
    var p := order.price.value;
    var k := FindLevel(levels, p);
    if k < |levels| {
      QueueAtUpdate(levels, order.side, k, levels[k].AddOrder(order), price);
    } else {
      NewLevelQueues(levels, order, price);
    }
  }

  /** SideAddQueues when the order's price has no level yet. */
  lemma NewLevelQueues(levels: seq<Limit>, order: Order, price: real)
    requires order.price.Some? && Sorted(levels, order.side)
    requires FindLevel(levels, order.price.value) == |levels|
    ensures Sorted(SideAdd(levels, order), order.side)
    ensures QueueAt(SideAdd(levels, order), price) ==
            if price == order.price.value then QueueAt(levels, price) + [order.orderId]
            else QueueAt(levels, price)
  {
    var p := order.price.value;
    var i := InsertionPoint(levels, order.side, p);
    var withLevel := Insert(levels, i, NewLimit(p));
    InsertSorted(levels, order.side, NewLimit(p));
    QueueAtInsert(levels, i, NewLimit(p), price);
    assert withLevel[i] == NewLimit(p);
    QueueAtUpdate(withLevel, order.side, i, withLevel[i].AddOrder(order), price);
  }

  /** SideAdd keeps every level of the side valid once the order is indexed. */
  lemma SideAddValid(levels: seq<Limit>, orders: map<int, Order>, order: Order)
    requires order.price.Some? && order.orderId !in orders
    requires SideValid(levels, order.side, orders)
    ensures SideValid(SideAdd(levels, order), order.side, orders[order.orderId := order])
  {
    var side, id, p := order.side, order.orderId, order.price.value;
    var k := FindLevel(levels, p);
    var i := if k < |levels| then k else InsertionPoint(levels, side, p);
    var withLevel := if k < |levels| then levels else Insert(levels, i, NewLimit(p));
    var levels2 := SideAdd(levels, order);
    var orders2 := orders[id := order];
    SideAddQueues(levels, order, p);
    assert levels2 == withLevel[i := withLevel[i].AddOrder(order)];
    assert |withLevel| == if k < |levels| then |levels| else |levels| + 1;
    forall j | 0 <= j < |levels2| ensures LevelValid(levels2[j], side, orders2) {
      if j == i {
        if k == |levels| {
          assert withLevel[i] == NewLimit(p);
        }
        assert LevelConsistent(withLevel[i], side, orders);
        LimitAddOrderValid(withLevel[i], side, orders, order);
      } else {
        var j' := if k < |levels| || j < i then j else j - 1;
        assert levels2[j] == levels[j'];
        LevelExtend(levels[j'], side, orders, id, order);
      }
    }
  }

  /**
    * Adding an order appends its id to the queue at its price on its own
    * side and indexes it; every other queue and the other side stay as they
    * were.
    */
  lemma BookAddQueues(b: BookState, order: Order, side: OrderSide, price: real)
    requires order.price.Some? && Sorted(Levels(b, order.side), order.side)
    ensures BookAdd(b, order).orders == b.orders[order.orderId := order]
    ensures Levels(BookAdd(b, order), Opposite(order.side)) == Levels(b, Opposite(order.side))
    ensures QueueAt(Levels(BookAdd(b, order), side), price) ==
            if side == order.side && price == order.price.value
            then QueueAt(Levels(b, side), price) + [order.orderId]
            else QueueAt(Levels(b, side), price)
  {
    SideAddQueues(Levels(b, order.side), order, price);
  }

  /** Adding an order with a fresh id keeps the book well formed. */
  lemma BookAddValid(b: BookState, order: Order)
    requires WellFormed(b) && order.price.Some? && order.orderId !in b.orders
    ensures WellFormed(BookAdd(b, order))
  {
    var side, id := order.side, order.orderId;
    var orders2 := b.orders[id := order];
    var b2 := BookAdd(b, order);
    SideAddValid(Levels(b, side), b.orders, order);
    SideExtend(Levels(b, Opposite(side)), Opposite(side), b.orders, id, order);
    assert Levels(b2, side) == SideAdd(Levels(b, side), order);
    assert Levels(b2, Opposite(side)) == Levels(b, Opposite(side));
    assert SideValid(b2.bids, Buy, orders2) && SideValid(b2.asks, Sell, orders2);
    AddKeepsResting(b, order);
  }

  /** After an add, the new order and every order already there rest in their queues. */
  lemma AddKeepsResting(b: BookState, order: Order)
    requires WellFormed(b) && order.price.Some? && order.orderId !in b.orders
    ensures forall x :: x in BookAdd(b, order).orders ==> Resting(BookAdd(b, order), x)
  {
    var side := order.side;
    var b2 := BookAdd(b, order);
    assert Levels(b2, side) == SideAdd(Levels(b, side), order);
    assert Levels(b2, Opposite(side)) == Levels(b, Opposite(side));
    forall x | x in b2.orders ensures Resting(b2, x) {
      if x == order.orderId {
        SideAddQueues(Levels(b, side), order, order.price.value);
      } else {
        var o := b.orders[x];
        assert b2.orders[x] == o && Resting(b, x);
        if o.side == side {
          SideAddQueues(Levels(b, side), order, o.price.value);
        }
      }
    }
  }

  /** The only level holding `id` is the one at its own side and price. */
  lemma OnlyLevelOf(levels: seq<Limit>, side: OrderSide, orders: map<int, Order>, id: int, j: int)
    requires SideValid(levels, side, orders) && 0 <= j < |levels| && id in levels[j].queue
    ensures id in orders && orders[id].side == side && orders[id].price == Some(levels[j].price)
    ensures FindLevel(levels, levels[j].price) == j
  {
    assert LevelValid(levels[j], side, orders);
    var x :| 0 <= x < |levels[j].queue| && levels[j].queue[x] == id;
    assert Belongs(levels[j].queue[x], levels[j].price, side, orders);
    UniqueLevel(levels, side, j);
  }

  /** SideRemove unlinks the id from the queue at the order's price and leaves every other queue alone. */
  lemma SideRemoveQueues(levels: seq<Limit>, orders: map<int, Order>, order: Order, price: real)
    requires order.price.Some? && SideValid(levels, order.side, orders)
    requires order.orderId in QueueAt(levels, order.price.value)
    ensures Sorted(SideRemove(levels, order), order.side)
    ensures QueueAt(SideRemove(levels, order), price) ==
            if price == order.price.value then Without(QueueAt(levels, price), order.orderId)
            else QueueAt(levels, price)
  {
    var k := FindLevel(levels, order.price.value);
    if k < |levels| {
      var level := levels[k].RemoveOrder(order);
      assert LevelValid(levels[k], order.side, orders);
      WithoutMembers(levels[k].queue, order.orderId);
      if level.orderCount == 0 {
        QueueAtDelete(levels, order.side, k, price);
      } else {
        QueueAtUpdate(levels, order.side, k, level, price);
      }
    }
  }

  /** A side whose levels are valid holds no order of the other side. */
  lemma NotOnSide(levels: seq<Limit>, side: OrderSide, orders: map<int, Order>, id: int)
    requires SideValid(levels, side, orders) && id in orders && orders[id].side != side
    ensures forall j :: 0 <= j < |levels| ==> id !in levels[j].queue
  {
    forall j | 0 <= j < |levels| ensures id !in levels[j].queue {
      if id in levels[j].queue {
        OnlyLevelOf(levels, side, orders, id, j);
      }
    }
  }

  /** Only the level at an order's price holds it, so every other level survives its leaving the index. */
  lemma OtherLevelsShrink(levels: seq<Limit>, side: OrderSide, orders: map<int, Order>, id: int, k: int)
    requires SideValid(levels, side, orders) && 0 <= k < |levels|
    requires id in orders && orders[id].price == Some(levels[k].price)
    ensures forall j :: 0 <= j < |levels| && j != k ==> LevelValid(levels[j], side, orders - {id})
  {
    forall j | 0 <= j < |levels| && j != k ensures LevelValid(levels[j], side, orders - {id}) {
      if id in levels[j].queue {
        OnlyLevelOf(levels, side, orders, id, j);
        UniqueLevel(levels, side, k);
      }
      LevelShrink(levels[j], side, orders, id);
    }
  }

  /** Deleting level k from a side whose other levels are valid leaves only valid levels. */
  lemma DeleteLevelValid(levels: seq<Limit>, side: OrderSide, orders: map<int, Order>, k: int, rest: seq<Limit>)
    requires 0 <= k < |levels| && rest == levels[..k] + levels[k + 1..]
    requires forall j :: 0 <= j < |levels| && j != k ==> LevelValid(levels[j], side, orders)
    ensures forall j :: 0 <= j < |rest| ==> LevelValid(rest[j], side, orders)
  {
    forall j | 0 <= j < |rest| ensures LevelValid(rest[j], side, orders) {
      assert rest[j] == levels[if j < k then j else j + 1];
    }
  }

  /** Replacing level k by a valid level in a side whose other levels are valid leaves only valid levels. */
  lemma UpdateLevelValid(levels: seq<Limit>, side: OrderSide, orders: map<int, Order>, k: int, l: Limit, updated: seq<Limit>)
    requires 0 <= k < |levels| && updated == levels[k := l] && LevelValid(l, side, orders)
    requires forall j :: 0 <= j < |levels| && j != k ==> LevelValid(levels[j], side, orders)
    ensures forall j :: 0 <= j < |updated| ==> LevelValid(updated[j], side, orders)
  {
  }

  /** SideRemove keeps every level of the side valid once the order leaves the index. */
  lemma SideRemoveValid(levels: seq<Limit>, orders: map<int, Order>, id: int)
    requires id in orders && orders[id].price.Some?
    requires SideValid(levels, orders[id].side, orders)
    requires id in QueueAt(levels, orders[id].price.value)
    ensures SideValid(SideRemove(levels, orders[id]), orders[id].side, orders - {id})
  {
    var order := orders[id];
    var k := FindLevel(levels, order.price.value);
    UnlinkedLevel(levels, orders, id);
    SideRemoveQueues(levels, orders, order, order.price.value);
    OtherLevelsShrink(levels, order.side, orders, id, k);
    var level := levels[k].RemoveOrder(order);
    var removed := SideRemove(levels, order);
    if level.orderCount == 0 {
      DeleteLevelValid(levels, order.side, orders - {id}, k, removed);
    } else {
      UpdateLevelValid(levels, order.side, orders - {id}, k, level, removed);
    }
  }

  /** The level an order rests at stays consistent when the order is unlinked from it and leaves the index. */
  lemma UnlinkedLevel(levels: seq<Limit>, orders: map<int, Order>, id: int)
    requires id in orders && orders[id].price.Some?
    requires SideValid(levels, orders[id].side, orders)
    requires id in QueueAt(levels, orders[id].price.value)
    ensures var k := FindLevel(levels, orders[id].price.value);
      && k < |levels| && levels[k].price == orders[id].price.value
      && LevelConsistent(levels[k].RemoveOrder(orders[id]), orders[id].side, orders - {id})
  {
    var k := FindLevel(levels, orders[id].price.value);
    var x :| 0 <= x < |levels[k].queue| && levels[k].queue[x] == id;
    assert LevelValid(levels[k], orders[id].side, orders);
    LimitRemoveOrderValid(levels[k], orders[id].side, orders, x);
  }

  /**
    * Unlinks `order` from its level in `levels`, deleting the level when it
    * is left empty; a side without a level at the order's price is returned as is.
    */
  method UnlinkFromSide(levels: seq<Limit>, order: Order) returns (levels': seq<Limit>)
    requires order.price.Some?
    ensures levels' == SideRemove(levels, order)
  {
    var k := FindLevel(levels, order.price.value);
    levels' := levels;
    if k < |levels| {
      var level := levels[k].RemoveOrder(order);
      if level.orderCount == 0 {
        levels' := levels[..k] + levels[k + 1..];
      } else {
        levels' := levels[k := level];
      }
    }
  }

  /**
    * Cancelling an unknown id changes nothing and returns None. Cancelling a
    * resting order returns it, drops it from the index and unlinks it from
    * the queue at its price; every other queue and the other side are
    * untouched.
    */
  lemma BookCancelQueues(b: BookState, orderId: int, side: OrderSide, price: real)
    requires WellFormed(b)
    ensures orderId !in b.orders ==> BookCancel(b, orderId) == (None, b)
    ensures orderId in b.orders ==>
      var order := b.orders[orderId];
      var r := BookCancel(b, orderId);
      && r.0 == Some(order)
      && r.1.orders == b.orders - {orderId}
      && Levels(r.1, Opposite(order.side)) == Levels(b, Opposite(order.side))
      && QueueAt(Levels(r.1, side), price) ==
         if side == order.side && price == order.price.value
         then Without(QueueAt(Levels(b, side), price), orderId)
         else QueueAt(Levels(b, side), price)
  {
    if orderId in b.orders {
      var order := b.orders[orderId];
      assert Resting(b, orderId);
      SideRemoveQueues(Levels(b, order.side), b.orders, order, price);
    }
  }

  /** Cancelling keeps the book well formed; in particular no level is left empty. */
  lemma BookCancelValid(b: BookState, orderId: int)
    requires WellFormed(b)
    ensures WellFormed(BookCancel(b, orderId).1)
  {
    if orderId in b.orders {
      var order := b.orders[orderId];
      var side := order.side;
      var b2 := BookCancel(b, orderId).1;
      var orders2 := b.orders - {orderId};
      assert Resting(b, orderId);
      SideRemoveValid(Levels(b, side), b.orders, orderId);
      NotOnSide(Levels(b, Opposite(side)), Opposite(side), b.orders, orderId);
      SideShrink(Levels(b, Opposite(side)), Opposite(side), b.orders, orderId);
      assert Levels(b2, side) == SideRemove(Levels(b, side), order);
      assert Levels(b2, Opposite(side)) == Levels(b, Opposite(side));
      assert SideValid(b2.bids, Buy, orders2) && SideValid(b2.asks, Sell, orders2);
      CancelKeepsResting(b, orderId);
    }
  }

  /** Every order that stays after a cancel still rests in its queue. */
  lemma CancelKeepsResting(b: BookState, orderId: int)
    requires WellFormed(b) && orderId in b.orders
    ensures forall y :: y in BookCancel(b, orderId).1.orders ==> Resting(BookCancel(b, orderId).1, y)
  {
    var order := b.orders[orderId];
    var side := order.side;
    var b2 := BookCancel(b, orderId).1;
    assert Resting(b, orderId);
    assert Levels(b2, side) == SideRemove(Levels(b, side), order);
    assert Levels(b2, Opposite(side)) == Levels(b, Opposite(side));
    forall y | y in b2.orders ensures Resting(b2, y) {
      var o := b2.orders[y];
      assert Resting(b, y);
      SideRemoveQueues(Levels(b, side), b.orders, order, o.price.value);
      if o.side == side && o.price == order.price {
        var k := FindLevel(Levels(b, side), o.price.value);
        assert LevelValid(Levels(b, side)[k], side, b.orders);
        WithoutMembers(QueueAt(Levels(b, side), o.price.value), orderId);
      }
    }
  }

  /* ---------------------------------------------------------------------- */
  /* Lemmas: best prices and lookup                                          */
  /* ---------------------------------------------------------------------- */

  /** The first level of a side holds the best price among the side's resting orders. */
  lemma BestOfSide(b: BookState, side: OrderSide)
    requires WellFormed(b)
    ensures Levels(b, side) == [] <==> forall id :: id in b.orders ==> b.orders[id].side != side
    ensures Levels(b, side) != [] ==>
      && Belongs(Levels(b, side)[0].queue[0], Levels(b, side)[0].price, side, b.orders)
      && forall id :: id in b.orders && b.orders[id].side == side ==>
           Key(side, Levels(b, side)[0].price) <= Key(side, b.orders[id].price.value)
  {
    var levels := Levels(b, side);
    if levels != [] {
      assert LevelValid(levels[0], side, b.orders);
      assert Belongs(levels[0].queue[0], levels[0].price, side, b.orders);
    }
    forall id | id in b.orders && b.orders[id].side == side
      ensures levels != []
      ensures Key(side, levels[0].price) <= Key(side, b.orders[id].price.value)
    {
      assert Resting(b, id);
      var k := QueueAtSome(levels, b.orders[id].price.value);
      assert k == 0 || Key(side, levels[0].price) < Key(side, levels[k].price);
    }
  }

  /**
    * The best bid is None exactly when no buy order rests; otherwise it is
    * the price of the buy order at the head of the first level, and no
    * resting buy order is priced higher.
    */
  lemma BestBidIsHighest(b: BookState)
    requires WellFormed(b)
    ensures BestBid(b).None? <==> forall id :: id in b.orders ==> b.orders[id].side != Buy
    ensures BestBid(b).Some? ==>
      && b.bids[0].queue[0] in b.orders
      && b.orders[b.bids[0].queue[0]].side == Buy
      && b.orders[b.bids[0].queue[0]].price == BestBid(b)
    ensures forall id :: id in b.orders && b.orders[id].side == Buy ==>
      b.orders[id].price.value <= BestBid(b).value
  {
    BestOfSide(b, Buy);
  }

  /**
    * The best ask is None exactly when no sell order rests; otherwise it is
    * the price of the sell order at the head of the first level, and no
    * resting sell order is priced lower.
    */
  lemma BestAskIsLowest(b: BookState)
    requires WellFormed(b)
    ensures BestAsk(b).None? <==> forall id :: id in b.orders ==> b.orders[id].side != Sell
    ensures BestAsk(b).Some? ==>
      && b.asks[0].queue[0] in b.orders
      && b.orders[b.asks[0].queue[0]].side == Sell
      && b.orders[b.asks[0].queue[0]].price == BestAsk(b)
    ensures forall id :: id in b.orders && b.orders[id].side == Sell ==>
      BestAsk(b).value <= b.orders[id].price.value
  {
    BestOfSide(b, Sell);
  }

  /** Looking an order up by id. */
  function GetOrder(b: BookState, orderId: int): Option<Order> {
    if orderId in b.orders then Some(b.orders[orderId]) else None
  }

  /**
    * In a well-formed book an order found by id is resting: it sits in the
    * queue at its own price on its own side, and nowhere on the other side.
    */
  lemma GetOrderResting(b: BookState, orderId: int)
    requires WellFormed(b)
    ensures GetOrder(b, orderId).Some? <==> orderId in b.orders
    ensures GetOrder(b, orderId).Some? ==>
      var o := GetOrder(b, orderId).value;
      && o.orderId == orderId
      && o.price.Some?
      && orderId in QueueAt(Levels(b, o.side), o.price.value)
      && forall j :: 0 <= j < |Levels(b, Opposite(o.side))| ==> orderId !in Levels(b, Opposite(o.side))[j].queue
  {
    if orderId in b.orders {
      var o := b.orders[orderId];
      assert Resting(b, orderId);
      var k := QueueAtSome(Levels(b, o.side), o.price.value);
      assert LevelValid(Levels(b, o.side)[k], o.side, b.orders);
      var x :| 0 <= x < |Levels(b, o.side)[k].queue| && Levels(b, o.side)[k].queue[x] == orderId;
      assert Belongs(Levels(b, o.side)[k].queue[x], o.price.value, o.side, b.orders);
      NotOnSide(Levels(b, Opposite(o.side)), Opposite(o.side), b.orders, orderId);
    }
  }

  /* ---------------------------------------------------------------------- */
  /* The book object                                                         */
  /* ---------------------------------------------------------------------- */

  datatype AddOutcome = Added | DuplicateOrderId

  class OrderBook {
    var bids: seq<Limit>
    var asks: seq<Limit>
    var orders: map<int, Order>

    function State(): BookState
      reads this
    {
      BookState(bids, asks, orders)
    }

    predicate Valid()
      reads this
    {
      WellFormed(State())
    }

    constructor ()
      ensures State() == EmptyBook && Valid()
    {
      bids, asks, orders := [], [], map[];
    }

    /**
      * Adds a limit order. An id that is already indexed is refused and
      * leaves the book as it was.
      */
    method AddOrder(order: Order) returns (r: AddOutcome)
      requires Valid() && order.price.Some?
      modifies this
      ensures r == DuplicateOrderId <==> order.orderId in old(orders)
      ensures r == DuplicateOrderId ==> State() == old(State())
      ensures r == Added ==> State() == BookAdd(old(State()), order)
      ensures Valid()
    {
      if order.orderId in orders {
        return DuplicateOrderId;
      }
      ghost var b := State();
      var price := order.price.value;
      var levels := if order.side == Buy then bids else asks;
      var k := FindLevel(levels, price);
      if k == |levels| {
        k := InsertionPoint(levels, order.side, price);
        levels := Insert(levels, k, NewLimit(price));
      }
      levels := levels[k := levels[k].AddOrder(order)];
      if order.side == Buy {
        bids := levels;
      } else {
        asks := levels;
      }
      orders := orders[order.orderId := order];
      r := Added;
      assert State() == BookAdd(b, order);
      BookAddValid(b, order);
    }

    /** Cancels by id, returning the cancelled order, or None for an unknown id. */
    method CancelOrder(orderId: int) returns (r: Option<Order>)
      requires Valid()
      modifies this
      ensures (r, State()) == BookCancel(old(State()), orderId)
      ensures Valid()
    {
      ghost var b := State();
      if orderId !in orders {
        return None;
      }
      var order := orders[orderId];
      orders := orders - {orderId};
      r := Some(order);
      if order.price.Some? {
        if order.side == Buy {
          bids := UnlinkFromSide(bids, order);
        } else {
          asks := UnlinkFromSide(asks, order);
        }
      }
      BookCancelValid(b, orderId);
    }
  }
}
