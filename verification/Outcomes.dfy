/** What the operations of the book do, in prices and quantities alone: when an
    order is accepted, how much it trades and against whom, what of it rests, what a
    cancel takes away, and what the observers show. */
module Outcomes {
  import opened Types
  import opened Book
  import opened Matching
  import opened Queues
  import opened Runs

  ghost predicate Has(queue: seq<Order>, id: OrderId) {
    exists k :: 0 <= k < |queue| && queue[k].orderId == id
  }

  lemma HasId(queue: seq<Order>, id: OrderId)
    ensures Has(queue, id) <==> id in Ids(queue)
  {
    if id in Ids(queue) {
      var k := IdsIndex(queue, id);
    }
    forall k | 0 <= k < |queue| && queue[k].orderId == id ensures id in Ids(queue) { IdsAt(queue, k); }
  }

  // ------------------------------------------------------------ acceptance

  /** The quantity an order asks for: zero remaining means all of it. */
  function Wanted(order: Order): Quantity {
    if order.remainingQuantity == 0 then order.initialQuantity else order.remainingQuantity
  }

  /** An order is refused exactly for a zero quantity, a zero limit price or an id
      that rests, and then nothing changes. */
  lemma AcceptedExactlyWhen(b: Book, order: Order)
    ensures var r := Submit(b, order);
            && (r.ok <==> order.initialQuantity > 0 && (order.orderType.Limit? ==> order.price > 0)
                          && !Has(b.bids, order.orderId) && !Has(b.asks, order.orderId))
            && (!r.ok ==> r == Outcome(b, false, []))
  {
    HasId(b.bids, order.orderId);
    HasId(b.asks, order.orderId);
  }

  // -------------------------------------------------------------- quantity

  /** The resting quantity priced at `limit` or better for a taker of `side`. */
  function Offered(side: Side, limit: Price, queue: seq<Order>): nat {
    if queue == [] then 0
    else
      var good := if side.Buy? then queue[0].price <= limit else queue[0].price >= limit;
      (if good then queue[0].remainingQuantity else 0) + Offered(side, limit, queue[1..])
  }

  lemma {:induction false} NothingOffered(side: Side, limit: Price, queue: seq<Order>)
    requires forall k :: 0 <= k < |queue| ==> if side.Buy? then queue[k].price > limit else queue[k].price < limit
    ensures Offered(side, limit, queue) == 0
  {
    if queue != [] {
      NothingOffered(side, limit, queue[1..]);
    }
  }

  lemma {:induction false} LiquidityIsOffered(taker: Order, queue: seq<Order>)
    requires taker.orderType.Limit? && Sorted(Opposite(taker.side), queue)
    ensures Liquidity(taker, queue) == Offered(taker.side, taker.price, queue)
  {
    if queue != [] {
      if Crosses(taker, queue[0].price) {
        LiquidityIsOffered(taker, queue[1..]);
      } else {
        NothingOffered(taker.side, taker.price, queue);
      }
    }
  }

  lemma {:induction false} LiquidityIsVolume(taker: Order, queue: seq<Order>)
    requires taker.orderType.Market?
    ensures Liquidity(taker, queue) == Volume(queue)
  {
    if queue != [] {
      LiquidityIsVolume(taker, queue[1..]);
    }
  }

  /** The resting quantity an order may trade against: whatever its price field, all
      of it for a market order, and what is priced at its limit or better otherwise. */
  function Available(b: Book, order: Order): nat {
    var queue := if order.side.Buy? then b.asks else b.bids;
    if order.orderType.Market? then Volume(queue) else Offered(order.side, order.price, queue)
  }

  /** An accepted order trades as much as it asks for and may have. */
  lemma TradesAllItCan(b: Book, order: Order)
    requires WellFormed(b) && Submit(b, order).ok
    ensures Traded(Submit(b, order).trades) == Min(Wanted(order), Available(b, order))
  {
    var taker, queue := Effective(order), b.Queue(Opposite(order.side));
    GreedyConserves(taker, queue);
    GreedyIsFill(taker, queue);
    if order.orderType.Market? {
      LiquidityIsVolume(taker, queue);
    } else {
      LiquidityIsOffered(taker, queue);
    }
  }

  // ---------------------------------------------------------- trade by trade

  /** `p` is as good as `q` or better for a taker of `side`. */
  predicate AsGood(side: Side, p: Price, q: Price) {
    if side.Buy? then p <= q else p >= q
  }

  /** Trade number `i` is with the `i`th order of the opposite side, at that order's
      price, which no order further back improves on and which respects the limit;
      every order ahead of it is taken whole. The rest of the report is the
      incoming order's. */
  lemma TradeReport(b: Book, order: Order, i: nat)
    requires WellFormed(b) && i < |Submit(b, order).trades|
    ensures var trades, queue := Submit(b, order).trades, if order.side.Buy? then b.asks else b.bids;
            && |trades| <= |queue|
            && trades[i].makerOrderId == queue[i].orderId && trades[i].price == queue[i].price
            && trades[i].takerOrderId == order.orderId && trades[i].timestamp == order.timestamp
            && trades[i].aggressorSide == order.side
            && 0 < trades[i].quantity <= queue[i].remainingQuantity
            && (i < |trades| - 1 ==> trades[i].quantity == queue[i].remainingQuantity)
            && (order.orderType.Limit? ==> AsGood(order.side, trades[i].price, order.price))
            && forall j :: i < j < |queue| ==> AsGood(order.side, trades[i].price, queue[j].price)
  {
    var taker, queue := Effective(order), b.Queue(Opposite(order.side));
    GreedyIsFill(taker, queue);
    TradeNumber(taker, queue, i);
    assert Sorted(Opposite(order.side), queue);
  }

  // -------------------------------------------------------------- the book

  /** The two sides of the book after a submission, in terms of the match. */
  lemma SidesAfter(b: Book, order: Order)
    requires Submit(b, order).ok
    ensures var r, f := Submit(b, order), Greedy(Effective(order), b.Queue(Opposite(order.side)));
            && r.trades == f.trades && r.book.Queue(Opposite(order.side)) == f.rest
            && r.book.Queue(order.side)
               == if order.orderType.Limit? && f.taker.remainingQuantity > 0 then Insert(b.Queue(order.side), f.taker)
                  else b.Queue(order.side)
  {
  }

  /** `queue'` is what `trades` leave of `queue`: the orders behind the trades, and
      before them the last one hit if it was not taken whole. */
  ghost predicate LeftBy(queue: seq<Order>, trades: seq<Trade>, queue': seq<Order>) {
    var n := |trades|;
    && n <= |queue|
    && if n > 0 && trades[n - 1].quantity < queue[n - 1].remainingQuantity then
         var left := queue[n - 1].remainingQuantity - trades[n - 1].quantity;
         queue' == [queue[n - 1].(remainingQuantity := left)] + queue[n..]
       else queue' == queue[n..]
  }

  lemma MatchLeaves(taker: Order, queue: seq<Order>)
    requires Positive(queue)
    ensures LeftBy(queue, Greedy(taker, queue).trades, Greedy(taker, queue).rest)
  {
    GreedyIsFill(taker, queue);
    FillLeaves(taker, queue, Greedy(taker, queue));
  }

  lemma FillLeaves(taker: Order, queue: seq<Order>, f: Fill)
    requires TradesAreDue(taker, queue, f.trades) && RestIsDue(taker, queue, |f.trades|, f.rest)
    ensures LeftBy(queue, f.trades, f.rest)
  {
    var n := |f.trades|;
    if n > 0 {
      PrefixStep(queue, n - 1);
    }
  }

  /** On the opposite side the trades leave what they must. */
  lemma OppositeSide(b: Book, order: Order)
    requires WellFormed(b) && Submit(b, order).ok
    ensures var r := Submit(b, order);
            LeftBy(if order.side.Buy? then b.asks else b.bids, r.trades,
                   if order.side.Buy? then r.book.asks else r.book.bids)
  {
    SidesAfter(b, order);
    MatchLeaves(Effective(order), b.Queue(Opposite(order.side)));
  }

  /** `mine'` is `mine` with `order` behind every order priced as well or better and
      before all others. */
  ghost predicate Placed(mine: seq<Order>, order: Order, mine': seq<Order>) {
    exists n :: 0 <= n <= |mine|
      && mine' == mine[..n] + [order] + mine[n..]
      && (forall k :: 0 <= k < n ==> AsGood(Opposite(order.side), mine[k].price, order.price))
      && (forall k :: n <= k < |mine| ==> !AsGood(Opposite(order.side), mine[k].price, order.price))
  }

  lemma InsertPlaces(mine: seq<Order>, order: Order)
    requires Sorted(order.side, mine)
    ensures Placed(mine, order, Insert(mine, order))
  {
    InsertAt(mine, order);
    var n := Position(mine, order);
    assert forall k :: n < k < |mine| ==> !Better(order.side, mine[k].price, mine[n].price);
  }

  lemma MatchKeepsTerms(order: Order, queue: seq<Order>)
    ensures var f := Greedy(Effective(order), queue);
            && Traded(f.trades) <= Wanted(order)
            && f.taker == order.(remainingQuantity := Wanted(order) - Traded(f.trades))
  {
    GreedyConserves(Effective(order), queue);
  }

  /** The leftover of a limit order, if any, is placed on its own side; otherwise
      that side is as it was. */
  lemma OwnSide(b: Book, order: Order)
    requires WellFormed(b) && Submit(b, order).ok
    ensures var r := Submit(b, order);
            var mine, mine' := if order.side.Buy? then b.bids else b.asks,
                               if order.side.Buy? then r.book.bids else r.book.asks;
            if order.orderType.Limit? && Wanted(order) > Traded(r.trades) then
              Placed(mine, order.(remainingQuantity := Wanted(order) - Traded(r.trades)), mine')
            else mine' == mine
  {
    var left := Wanted(order) - Traded(Submit(b, order).trades);
    SidesAfter(b, order);
    MatchKeepsTerms(order, b.Queue(Opposite(order.side)));
    if order.orderType.Limit? && left > 0 {
      InsertPlaces(b.Queue(order.side), order.(remainingQuantity := left));
      assert Placed(b.Queue(order.side), order.(remainingQuantity := left), Submit(b, order).book.Queue(order.side));
    } else {
      assert Submit(b, order).book.Queue(order.side) == b.Queue(order.side);
    }
  }

  /** A cancel succeeds exactly for a resting id, takes that order out of its side
      and leaves everything else as it was. */
  lemma CancelMeans(b: Book, id: OrderId)
    requires WellFormed(b)
    ensures var r := Cancel(b, id);
            && r.trades == []
            && (r.ok <==> Has(b.bids, id) || Has(b.asks, id))
            && (!Has(b.bids, id) ==> r.book.bids == b.bids) && (!Has(b.asks, id) ==> r.book.asks == b.asks)
            && (forall k :: 0 <= k < |b.bids| && b.bids[k].orderId == id ==>
                  r.book.bids == b.bids[..k] + b.bids[k + 1..])
            && (forall k :: 0 <= k < |b.asks| && b.asks[k].orderId == id ==>
                  r.book.asks == b.asks[..k] + b.asks[k + 1..])
  {
    RemovedFrom(b.bids, id);
    RemovedFrom(b.asks, id);
  }

  lemma RemovedFrom(queue: seq<Order>, id: OrderId)
    requires Distinct(queue)
    ensures Has(queue, id) <==> id in Ids(queue)
    ensures !Has(queue, id) ==> Remove(queue, id) == queue
    ensures forall k :: 0 <= k < |queue| && queue[k].orderId == id ==> Remove(queue, id) == queue[..k] + queue[k + 1..]
  {
    HasId(queue, id);
    if id !in Ids(queue) {
      RemoveAbsent(queue, id);
    }
    forall k | 0 <= k < |queue| && queue[k].orderId == id ensures Remove(queue, id) == queue[..k] + queue[k + 1..] {
      RemoveAt(queue, k);
    }
  }

  // ------------------------------------------------------------- observers

  /** The book knows an order by an id exactly if that order rests under it. */
  lemma LookupMeans(b: Book, id: OrderId, order: Order)
    requires WellFormed(b)
    ensures Lookup(b, id) == Some(order) <==> order.orderId == id && (order in b.bids || order in b.asks)
    ensures Lookup(b, id) == None <==> !Has(b.bids, id) && !Has(b.asks, id)
  {
    FoundIn(b.bids, id, order);
    FoundIn(b.asks, id, order);
  }

  lemma FoundIn(queue: seq<Order>, id: OrderId, order: Order)
    requires Distinct(queue)
    ensures Has(queue, id) <==> id in Ids(queue)
    ensures Find(queue, id) == Some(order) <==> order.orderId == id && order in queue
    ensures Find(queue, id) == None <==> !Has(queue, id)
  {
    HasId(queue, id);
    if id in Ids(queue) {
      var k := IdsIndex(queue, id);
      RemoveAt(queue, k);
    } else {
      RemoveAbsent(queue, id);
    }
  }

  /** The top of a side is a price that occurs there and that none improves on: the
      highest bid, the lowest ask. */
  lemma TopMeans(b: Book, p: Price)
    requires WellFormed(b)
    ensures TopPrice(b.bids) == Some(p) <==>
            (exists k :: 0 <= k < |b.bids| && b.bids[k].price == p)
            && forall k :: 0 <= k < |b.bids| ==> b.bids[k].price <= p
    ensures TopPrice(b.asks) == Some(p) <==>
            (exists k :: 0 <= k < |b.asks| && b.asks[k].price == p)
            && forall k :: 0 <= k < |b.asks| ==> p <= b.asks[k].price
    ensures (TopPrice(b.bids) == None <==> b.bids == []) && (TopPrice(b.asks) == None <==> b.asks == [])
  {
  }
}
