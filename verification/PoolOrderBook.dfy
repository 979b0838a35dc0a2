/** The optimised engine: one growable array of nodes threaded into a free list
    and one list per price level, with an index from order id to slot. */
module PoolEngine {
  import opened Types
  import opened Book
  import opened Queues
  import opened Runs
  import opened Levels
  import opened PoolShape
  import opened PoolNodes
  import opened PoolAnatomy

  class PoolOrderBook {
    var nodes: seq<OrderNode>
    var freeHead: Slot
    var orderIndex: map<OrderId, Slot>
    var bids: map<Price, PriceLevel>
    var asks: map<Price, PriceLevel>
    ghost var anatomy: Anatomy

    ghost predicate Sane()
      reads this
    {
      Assembled(Pool(nodes, freeHead, orderIndex), bids, asks, anatomy)
    }

    ghost predicate Valid()
      reads this
    {
      Sane() && WellFormed(View())
    }

    /** The book this engine represents. */
    ghost function View(): Book
      reads this
    {
      anatomy.View()
    }

    constructor (initialCapacity: nat)
      requires initialCapacity <= INVALID
      ensures Valid() && View() == EMPTY && |nodes| == initialCapacity && anatomy == Blank(initialCapacity)
    {
      var nodes' := Thread(seq(initialCapacity, _ => DEFAULT_NODE), 0);
      BlankIsAssembled(nodes');
      nodes, freeHead, orderIndex := nodes', if initialCapacity > 0 then 0 else INVALID, map[];
      bids, asks, anatomy := map[], map[], Blank(initialCapacity);
    }

    method Commit(pool: Pool, bids': map<Price, PriceLevel>, asks': map<Price, PriceLevel>, ghost a: Anatomy)
      requires Assembled(pool, bids', asks', a) && WellFormed(a.View())
      modifies this
      ensures Valid() && Pool(nodes, freeHead, orderIndex) == pool && anatomy == a && View() == a.View()
    {
      nodes, freeHead, orderIndex := pool.nodes, pool.freeHead, pool.index;
      bids, asks, anatomy := bids', asks', a;
      assert Pool(nodes, freeHead, orderIndex) == pool;
    }

    method SubmitOrder(incoming: Order, outTrades: seq<Trade>) returns (ok: bool, trades: seq<Trade>)
      requires Valid() && Room(Submit(View(), incoming).book, |nodes|)
      modifies this
      ensures Valid()
      ensures var r := Submit(old(View()), incoming);
              View() == r.book && ok == r.ok && trades == outTrades + r.trades
      ensures Became(old(anatomy), |old(nodes)|, SubmitOp(incoming), anatomy, |nodes|)
      ensures TookFirst(old(anatomy), old(Pool(nodes, freeHead, orderIndex)), incoming, anatomy,
                        Pool(nodes, freeHead, orderIndex))
    {
      ghost var a := anatomy;
      var pool := Pool(nodes, freeHead, orderIndex);
      IndexedIds(pool, bids, asks, a);
      if !Accepts(a.View(), incoming) {
        EveryPriceItsLevel(pool, bids, asks, a);
        SubmitRejected(a, pool, incoming, outTrades);
      }
      if incoming.initialQuantity == 0 {
        return false, outTrades;
      }
      var order := incoming;
      if order.remainingQuantity == 0 {
        order := order.(remainingQuantity := order.initialQuantity);
      }
      if order.orderType.Limit? && order.price == 0 {
        return false, outTrades;
      }
      if order.orderId in pool.index {
        return false, outTrades;
      }
      SubmitKeepsWellFormed(a.View(), incoming);
      var pool', bids', asks';
      ghost var a';
      pool', bids', asks', a', order, trades := Match(pool, bids, asks, a, order, outTrades);
      SubmitMatched(pool, pool', bids', asks', a, incoming, a', order, outTrades, trades);
      if order.remainingQuantity > 0 && order.orderType.Limit? {
        ghost var pool1, bids1, asks1, a1 := pool', bids', asks', a';
        pool', bids', asks', a' := Rest(pool', bids', asks', a', order);
        SubmitRests(pool, a, incoming, pool1, bids1, asks1, a1, order, outTrades, trades, pool', bids', asks', a');
      } else {
        SubmitEnds(pool, bids, asks, a, incoming, pool', bids', asks', a', order, outTrades, trades);
      }
      Commit(pool', bids', asks', a');
      ok := true;
    }

    method CancelOrder(id: OrderId) returns (ok: bool)
      requires Valid()
      modifies this
      ensures Valid()
      ensures var r := Cancel(old(View()), id); View() == r.book && ok == r.ok
      ensures Became(old(anatomy), |old(nodes)|, CancelOp(id), anatomy, |nodes|)
      ensures if ok then Cancelled(old(anatomy), old(Pool(nodes, freeHead, orderIndex)), id, anatomy,
                                   Pool(nodes, freeHead, orderIndex))
              else anatomy == old(anatomy) && nodes == old(nodes) && orderIndex == old(orderIndex)
    {
      var pool := Pool(nodes, freeHead, orderIndex);
      IndexedIds(pool, bids, asks, anatomy);
      CancelKeepsWellFormed(anatomy.View(), id);
      if id !in pool.index {
        EveryPriceItsLevel(pool, bids, asks, anatomy);
        CancelMissed(anatomy, |nodes|, id);
        return false;
      }
      var pool', bids', asks';
      ghost var a';
      pool', bids', asks', a' := Erase(pool, bids, asks, anatomy, id);
      IndexedIds(pool', bids', asks', a');
      CancelBecame(anatomy, pool, id, a', pool');
      Commit(pool', bids', asks', a');
      ok := true;
    }

    /** All slots go back to the free list, in index order. */
    method Clear()
      requires Valid()
      modifies this
      ensures Valid() && View() == EMPTY && |nodes| == |old(nodes)| <= INVALID && anatomy == Blank(|nodes|)
      ensures Became(old(anatomy), |old(nodes)|, ClearOp, anatomy, |nodes|)
    {
      var nodes' := Thread(nodes, 0);
      BlankIsAssembled(nodes');
      BlankBecame(anatomy, |nodes|);
      Commit(Pool(nodes', if |nodes| > 0 then 0 else INVALID, map[]), map[], map[], Blank(|nodes|));
    }

    // ------------------------------------------------------------ observers

    method GetOrder(id: OrderId) returns (found: Option<Order>)
      requires Valid()
      ensures found == Lookup(View(), id)
    {
      ghost var pool := Pool(nodes, freeHead, orderIndex);
      IndexedIds(pool, bids, asks, anatomy);
      if id !in orderIndex {
        RemoveAbsent(View().bids, id);
        RemoveAbsent(View().asks, id);
        return None;
      }
      IndexFinds(pool, bids, asks, anatomy, id);
      found := Some(nodes[orderIndex[id]].order);
    }

    method BestBid() returns (price: Option<Price>)
      requires Valid()
      ensures price == TopPrice(View().bids)
    {
      TopIsBest(Buy, Pool(nodes, freeHead, orderIndex), bids, ShapeOf(anatomy, Buy));
      price := if bids == map[] then None else Some(Best(Buy, bids.Keys));
    }

    method BestAsk() returns (price: Option<Price>)
      requires Valid()
      ensures price == TopPrice(View().asks)
    {
      TopIsBest(Sell, Pool(nodes, freeHead, orderIndex), asks, ShapeOf(anatomy, Sell));
      price := if asks == map[] then None else Some(Best(Sell, asks.Keys));
    }

    method Census() returns (orders: nat, bidLevels: nat, askLevels: nat)
      requires Valid()
      ensures orders == |BookIds(View())|
      ensures bidLevels == |Prices(View().bids)| && askLevels == |Prices(View().asks)|
    {
      IndexedIds(Pool(nodes, freeHead, orderIndex), bids, asks, anatomy);
      TopIsBest(Buy, Pool(nodes, freeHead, orderIndex), bids, ShapeOf(anatomy, Buy));
      TopIsBest(Sell, Pool(nodes, freeHead, orderIndex), asks, ShapeOf(anatomy, Sell));
      orders, bidLevels, askLevels := |orderIndex.Keys|, |bids.Keys|, |asks.Keys|;
    }

    /** The cached volume is right up to what was traded against the level. */
    method VolumeAtPrice(side: Side, p: Price) returns (volume: Quantity)
      requires Valid()
      ensures volume == Cached(AtPrice(View().Queue(side), p), anatomy.Count(side, p))
    {
      if side.Buy? {
        CachedVolume(Buy, Pool(nodes, freeHead, orderIndex), bids, ShapeOf(anatomy, Buy), p);
        return if p in bids then bids[p].totalVolume else 0;
      } else {
        CachedVolume(Sell, Pool(nodes, freeHead, orderIndex), asks, ShapeOf(anatomy, Sell), p);
        return if p in asks then asks[p].totalVolume else 0;
      }
    }
  }
}
