/** The baseline engine: a price map of lists per side and an index of where
    each order rests. A list iterator is modelled by the order it designates:
    erasing it removes that order from its list. */
module StlEngine {
  import opened Types
  import opened Book
  import opened Queues
  import opened Runs
  import opened Levels
  import opened Index

  class StlOrderBook {
    var bids: Levels
    var asks: Levels
    var orderIndex: map<OrderId, Location>

    function SideLevels(side: Side): Levels
      reads this
    {
      if side.Buy? then bids else asks
    }

    ghost predicate Consistent(side: Side)
      reads this
    {
      && Agree(side, SideLevels(side), orderIndex)
      && Agree(Opposite(side), SideLevels(Opposite(side)), orderIndex)
    }

    ghost predicate Valid()
      reads this
    {
      Consistent(Buy) && NoEmptyQueue(bids) && NoEmptyQueue(asks) && WellFormed(View())
    }

    /** The book this engine represents. */
    ghost function View(): Book
      reads this
    {
      Book(Flatten(Buy, bids), Flatten(Sell, asks))
    }

    lemma IndexMatchesView(id: OrderId)
      requires Consistent(Buy)
      ensures id in orderIndex <==> id in BookIds(View())
    {
      IndexedOnSide(Buy, bids, orderIndex, id);
      IndexedOnSide(Sell, asks, orderIndex, id);
    }

    constructor ()
      ensures Valid() && View() == EMPTY
    {
      bids, asks, orderIndex := map[], map[], map[];
    }

    method PutLevels(side: Side, levels: Levels)
      modifies this
      ensures SideLevels(side) == levels && SideLevels(Opposite(side)) == old(SideLevels(Opposite(side)))
      ensures orderIndex == old(orderIndex)
    {
      if side.Buy? { bids := levels; } else { asks := levels; }
    }

    /** One turn of the inner loop of both matching functions: the front order of
        the best level of `side` is hit. */
    method HitMaker(side: Side, p: Price, incoming: Order, outTrades: seq<Trade>)
      returns (taker: Order, trades: seq<Trade>)
      requires Consistent(side) && p in SideLevels(side) && p == Best(side, SideLevels(side).Keys)
      requires SideLevels(side)[p] != [] && incoming.remainingQuantity > 0
      requires Crosses(incoming, p) && incoming.side == Opposite(side)
      modifies this
      ensures Consistent(side) && SideLevels(Opposite(side)) == old(SideLevels(Opposite(side)))
      ensures SideLevels(side).Keys == old(SideLevels(side)).Keys
      ensures SideLevels(side) - {p} == old(SideLevels(side)) - {p}
      ensures Resume(trades, Greedy(taker, Flatten(side, SideLevels(side))))
           == Resume(outTrades, Greedy(incoming, Flatten(side, old(SideLevels(side)))))
      ensures taker == incoming.(remainingQuantity := taker.remainingQuantity)
      ensures orderIndex.Keys <= old(orderIndex).Keys
      ensures |SideLevels(side)[p]| < |old(SideLevels(side)[p])| || taker.remainingQuantity == 0
      ensures |SideLevels(side)[p]| <= |old(SideLevels(side)[p])|
    {
      var levels: Levels := SideLevels(side);
      var maker: Order := levels[p][0];
      var behind := levels[p][1..];
      var quantity := MinQuantity(incoming.remainingQuantity, maker.remainingQuantity);
      trades := outTrades + [Trade(maker.orderId, incoming.orderId, maker.price, quantity, incoming.timestamp,
                                   Opposite(side))];
      maker := maker.(remainingQuantity := maker.remainingQuantity - quantity);
      taker := incoming.(remainingQuantity := incoming.remainingQuantity - quantity);
      if maker.remainingQuantity == 0 {
        PopKeepsAgreement(side, levels, orderIndex, p);
        OtherSideKeepsAgreement(Opposite(side), SideLevels(Opposite(side)), orderIndex, maker.orderId);
        orderIndex := orderIndex - {maker.orderId};
      } else {
        TrimKeepsAgreement(side, levels, orderIndex, p, maker.remainingQuantity);
        behind := [maker] + behind;
      }
      assert Agree(side, levels[p := behind], orderIndex);
      HitFront(side, levels, p, incoming, quantity, outTrades, behind);
      UpdateOnly(levels, p, behind);
      PutLevels(side, levels[p := behind]);
    }

    /** The inner loop, at the best level of `side`. */
    method FillLevel(side: Side, p: Price, incoming: Order, outTrades: seq<Trade>)
      returns (taker: Order, trades: seq<Trade>)
      requires Consistent(side) && p in SideLevels(side) && p == Best(side, SideLevels(side).Keys)
      requires Crosses(incoming, p) && incoming.side == Opposite(side)
      modifies this
      ensures Consistent(side) && SideLevels(Opposite(side)) == old(SideLevels(Opposite(side)))
      ensures SideLevels(side).Keys == old(SideLevels(side)).Keys
      ensures SideLevels(side) - {p} == old(SideLevels(side)) - {p}
      ensures Resume(trades, Greedy(taker, Flatten(side, SideLevels(side))))
           == Resume(outTrades, Greedy(incoming, Flatten(side, old(SideLevels(side)))))
      ensures taker.remainingQuantity == 0 || SideLevels(side)[p] == []
      ensures taker == incoming.(remainingQuantity := taker.remainingQuantity)
      ensures orderIndex.Keys <= old(orderIndex).Keys
    {
      taker, trades := incoming, outTrades;
      ghost var levels := SideLevels(side);
      ghost var goal := Resume(outTrades, Greedy(incoming, Flatten(side, levels)));
      while SideLevels(side)[p] != [] && taker.remainingQuantity > 0
        invariant Consistent(side) && SideLevels(Opposite(side)) == old(SideLevels(Opposite(side)))
        invariant SideLevels(side).Keys == levels.Keys && SideLevels(side) - {p} == levels - {p}
        invariant Resume(trades, Greedy(taker, Flatten(side, SideLevels(side)))) == goal
        invariant taker == incoming.(remainingQuantity := taker.remainingQuantity)
        invariant orderIndex.Keys <= old(orderIndex).Keys
        decreases |SideLevels(side)[p]|, taker.remainingQuantity
      {
        taker, trades := HitMaker(side, p, taker, trades);
      }
    }

    method EraseIfEmpty(side: Side, p: Price)
      requires p in SideLevels(side)
      modifies this
      ensures SideLevels(side) == Pruned(old(SideLevels(side)), p)
      ensures SideLevels(Opposite(side)) == old(SideLevels(Opposite(side))) && orderIndex == old(orderIndex)
    {
      if SideLevels(side)[p] == [] {
        PutLevels(side, SideLevels(side) - {p});
      }
    }

    /** One turn of the outer loop: the best level of `side` is worked on, and
        erased if that empties it. */
    method FillBest(side: Side, p: Price, incoming: Order, outTrades: seq<Trade>)
      returns (taker: Order, trades: seq<Trade>)
      requires Consistent(side) && NoEmptyQueue(SideLevels(side)) && SideLevels(side) != map[]
      requires p == Best(side, SideLevels(side).Keys) && Crosses(incoming, p) && incoming.side == Opposite(side)
      modifies this
      ensures Consistent(side) && NoEmptyQueue(SideLevels(side))
      ensures SideLevels(Opposite(side)) == old(SideLevels(Opposite(side)))
      ensures Resume(trades, Greedy(taker, Flatten(side, SideLevels(side))))
           == Resume(outTrades, Greedy(incoming, Flatten(side, old(SideLevels(side)))))
      ensures taker == incoming.(remainingQuantity := taker.remainingQuantity)
      ensures orderIndex.Keys <= old(orderIndex).Keys
      ensures |SideLevels(side)| < |old(SideLevels(side))|
              || (|SideLevels(side)| == |old(SideLevels(side))| && taker.remainingQuantity == 0)
    {
      taker, trades := FillLevel(side, p, incoming, outTrades);
      PrunedKeepsAgreement(side, SideLevels(side), orderIndex, p);
      PrunedHasNoEmptyQueue(SideLevels(side), p);
      SameCount(SideLevels(side), old(SideLevels(side)));
      EraseIfEmpty(side, p);
    }

    method MatchBuy(incoming: Order, outTrades: seq<Trade>) returns (taker: Order, trades: seq<Trade>)
      requires Consistent(Sell) && NoEmptyQueue(asks) && incoming.side.Buy?
      modifies this
      ensures Consistent(Sell) && NoEmptyQueue(asks) && bids == old(bids)
      ensures orderIndex.Keys <= old(orderIndex).Keys
      ensures Resume(outTrades, Greedy(incoming, old(Flatten(Sell, asks)))) == Fill(trades, Flatten(Sell, asks), taker)
    {
      taker, trades := incoming, outTrades;
      ghost var goal := Resume(outTrades, Greedy(incoming, Flatten(Sell, asks)));
      while asks != map[] && taker.remainingQuantity > 0
        invariant Consistent(Sell) && NoEmptyQueue(asks) && bids == old(bids)
        invariant Resume(trades, Greedy(taker, Flatten(Sell, asks))) == goal
        invariant taker == incoming.(remainingQuantity := taker.remainingQuantity)
        invariant orderIndex.Keys <= old(orderIndex).Keys
        decreases |asks|, taker.remainingQuantity
      {
        var bestAsk := Best(Sell, asks.Keys);
        if taker.orderType.Limit? && taker.price < bestAsk {
          break;
        }
        taker, trades := FillBest(Sell, bestAsk, taker, trades);
      }
      MatchingStops(Sell, asks, taker, trades, goal);
    }

    method MatchSell(incoming: Order, outTrades: seq<Trade>) returns (taker: Order, trades: seq<Trade>)
      requires Consistent(Buy) && NoEmptyQueue(bids) && incoming.side.Sell?
      modifies this
      ensures Consistent(Buy) && NoEmptyQueue(bids) && asks == old(asks)
      ensures orderIndex.Keys <= old(orderIndex).Keys
      ensures Resume(outTrades, Greedy(incoming, old(Flatten(Buy, bids)))) == Fill(trades, Flatten(Buy, bids), taker)
    {
      taker, trades := incoming, outTrades;
      ghost var goal := Resume(outTrades, Greedy(incoming, Flatten(Buy, bids)));
      while bids != map[] && taker.remainingQuantity > 0
        invariant Consistent(Buy) && NoEmptyQueue(bids) && asks == old(asks)
        invariant Resume(trades, Greedy(taker, Flatten(Buy, bids))) == goal
        invariant taker == incoming.(remainingQuantity := taker.remainingQuantity)
        invariant orderIndex.Keys <= old(orderIndex).Keys
        decreases |bids|, taker.remainingQuantity
      {
        var bestBid := Best(Buy, bids.Keys);
        if taker.orderType.Limit? && taker.price > bestBid {
          break;
        }
        taker, trades := FillBest(Buy, bestBid, taker, trades);
      }
      MatchingStops(Buy, bids, taker, trades, goal);
    }

    /** The leftover of a limit order joins the queue at its price. */
    method Rest(order: Order)
      requires Consistent(Buy) && order.orderId !in orderIndex
      requires NoEmptyQueue(bids) && NoEmptyQueue(asks)
      modifies this
      ensures Consistent(Buy) && NoEmptyQueue(bids) && NoEmptyQueue(asks)
      ensures View() == old(View()).With(order.side, Insert(old(View()).Queue(order.side), order))
    {
      var side := order.side;
      var levels: Levels := SideLevels(side);
      AppendKeepsAgreement(side, levels, orderIndex, order);
      AppendElsewhereKeepsAgreement(Opposite(side), SideLevels(Opposite(side)), orderIndex, order);
      FlattenInsert(side, levels, order);
      PutLevels(side, levels[order.price := QueueAt(levels, order.price) + [order]]);
      orderIndex := orderIndex[order.orderId := Location(side, order.price)];
    }

    /** The dispatch on the incoming order's side. */
    method Match(incoming: Order, outTrades: seq<Trade>) returns (taker: Order, trades: seq<Trade>)
      requires Consistent(Buy) && NoEmptyQueue(bids) && NoEmptyQueue(asks)
      modifies this
      ensures Consistent(Buy) && NoEmptyQueue(bids) && NoEmptyQueue(asks)
      ensures orderIndex.Keys <= old(orderIndex).Keys
      ensures var f := Greedy(incoming, old(View()).Queue(Opposite(incoming.side)));
              && View() == old(View()).With(Opposite(incoming.side), f.rest)
              && taker == f.taker && trades == outTrades + f.trades
    {
      if incoming.side.Buy? {
        taker, trades := MatchBuy(incoming, outTrades);
      } else {
        taker, trades := MatchSell(incoming, outTrades);
      }
    }

    method SubmitOrder(incoming: Order, outTrades: seq<Trade>) returns (ok: bool, trades: seq<Trade>)
      requires Valid()
      modifies this
      ensures Valid()
      ensures var r := Submit(old(View()), incoming);
              View() == r.book && ok == r.ok && trades == outTrades + r.trades
    {
      IndexMatchesView(incoming.orderId);
      if incoming.initialQuantity == 0 {
        return false, outTrades;
      }
      var order := incoming;
      if order.remainingQuantity == 0 {
        order := order.(remainingQuantity := order.initialQuantity);
      }
      if order.orderType.Limit? && order.price == 0 {
        return false, outTrades;
      }
      if order.orderId in orderIndex {
        return false, outTrades;
      }
      SubmitKeepsWellFormed(View(), incoming);
      GreedyConserves(order, View().Queue(Opposite(order.side)));
      order, trades := Match(order, outTrades);
      if order.remainingQuantity > 0 && order.orderType.Limit? {
        Rest(order);
      }
      ok := true;
    }

    method CancelOrder(id: OrderId) returns (ok: bool)
      requires Valid()
      modifies this
      ensures Valid()
      ensures var r := Cancel(old(View()), id); View() == r.book && ok == r.ok
    {
      IndexMatchesView(id);
      CancelKeepsWellFormed(View(), id);
      if id !in orderIndex {
        RemoveAbsent(View().bids, id);
        RemoveAbsent(View().asks, id);
        return false;
      }
      EraseOrder(id);
      ok := true;
    }

    /** The list at the price loses the order, and the map an emptied list. */
    static method EraseFrom(side: Side, levels: Levels, price: Price, id: OrderId, ghost index: map<OrderId, Location>)
      returns (levels': Levels)
      requires Agree(side, levels, index) && NoEmptyQueue(levels) && id in index && index[id] == Location(side, price)
      ensures Agree(side, levels', index - {id}) && NoEmptyQueue(levels')
      ensures Flatten(side, levels') == Remove(Flatten(side, levels), id)
    {
      EraseKeepsAgreement(side, levels, index, id);
      EraseFlattens(side, levels, index, id);
      levels' := levels;
      if price in levels {
        levels' := levels[price := Remove(levels[price], id)];
        PrunedKeepsAgreement(side, levels', index - {id}, price);
        PrunedHasNoEmptyQueue(levels', price);
        if levels'[price] == [] {
          levels' := levels' - {price};
        }
      }
    }

    method EraseOrder(id: OrderId)
      requires Consistent(Buy) && NoEmptyQueue(bids) && NoEmptyQueue(asks) && id in orderIndex
      modifies this
      ensures Consistent(Buy) && NoEmptyQueue(bids) && NoEmptyQueue(asks)
      ensures View() == Book(Remove(old(View()).bids, id), Remove(old(View()).asks, id))
    {
      var location := orderIndex[id];
      var side := location.side;
      ghost var others: Levels := SideLevels(Opposite(side));
      OtherSideKeepsAgreement(Opposite(side), others, orderIndex, id);
      IndexedOnSide(Opposite(side), others, orderIndex, id);
      RemoveAbsent(Flatten(Opposite(side), others), id);
      var levels := EraseFrom(side, SideLevels(side), location.price, id, orderIndex);
      PutLevels(side, levels);
      orderIndex := orderIndex - {id};
    }

    method Clear()
      modifies this
      ensures Valid() && View() == EMPTY
    {
      bids, asks, orderIndex := map[], map[], map[];
    }

    // ------------------------------------------------------------ observers

    method GetOrder(id: OrderId) returns (found: Option<Order>)
      requires Valid()
      ensures found == Lookup(View(), id)
    {
      IndexMatchesView(id);
      if id !in orderIndex {
        RemoveAbsent(View().bids, id);
        RemoveAbsent(View().asks, id);
        return None;
      }
      var location := orderIndex[id];
      FoundWhereIndexed(location.side, SideLevels(location.side), orderIndex, id);
      if location.side.Sell? { IndexedOnSide(Buy, bids, orderIndex, id); }
      found := Find(SideLevels(location.side)[location.price], id);
    }

    method BestBid() returns (price: Option<Price>)
      requires Valid()
      ensures price == TopPrice(View().bids)
    {
      TopOfLevels(Buy, bids);
      price := if bids == map[] then None else Some(Best(Buy, bids.Keys));
    }

    method BestAsk() returns (price: Option<Price>)
      requires Valid()
      ensures price == TopPrice(View().asks)
    {
      TopOfLevels(Sell, asks);
      price := if asks == map[] then None else Some(Best(Sell, asks.Keys));
    }

    method Census() returns (orders: nat, bidLevels: nat, askLevels: nat)
      requires Valid()
      ensures orders == |BookIds(View())|
      ensures bidLevels == |Prices(View().bids)| && askLevels == |Prices(View().asks)|
    {
      TopOfLevels(Buy, bids);
      TopOfLevels(Sell, asks);
      assert orderIndex.Keys == BookIds(View()) by {
        forall id: OrderId ensures id in orderIndex <==> id in BookIds(View()) { IndexMatchesView(id); }
      }
      orders, bidLevels, askLevels := |orderIndex.Keys|, |bids.Keys|, |asks.Keys|;
    }

    /** The queue at the price is summed up, in 32 bits. */
    method VolumeAtPrice(side: Side, p: Price) returns (volume: Quantity)
      requires Valid()
      ensures volume == Wrap32(Volume(AtPrice(View().Queue(side), p)))
    {
      var levels: Levels := SideLevels(side);
      FlattenAtPrice(side, levels, p);
      volume := SumOf(if p in levels then levels[p] else []);
    }
  }

  method SumOf(queue: seq<Order>) returns (total: Quantity)
    ensures total == Wrap32(Volume(queue))
  {
    total := 0;
    for i := 0 to |queue|
      invariant total == Wrap32(Volume(queue[..i]))
    {
      VolumeStep(queue, i);
      WrapAdds(Volume(queue[..i]), queue[i].remainingQuantity);
      total := Wrap32(total + queue[i].remainingQuantity);
    }
    assert queue[..|queue|] == queue;
  }

  lemma WrapAdds(a: nat, b: nat)
    ensures Wrap32(Wrap32(a) + b) == Wrap32(a + b)
  {
  }
}
