/** One side of a book as both engines keep it: an ordered map from price to a
    first-in-first-out queue, flattened into one queue in priority order. */
module Levels {
  import opened Types
  import opened Book
  import opened Queues

  type Levels = map<Price, seq<Order>>

  // ------------------------------------------------------------ best price

  lemma BestExists(side: Side, prices: set<Price>)
    requires prices != {}
    ensures exists p :: p in prices && forall q :: q in prices ==> !Better(side, q, p)
    decreases |prices|
  {
    var p :| p in prices;
    var others := prices - {p};
    if others == {} {
      assert prices == {p};
    } else {
      BestExists(side, others);
      var best :| best in others && forall q :: q in others ==> !Better(side, q, best);
      var winner := if Better(side, p, best) then p else best;
      assert forall q :: q in prices ==> q == p || q in others;
      assert winner in prices && forall q :: q in prices ==> !Better(side, q, winner);
    }
  }

  /** First key of the price map: the highest bid or the lowest ask. */
  function Best(side: Side, prices: set<Price>): (p: Price)
    requires prices != {}
    ensures p in prices && forall q :: q in prices ==> !Better(side, q, p)
  {
    BestExists(side, prices);
    var p :| p in prices && forall q | q in prices :: !Better(side, q, p);
    p
  }

  // ------------------------------------------------------------ flattening

  /** All orders of the side, best price first and in queue order within it. */
  function Flatten(side: Side, levels: Levels): seq<Order>
    decreases |levels|
  {
    if levels == map[] then []
    else
      var p := Best(side, levels.Keys);
      assert (levels - {p}).Keys == levels.Keys - {p};
      levels[p] + Flatten(side, levels - {p})
  }

  /** Every queue holds orders of this side at its own price. */
  ghost predicate Priced(side: Side, levels: Levels) {
    forall p :: p in levels ==> forall k :: 0 <= k < |levels[p]| ==>
      levels[p][k].price == p && levels[p][k].side == side
  }

  function QueueAt(levels: Levels, p: Price): seq<Order> {
    if p in levels then levels[p] else []
  }

  lemma FlattenAtBest(side: Side, levels: Levels, p: Price)
    requires p in levels && forall q :: q in levels ==> !Better(side, q, p)
    ensures Flatten(side, levels) == levels[p] + Flatten(side, levels - {p})
  {
  }

  /** Changing the queue at the best price changes the front of the side. */
  lemma FlattenUpdateBest(side: Side, levels: Levels, queue: seq<Order>)
    requires levels != map[]
    ensures var p := Best(side, levels.Keys);
            Flatten(side, levels[p := queue]) == queue + Flatten(side, levels - {p})
  {
    var p := Best(side, levels.Keys);
    var levels' := levels[p := queue];
    assert levels'.Keys == levels.Keys;
    assert levels' - {p} == levels - {p};
    FlattenAtBest(side, levels', p);
  }

  lemma UpdateOnly(levels: Levels, p: Price, queue: seq<Order>)
    requires p in levels
    ensures levels[p := queue].Keys == levels.Keys
    ensures levels[p := queue] - {p} == levels - {p}
  {
  }

  /** An empty queue is invisible. */
  lemma {:induction false} FlattenDropEmpty(side: Side, levels: Levels, p: Price)
    requires p in levels && levels[p] == []
    ensures Flatten(side, levels - {p}) == Flatten(side, levels)
    decreases |levels|
  {
    var b := Best(side, levels.Keys);
    if b != p {
      var inner := levels - {b};
      assert inner.Keys == levels.Keys - {b};
      FlattenDropEmpty(side, inner, p);
      assert (levels - {p}) - {b} == inner - {p};
      assert b in levels - {p};
      FlattenAtBest(side, levels - {p}, b);
    }
  }

  lemma InsertPast(queue: seq<Order>, rest: seq<Order>, order: Order)
    requires forall k :: 0 <= k < |queue| ==> !Better(order.side, order.price, queue[k].price)
    ensures Insert(queue + rest, order) == queue + Insert(rest, order)
  {
    if queue == [] {
      assert queue + rest == rest;
      assert queue + Insert(rest, order) == Insert(rest, order);
    } else {
      assert (queue + rest)[1..] == queue[1..] + rest;
      InsertPast(queue[1..], rest, order);
      assert [queue[0]] + (queue[1..] + Insert(rest, order)) == queue + Insert(rest, order);
    }
  }

  /** Every flattened order comes from a level of its own price. */
  lemma FlattenPrices(side: Side, levels: Levels, k: nat)
    requires Priced(side, levels) && k < |Flatten(side, levels)|
    ensures var order := Flatten(side, levels)[k];
            order.side == side && order.price in levels && order in levels[order.price]
    decreases |levels|
  {
    var p := Best(side, levels.Keys);
    assert (levels - {p}).Keys == levels.Keys - {p};
    if k >= |levels[p]| {
      FlattenPrices(side, levels - {p}, k - |levels[p]|);
    }
  }

  lemma FlattenNewBest(side: Side, levels: Levels, order: Order)
    requires Priced(side, levels) && order.side == side && order.price !in levels
    requires forall q :: q in levels ==> Better(side, order.price, q)
    ensures Flatten(side, levels[order.price := [order]]) == Insert(Flatten(side, levels), order)
  {
    var levels' := levels[order.price := [order]];
    assert levels' - {order.price} == levels;
    FlattenAtBest(side, levels', order.price);
    if Flatten(side, levels) != [] { FlattenPrices(side, levels, 0); }
  }

  lemma FlattenJoinBest(side: Side, levels: Levels, order: Order)
    requires Priced(side, levels) && order.side == side && levels != map[]
    requires order.price == Best(side, levels.Keys)
    ensures Flatten(side, levels[order.price := levels[order.price] + [order]]) == Insert(Flatten(side, levels), order)
  {
    var b := order.price;
    var rest := Flatten(side, levels - {b});
    FlattenUpdateBest(side, levels, levels[b] + [order]);
    InsertPast(levels[b], rest, order);
    if rest != [] { FlattenPrices(side, levels - {b}, 0); }
    assert (levels[b] + [order]) + rest == levels[b] + ([order] + rest);
  }

  /** Appending to the queue at the order's price, which may be new, inserts the
      order behind every order with a price at least as good. */
  lemma {:induction false} FlattenInsert(side: Side, levels: Levels, order: Order)
    requires Priced(side, levels) && order.side == side
    ensures Flatten(side, levels[order.price := QueueAt(levels, order.price) + [order]])
         == Insert(Flatten(side, levels), order)
    decreases |levels|
  {
    var p := order.price;
    assert p !in levels ==> QueueAt(levels, p) + [order] == [order];
    if levels == map[] {
      FlattenNewBest(side, levels, order);
    } else {
      var b := Best(side, levels.Keys);
      if Better(side, p, b) {
        FlattenNewBest(side, levels, order);
      } else if p == b {
        FlattenJoinBest(side, levels, order);
      } else {
        FlattenInsertBehind(side, levels, order);
      }
    }
  }

  lemma AppendElsewhere(levels: Levels, b: Price, order: Order)
    requires b in levels && b != order.price
    ensures var rest, levels' := levels - {b}, levels[order.price := QueueAt(levels, order.price) + [order]];
            && rest.Keys == levels.Keys - {b} && levels'.Keys == levels.Keys + {order.price}
            && levels'[b] == levels[b]
            && levels' - {b} == rest[order.price := QueueAt(rest, order.price) + [order]]
  {
  }

  lemma {:induction false} FlattenInsertBehind(side: Side, levels: Levels, order: Order)
    requires Priced(side, levels) && order.side == side && levels != map[]
    requires Better(side, Best(side, levels.Keys), order.price)
    ensures Flatten(side, levels[order.price := QueueAt(levels, order.price) + [order]])
         == Insert(Flatten(side, levels), order)
    decreases |levels|, 0
  {
    var b := Best(side, levels.Keys);
    AppendElsewhere(levels, b, order);
    FlattenInsert(side, levels - {b}, order);
    FlattenAtBest(side, levels[order.price := QueueAt(levels, order.price) + [order]], b);
    InsertPast(levels[b], Flatten(side, levels - {b}), order);
  }

  lemma RemovePricedElsewhere(side: Side, levels: Levels, p: Price, id: OrderId)
    requires Priced(side, levels)
    requires forall q, k :: q in levels && q != p && 0 <= k < |levels[q]| ==> levels[q][k].orderId != id
    requires p !in levels
    ensures Remove(Flatten(side, levels), id) == Flatten(side, levels)
  {
    var flat := Flatten(side, levels);
    if id in Ids(flat) {
      var k := IdsIndex(flat, id);
      FlattenPrices(side, levels, k);
    } else {
      RemoveAbsent(flat, id);
    }
  }

  /** Taking an order out of the only queue that holds it. */
  lemma {:induction false} FlattenRemove(side: Side, levels: Levels, p: Price, id: OrderId)
    requires Priced(side, levels) && p in levels
    requires forall q, k :: q in levels && q != p && 0 <= k < |levels[q]| ==> levels[q][k].orderId != id
    ensures Flatten(side, levels[p := Remove(levels[p], id)]) == Remove(Flatten(side, levels), id)
    decreases |levels|
  {
    var b := Best(side, levels.Keys);
    var rest := levels - {b};
    var levels' := levels[p := Remove(levels[p], id)];
    assert rest.Keys == levels.Keys - {b} && levels'.Keys == levels.Keys;
    FlattenAtBest(side, levels', b);
    RemoveConcat(levels[b], Flatten(side, rest), id);
    if b == p {
      assert levels' - {b} == rest;
      RemovePricedElsewhere(side, rest, p, id);
    } else {
      assert levels' - {b} == rest[p := Remove(rest[p], id)];
      FlattenRemove(side, rest, p, id);
      if id in Ids(levels[b]) { var k := IdsIndex(levels[b], id); }
      RemoveAbsent(levels[b], id);
    }
  }

  // ---------------------------------------------------------- identifiers

  lemma {:induction false} FlattenIds(side: Side, levels: Levels, id: OrderId)
    ensures id in Ids(Flatten(side, levels)) <==> exists p :: p in levels && id in Ids(levels[p])
    decreases |levels|
  {
    if levels != map[] {
      var b := Best(side, levels.Keys);
      var rest := levels - {b};
      assert rest.Keys == levels.Keys - {b};
      IdsConcat(levels[b], Flatten(side, rest));
      FlattenIds(side, rest, id);
      if p :| p in levels && id in Ids(levels[p]) {
        assert p == b || (p in rest && rest[p] == levels[p]);
      }
    }
  }

  // --------------------------------------------------- one step of matching

  /** A fill continued after the trades already printed. */
  function Resume(trades: seq<Trade>, f: Fill): Fill {
    f.(trades := trades + f.trades)
  }

  lemma ResumeNone(trades: seq<Trade>, rest: seq<Order>, taker: Order)
    ensures Resume(trades, Fill([], rest, taker)) == Fill(trades, rest, taker)
  {
  }

  /** What a hit of `quantity` leaves of the front order of a queue. */
  function Left(front: Order, quantity: Quantity): seq<Order>
    requires quantity <= front.remainingQuantity
  {
    if front.remainingQuantity == quantity then []
    else [front.(remainingQuantity := front.remainingQuantity - quantity)]
  }

  lemma {:induction false} GreedyHit(taker: Order, quantity: Quantity, trades: seq<Trade>, queue: seq<Order>)
    requires queue != [] && Crosses(taker, queue[0].price) && taker.remainingQuantity > 0
    requires quantity == MinQuantity(taker.remainingQuantity, queue[0].remainingQuantity)
    ensures Resume(trades + [TradeOf(taker, queue[0], quantity)],
                   Greedy(taker.(remainingQuantity := taker.remainingQuantity - quantity),
                          Left(queue[0], quantity) + queue[1..]))
            == Resume(trades, Greedy(taker, queue))
  {
    var taker' := taker.(remainingQuantity := taker.remainingQuantity - quantity);
    var first := [TradeOf(taker, queue[0], quantity)];
    if queue[0].remainingQuantity == quantity {
      var g := Greedy(taker', queue[1..]);
      assert [] + queue[1..] == queue[1..];
      assert Greedy(taker, queue) == Fill(first + g.trades, g.rest, g.taker);
      assert trades + (first + g.trades) == (trades + first) + g.trades;
    } else {
      assert (trades + first) + [] == trades + first;
    }
  }

  /** One turn of the inner matching loop: the front maker of the best level is
      hit, and removed if that fills it. */
  lemma {:induction false} HitFront(side: Side, levels: Levels, p: Price, taker: Order, quantity: Quantity,
                 trades: seq<Trade>, behind: seq<Order>)
    requires Priced(side, levels) && p in levels && p == Best(side, levels.Keys) && levels[p] != []
    requires Crosses(taker, p) && taker.remainingQuantity > 0
    requires quantity == MinQuantity(taker.remainingQuantity, levels[p][0].remainingQuantity)
    requires behind == Left(levels[p][0], quantity) + levels[p][1..]
    ensures Resume(trades + [TradeOf(taker, levels[p][0], quantity)],
                   Greedy(taker.(remainingQuantity := taker.remainingQuantity - quantity),
                          Flatten(side, levels[p := behind])))
            == Resume(trades, Greedy(taker, Flatten(side, levels)))
  {
    var rest := Flatten(side, levels - {p});
    var flat := Flatten(side, levels);
    assert flat == levels[p] + rest;
    FlattenUpdateBest(side, levels, behind);
    assert behind + rest == Left(flat[0], quantity) + flat[1..];
    GreedyHit(taker, quantity, trades, flat);
  }

  /** The outer matching loop stops where the greedy matcher does. */
  lemma NothingToMatch(side: Side, levels: Levels, taker: Order)
    requires Priced(side, levels) && taker.side == Opposite(side)
    requires levels == map[] || taker.remainingQuantity == 0 || !Crosses(taker, Best(side, levels.Keys))
    ensures Greedy(taker, Flatten(side, levels)) == Fill([], Flatten(side, levels), taker)
  {
  }

  lemma MatchingStops(side: Side, levels: Levels, taker: Order, trades: seq<Trade>, goal: Fill)
    requires Priced(side, levels) && taker.side == Opposite(side)
    requires levels == map[] || taker.remainingQuantity == 0 || !Crosses(taker, Best(side, levels.Keys))
    requires Resume(trades, Greedy(taker, Flatten(side, levels))) == goal
    ensures goal == Fill(trades, Flatten(side, levels), taker)
  {
    NothingToMatch(side, levels, taker);
    ResumeNone(trades, Flatten(side, levels), taker);
  }

  // --------------------------------------------------- nothing is forgotten

  function AtPrice(queue: seq<Order>, p: Price): seq<Order> {
    if queue == [] then []
    else if queue[0].price == p then [queue[0]] + AtPrice(queue[1..], p)
    else AtPrice(queue[1..], p)
  }

  lemma {:induction false} AtPriceConcat(a: seq<Order>, b: seq<Order>, p: Price)
    ensures AtPrice(a + b, p) == AtPrice(a, p) + AtPrice(b, p)
  {
    if a == [] {
      assert a + b == b;
    } else {
      assert (a + b)[1..] == a[1..] + b;
      AtPriceConcat(a[1..], b, p);
    }
  }

  lemma {:induction false} AtPriceAll(queue: seq<Order>, p: Price, q: Price)
    requires forall k :: 0 <= k < |queue| ==> queue[k].price == q
    ensures AtPrice(queue, p) == if p == q then queue else []
  {
    if queue != [] { AtPriceAll(queue[1..], p, q); }
  }

  /** The queue at every price can be read off the flat side, so two level maps
      without empty queues are equal when their flat sides are. */
  lemma {:induction false} FlattenAtPrice(side: Side, levels: Levels, p: Price)
    requires Priced(side, levels)
    ensures AtPrice(Flatten(side, levels), p) == QueueAt(levels, p)
    decreases |levels|
  {
    if levels != map[] {
      var b := Best(side, levels.Keys);
      var rest := levels - {b};
      assert rest.Keys == levels.Keys - {b};
      AtPriceConcat(levels[b], Flatten(side, rest), p);
      AtPriceAll(levels[b], p, b);
      FlattenAtPrice(side, rest, p);
    }
  }

  /** The price levels of a flat side. */
  function Prices(queue: seq<Order>): set<Price> {
    set order | order in queue :: order.price
  }

  lemma {:induction false} AtPriceContents(queue: seq<Order>, p: Price)
    ensures AtPrice(queue, p) != [] <==> p in Prices(queue)
  {
    if queue != [] {
      AtPriceContents(queue[1..], p);
      assert queue == [queue[0]] + queue[1..];
      assert forall order :: order in queue <==> order == queue[0] || order in queue[1..];
    }
  }

  lemma FlattenPriceSet(side: Side, levels: Levels)
    requires Priced(side, levels) && forall p :: p in levels ==> levels[p] != []
    ensures Prices(Flatten(side, levels)) == levels.Keys
  {
    forall p: Price ensures p in Prices(Flatten(side, levels)) <==> p in levels {
      AtPriceContents(Flatten(side, levels), p);
      FlattenAtPrice(side, levels, p);
    }
  }

  /** Every queued order has its place in the flat side. */
  lemma FlattenHolds(side: Side, levels: Levels, p: Price, k: nat) returns (j: nat)
    requires p in levels && k < |levels[p]|
    ensures j < |Flatten(side, levels)| && Flatten(side, levels)[j] == levels[p][k]
    decreases |levels|
  {
    var b := Best(side, levels.Keys);
    var rest := levels - {b};
    assert rest.Keys == levels.Keys - {b};
    if p == b {
      j := k;
    } else {
      j := FlattenHolds(side, rest, p, k);
      j := |levels[b]| + j;
    }
  }

  lemma FlattenIsInjective(side: Side, a: Levels, b: Levels)
    requires Priced(side, a) && Priced(side, b)
    requires forall p :: p in a ==> a[p] != []
    requires forall p :: p in b ==> b[p] != []
    ensures Flatten(side, a) == Flatten(side, b) <==> a == b
  {
    if Flatten(side, a) == Flatten(side, b) {
      forall p: Price ensures QueueAt(a, p) == QueueAt(b, p) {
        FlattenAtPrice(side, a, p);
        FlattenAtPrice(side, b, p);
      }
      forall p: Price ensures p in a <==> p in b {
        assert QueueAt(a, p) == QueueAt(b, p);
      }
      forall p | p in a ensures a[p] == b[p] {
        assert QueueAt(a, p) == QueueAt(b, p);
      }
    }
  }

  lemma VolumeStep(queue: seq<Order>, i: nat)
    requires i < |queue|
    ensures Volume(queue[..i + 1]) == Volume(queue[..i]) + queue[i].remainingQuantity
  {
    VolumeConcat(queue[..i], [queue[i]]);
    assert queue[..i + 1] == queue[..i] + [queue[i]];
  }
}
