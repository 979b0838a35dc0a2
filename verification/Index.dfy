/** The order index of an engine: where each resting order is to be found. */
module Index {
  import opened Types
  import opened Book
  import opened Queues
  import opened Levels

  datatype Location = Location(side: Side, price: Price)

  ghost predicate NoEmptyQueue(levels: Levels) {
    forall p :: p in levels ==> levels[p] != []
  }

  /** One side of the book and the index tell the same story: every queued order
      is indexed where it rests, and every index entry leads to its order. */
  ghost predicate Agree(side: Side, levels: Levels, index: map<OrderId, Location>) {
    && Priced(side, levels)
    && (forall p :: p in levels ==> Distinct(levels[p]))
    && (forall p, k :: p in levels && 0 <= k < |levels[p]| ==>
          levels[p][k].orderId in index && index[levels[p][k].orderId] == Location(side, p))
    && (forall id :: id in index && index[id].side == side ==>
          index[id].price in levels && id in Ids(levels[index[id].price]))
  }

  lemma IndexedOnSide(side: Side, levels: Levels, index: map<OrderId, Location>, id: OrderId)
    requires Agree(side, levels, index)
    ensures id in Ids(Flatten(side, levels)) <==> id in index && index[id].side == side
  {
    FlattenIds(side, levels, id);
    if p: Price :| p in levels && id in Ids(levels[p]) { var k := IdsIndex(levels[p], id); }
  }

  /** The front order of a queue is filled: it leaves the index and the queue. */
  lemma PopKeepsAgreement(side: Side, levels: Levels, index: map<OrderId, Location>, p: Price)
    requires Agree(side, levels, index) && p in levels && levels[p] != []
    ensures Agree(side, levels[p := levels[p][1..]], index - {levels[p][0].orderId})
  {
  }

  lemma OtherSideKeepsAgreement(side: Side, levels: Levels, index: map<OrderId, Location>, id: OrderId)
    requires Agree(side, levels, index) && id in index && index[id].side != side
    ensures Agree(side, levels, index - {id})
  {
  }

  /** The front order of a queue is filled in part: it stays where it is. */
  lemma TrimKeepsAgreement(side: Side, levels: Levels, index: map<OrderId, Location>, p: Price, quantity: Quantity)
    requires Agree(side, levels, index) && p in levels && levels[p] != []
    ensures Agree(side, levels[p := [levels[p][0].(remainingQuantity := quantity)] + levels[p][1..]], index)
  {
  }

  /** The price map once a level whose queue ran empty is erased. */
  function Pruned(levels: Levels, p: Price): Levels
    requires p in levels
  {
    if levels[p] == [] then levels - {p} else levels
  }

  lemma PrunedKeepsAgreement(side: Side, levels: Levels, index: map<OrderId, Location>, p: Price)
    requires Agree(side, levels, index) && p in levels
    ensures Agree(side, Pruned(levels, p), index)
    ensures Flatten(side, Pruned(levels, p)) == Flatten(side, levels)
  {
    if levels[p] == [] { FlattenDropEmpty(side, levels, p); }
  }

  lemma PrunedHasNoEmptyQueue(levels: Levels, p: Price)
    requires p in levels && NoEmptyQueue(levels - {p})
    ensures NoEmptyQueue(Pruned(levels, p))
    ensures levels[p] == [] ==> |Pruned(levels, p)| < |levels|
  {
    assert forall q :: q in levels && q != p ==> q in levels - {p} && (levels - {p})[q] == levels[q];
    assert levels.Keys == (levels - {p}).Keys + {p};
  }

  lemma SameCount(levels: Levels, before: Levels)
    requires levels.Keys == before.Keys
    ensures |levels| == |before|
  {
    assert |levels| == |levels.Keys| && |before| == |before.Keys|;
  }

  /** A new order joins the back of its queue. */
  lemma AppendKeepsAgreement(side: Side, levels: Levels, index: map<OrderId, Location>, order: Order)
    requires Agree(side, levels, index) && order.orderId !in index && order.side == side
    ensures Agree(side, levels[order.price := QueueAt(levels, order.price) + [order]],
                  index[order.orderId := Location(side, order.price)])
  {
    var p, queue := order.price, QueueAt(levels, order.price);
    var levels': Levels := levels[p := queue + [order]];
    IdsConcat(queue, [order]);
    assert forall k :: 0 <= k < |queue| ==> queue[k].orderId in index;
    forall id | id in index && index[id].side == side
      ensures index[id].price in levels' && id in Ids(levels'[index[id].price])
    {
      assert id in Ids(levels[index[id].price]);
    }
  }

  lemma AppendElsewhereKeepsAgreement(side: Side, levels: Levels, index: map<OrderId, Location>, order: Order)
    requires Agree(side, levels, index) && order.orderId !in index && order.side != side
    ensures Agree(side, levels, index[order.orderId := Location(order.side, order.price)])
  {
  }

  /** The order the index points at leaves its queue. */
  lemma EraseKeepsAgreement(side: Side, levels: Levels, index: map<OrderId, Location>, id: OrderId)
    requires Agree(side, levels, index) && id in index && index[id].side == side
    ensures var p := index[id].price;
            Agree(side, levels[p := Remove(levels[p], id)], index - {id})
  {
    var p := index[id].price;
    var levels': Levels := levels[p := Remove(levels[p], id)];
    var index' := index - {id};
    forall q, k | q in levels' && 0 <= k < |levels'[q]|
      ensures levels'[q][k].orderId in index' && index'[levels'[q][k].orderId] == Location(side, q)
      ensures levels'[q][k].price == q && levels'[q][k].side == side
    {
      ErasedAt(side, levels, index, id, q, k);
    }
    RemoveContents(levels[p], id);
    RemoveKeepsDistinct(levels[p], id);
    forall i | i in index' && index'[i].side == side
      ensures index'[i].price in levels' && i in Ids(levels'[index'[i].price])
    {
      assert i in Ids(levels[index[i].price]);
    }
  }

  lemma GapKeepsDistinct(queue: seq<Order>, n: nat)
    requires Distinct(queue) && n < |queue|
    ensures Distinct(queue[..n] + queue[n + 1..])
  {
  }

  lemma RemoveKeepsDistinct(queue: seq<Order>, id: OrderId)
    requires Distinct(queue) && id in Ids(queue)
    ensures Distinct(Remove(queue, id))
  {
    var n := IdsIndex(queue, id);
    RemoveAt(queue, n);
    GapKeepsDistinct(queue, n);
  }

  lemma ErasedAt(side: Side, levels: Levels, index: map<OrderId, Location>, id: OrderId, q: Price, k: nat)
    requires Agree(side, levels, index) && id in index && index[id].side == side && q in levels
    requires var p := index[id].price; k < |(if q == p then Remove(levels[p], id) else levels[q])|
    ensures var p := index[id].price;
            var order := (if q == p then Remove(levels[p], id) else levels[q])[k];
            && order.orderId in index && order.orderId != id && index[order.orderId] == Location(side, q)
            && order.price == q && order.side == side
  {
    var p := index[id].price;
    var queue: seq<Order> := levels[p];
    var n := IdsIndex(queue, id);
    RemoveAt(queue, n);
    RemoveContents(queue, id);
    var k' := if q != p || k < n then k else k + 1;
    assert (if q == p then Remove(queue, id) else levels[q])[k] == levels[q][k'];
    assert index[levels[q][k'].orderId] == Location(side, q);
  }

  lemma EraseFlattens(side: Side, levels: Levels, index: map<OrderId, Location>, id: OrderId)
    requires Agree(side, levels, index) && id in index && index[id].side == side
    ensures var p := index[id].price;
            Flatten(side, levels[p := Remove(levels[p], id)]) == Remove(Flatten(side, levels), id)
  {
    forall q, k | q in levels && q != index[id].price && 0 <= k < |levels[q]| ensures levels[q][k].orderId != id {
      assert index[levels[q][k].orderId] == Location(side, q);
    }
    FlattenRemove(side, levels, index[id].price, id);
  }

  lemma BehindTheHit(queue: seq<Order>, quantity: Quantity)
    requires queue != [] && quantity <= queue[0].remainingQuantity
    ensures Left(queue[0], quantity) + queue[1..]
         == if quantity == queue[0].remainingQuantity then queue[1..]
            else [queue[0].(remainingQuantity := queue[0].remainingQuantity - quantity)] + queue[1..]
  {
  }

  /** The front order of a queue is hit for `quantity`, which may fill it. */
  lemma HitKeepsAgreement(side: Side, levels: Levels, index: map<OrderId, Location>, p: Price, quantity: Quantity)
    requires Agree(side, levels, index) && p in levels && levels[p] != [] && quantity <= levels[p][0].remainingQuantity
    ensures Agree(side, levels[p := Left(levels[p][0], quantity) + levels[p][1..]],
                  if quantity == levels[p][0].remainingQuantity then index - {levels[p][0].orderId} else index)
  {
    BehindTheHit(levels[p], quantity);
    if quantity == levels[p][0].remainingQuantity {
      PopKeepsAgreement(side, levels, index, p);
    } else {
      TrimKeepsAgreement(side, levels, index, p, levels[p][0].remainingQuantity - quantity);
    }
  }

  /** Between `before` and `after` only orders of `side` were forgotten. */
  ghost predicate LostOnly(side: Side, before: map<OrderId, Location>, after: map<OrderId, Location>) {
    && (forall id :: id in after ==> id in before && after[id] == before[id])
    && (forall id :: id in before && id !in after ==> before[id].side == side)
  }

  lemma LostOnlyKeepsOther(side: Side, other: Levels, before: map<OrderId, Location>, after: map<OrderId, Location>)
    requires Agree(Opposite(side), other, before) && LostOnly(side, before, after)
    ensures Agree(Opposite(side), other, after)
  {
  }

  lemma HitLosesOnly(side: Side, levels: Levels, index: map<OrderId, Location>, p: Price)
    requires Agree(side, levels, index) && p in levels && levels[p] != []
    ensures LostOnly(side, index, index - {levels[p][0].orderId})
  {
  }

  /** An indexed order is found in its queue exactly as in the whole side. */
  lemma FoundWhereIndexed(side: Side, levels: Levels, index: map<OrderId, Location>, id: OrderId)
    requires Agree(side, levels, index) && Distinct(Flatten(side, levels))
    requires id in index && index[id].side == side
    ensures index[id].price in levels && id in Ids(Flatten(side, levels))
    ensures Find(levels[index[id].price], id) == Find(Flatten(side, levels), id)
  {
    var p := index[id].price;
    var k := IdsIndex(levels[p], id);
    var j := FlattenHolds(side, levels, p, k);
    RemoveAt(levels[p], k);
    RemoveAt(Flatten(side, levels), j);
    IdsAt(Flatten(side, levels), j);
  }

  lemma TopOfLevels(side: Side, levels: Levels)
    requires Priced(side, levels) && NoEmptyQueue(levels)
    ensures TopPrice(Flatten(side, levels)) == if levels == map[] then None else Some(Best(side, levels.Keys))
    ensures levels.Keys == Prices(Flatten(side, levels))
  {
    FlattenPriceSet(side, levels);
    if levels != map[] {
      var p := Best(side, levels.Keys);
      assert levels[p] != [] && Flatten(side, levels)[0] == levels[p][0];
    }
  }
}
