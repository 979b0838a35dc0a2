/** The private helpers of the pooled engine. Each takes the fields it touches as
    a value and returns what it makes of them; `PoolOrderBook` assigns its fields
    from the results. Chains, queues and positions are known to the proofs only. */
module PoolNodes {
  import opened Types
  import opened Book
  import opened Matching
  import opened Queues
  import opened Levels
  import opened Index
  import opened PoolShape

  /** `nodes_`, `free_head_` and `order_index_`. */
  datatype Pool = Pool(nodes: seq<OrderNode>, freeHead: Slot, index: map<OrderId, Slot>)

  /** Every slot is on the free list or in the index, never both. */
  ghost predicate Pooled(pool: Pool, free: seq<Slot>) {
    && |pool.nodes| <= INVALID
    && FreeList(pool.nodes, pool.freeHead, free)
    && Covered(pool.nodes, free, pool.index)
  }

  // ------------------------------------------------------- the level's list

  method RemoveFromLevel(nodes: seq<OrderNode>, level: PriceLevel, idx: Slot,
                         ghost p: Price, ghost cell: Cell, ghost queue: seq<Order>, ghost k: nat)
    returns (nodes': seq<OrderNode>, level': PriceLevel)
    requires LevelOk(nodes, level, p, cell, queue) && DistinctSlots(cell.chain) && |nodes| <= INVALID
    requires k < |cell.chain| == |queue| && cell.chain[k] == idx && idx < |nodes|
    ensures Bypassed(nodes, nodes', cell.chain, k)
    ensures LevelOk(nodes', level', p, Cell(Without(cell.chain, k), cell.traded), Without(queue, k))
  {
    assert LinkAt(nodes, cell.chain, queue, k);
    if k > 0 { assert LinkAt(nodes, cell.chain, queue, k - 1); }
    if k + 1 < |cell.chain| { assert LinkAt(nodes, cell.chain, queue, k + 1); }
    var prev, next := nodes[idx].prev, nodes[idx].next;
    nodes', level' := nodes, level;
    if prev != INVALID {
      nodes' := nodes'[prev := nodes'[prev].(next := next)];
    } else {
      level' := level'.(head := next);
    }
    if next != INVALID {
      nodes' := nodes'[next := nodes'[next].(prev := prev)];
    } else {
      level' := level'.(tail := prev);
    }
    level' := level'.(totalVolume := Sub32(level'.totalVolume, nodes'[idx].order.remainingQuantity));
    level' := level'.(orderCount := Sub32(level'.orderCount, 1));
    LevelShrinks(nodes, nodes', level, p, cell, queue, k);
  }

  method AppendToLevel(nodes: seq<OrderNode>, level: PriceLevel, idx: Slot,
                       ghost p: Price, ghost cell: Cell, ghost queue: seq<Order>)
    returns (nodes': seq<OrderNode>, level': PriceLevel)
    requires LevelOk(nodes, level, p, cell, queue) && DistinctSlots(cell.chain) && |nodes| <= INVALID
    requires idx < |nodes| && idx !in cell.chain
    ensures Hooked(nodes, nodes', cell.chain, idx)
    ensures LevelOk(nodes', level', p, Cell(cell.chain + [idx], cell.traded), queue + [nodes[idx].order])
  {
    if cell.chain != [] { assert LinkAt(nodes, cell.chain, queue, |cell.chain| - 1); }
    nodes' := nodes[idx := nodes[idx].(prev := level.tail, next := INVALID)];
    level' := level;
    if level.tail != INVALID {
      nodes' := nodes'[level.tail := nodes'[level.tail].(next := idx)];
    } else {
      level' := level'.(head := idx);
    }
    level' := level'.(tail := idx);
    level' := level'.(totalVolume := Wrap32(level'.totalVolume + nodes'[idx].order.remainingQuantity));
    level' := level'.(orderCount := Wrap32(level'.orderCount + 1));
    LevelGrows(nodes, nodes', level, p, cell, queue, idx);
  }

  // ----------------------------------------------------------- the free list

  method FreeNode(nodes: seq<OrderNode>, freeHead: Slot, idx: Slot, ghost free: seq<Slot>)
    returns (nodes': seq<OrderNode>, freeHead': Slot)
    requires |nodes| <= INVALID && idx < |nodes| && FreeList(nodes, freeHead, free) && idx !in free
    ensures nodes' == Freed(nodes, idx, freeHead) && freeHead' == idx
    ensures FreeList(nodes', freeHead', [idx] + free)
  {
    nodes' := nodes[idx := nodes[idx].(prev := INVALID)];
    nodes' := nodes'[idx := nodes'[idx].(next := freeHead)];
    freeHead' := idx;
    FreeListPushed(nodes, freeHead, free, idx);
  }

  /** Thread all slots from `from` on into one free run, keeping their orders. */
  method Thread(nodes: seq<OrderNode>, from: nat) returns (nodes': seq<OrderNode>)
    requires from <= |nodes| <= INVALID
    ensures |nodes'| == |nodes|
    ensures forall i: Slot :: i < from ==> nodes'[i] == nodes[i]
    ensures forall i: Slot :: from <= i < |nodes| ==>
      nodes'[i] == OrderNode(nodes[i].order, INVALID, if i + 1 < |nodes| then i + 1 else INVALID)
  {
    nodes' := nodes;
    for i := from to |nodes|
      invariant |nodes'| == |nodes|
      invariant forall j: Slot :: j < from || i <= j < |nodes| ==> nodes'[j] == nodes[j]
      invariant forall j: Slot :: from <= j < i ==>
        nodes'[j] == OrderNode(nodes[j].order, INVALID, if j + 1 < |nodes| then j + 1 else INVALID)
    {
      nodes' := nodes'[i := nodes'[i].(prev := INVALID)];
      nodes' := nodes'[i := nodes'[i].(next := if i + 1 < |nodes| then i + 1 else INVALID)];
    }
  }

  function Grown(size: nat): nat {
    if size == 0 then 1024 else size * 2
  }

  method Grow(pool: Pool) returns (pool': Pool)
    requires Pooled(pool, []) && Grown(|pool.nodes|) <= INVALID
    ensures |pool'.nodes| == Grown(|pool.nodes|) && pool'.index == pool.index
    ensures forall i: Slot :: i < |pool.nodes| ==> pool'.nodes[i] == pool.nodes[i]
    ensures Pooled(pool', Range(|pool.nodes|, |pool'.nodes|))
  {
    var oldSize := |pool.nodes|;
    var newSize := if oldSize == 0 then 1024 else oldSize * 2;
    var nodes := Thread(pool.nodes + seq(newSize - oldSize, _ => DEFAULT_NODE), oldSize);
    CoverageGrown(pool.nodes, nodes, pool.index);
    pool' := Pool(nodes, oldSize, pool.index);
    FreshList(nodes, oldSize);
  }

  lemma FreshList(nodes: seq<OrderNode>, from: nat)
    requires from <= |nodes| <= INVALID
    requires forall i: Slot :: from <= i < |nodes| ==> nodes[i].next == if i + 1 < |nodes| then i + 1 else INVALID
    ensures FreeList(nodes, if from < |nodes| then from else INVALID, Range(from, |nodes|))
  {
  }

  /** Pop the free list head and store the order there. */
  method PopFree(pool: Pool, order: Order, ghost free: seq<Slot>) returns (pool': Pool, idx: Slot)
    requires Pooled(pool, free) && free != [] && order.orderId !in pool.index
    ensures idx == free[0] && idx < |pool.nodes|
    ensures pool'.nodes == pool.nodes[idx := OrderNode(order, INVALID, INVALID)] && pool'.index == pool.index
    ensures FreeList(pool'.nodes, pool'.freeHead, free[1..])
    ensures Covered(pool'.nodes, free[1..], pool.index[order.orderId := idx])
    ensures !Live(pool.nodes, pool.index, idx)
  {
    idx := pool.freeHead;
    assert FreeAt(pool.nodes, free, 0) && idx in free;
    var freeHead, nodes := pool.nodes[idx].next, pool.nodes;
    nodes := nodes[idx := nodes[idx].(order := order)];
    nodes := nodes[idx := nodes[idx].(prev := INVALID)];
    nodes := nodes[idx := nodes[idx].(next := INVALID)];
    CoverageTaken(pool.nodes, nodes, free, pool.index, order.orderId);
    FreeListPopped(pool.nodes, nodes, pool.freeHead, free);
    pool' := Pool(nodes, freeHead, pool.index);
  }

  /** The free slots once there is at least one: the pool doubles if there is none. */
  function Available(size: nat, free: seq<Slot>): seq<Slot>
    requires size <= INVALID && (free == [] ==> Grown(size) <= INVALID)
  {
    if free == [] then Range(size, Grown(size)) else free
  }

  /** A slot is taken off the free list, which grows first if it is empty; the
      caller enters it in the index. */
  method AllocateNode(pool: Pool, order: Order, ghost free: seq<Slot>) returns (pool': Pool, idx: Slot)
    requires Pooled(pool, free) && order.orderId !in pool.index && (free == [] ==> Grown(|pool.nodes|) <= INVALID)
    ensures |pool'.nodes| == (if free == [] then Grown(|pool.nodes|) else |pool.nodes|) <= INVALID
    ensures idx == Available(|pool.nodes|, free)[0] && idx < |pool'.nodes|
    ensures pool'.nodes[idx] == OrderNode(order, INVALID, INVALID) && pool'.index == pool.index
    ensures forall i: Slot :: i < |pool.nodes| && i != idx ==> pool'.nodes[i] == pool.nodes[i]
    ensures FreeList(pool'.nodes, pool'.freeHead, Available(|pool.nodes|, free)[1..])
    ensures Covered(pool'.nodes, Available(|pool.nodes|, free)[1..], pool.index[order.orderId := idx])
    ensures !Live(pool.nodes, pool.index, idx)
  {
    assert pool.freeHead == INVALID <==> free == [] by { if free != [] { assert FreeAt(pool.nodes, free, 0); } }
    if pool.freeHead == INVALID {
      var grown := Grow(pool);
      pool', idx := PopFree(grown, order, Range(|pool.nodes|, |grown.nodes|));
    } else {
      pool', idx := PopFree(pool, order, free);
    }
  }

  // --------------------------------------------------------- one order moves

  /** The order in slot `idx` leaves its level, its slot and the index. */
  method Release(pool: Pool, ghost free: seq<Slot>, side: Side, p: Price, level: PriceLevel, idx: Slot,
                 ghost half: Half, ghost k: nat)
    returns (pool': Pool, level': PriceLevel, ghost after: Half)
    requires HalfLinked(pool.nodes, half, pool.index) && Priced(side, half.queues) && Pooled(pool, free)
    requires p in half.levels && p in half.cells && p in half.queues && level == half.levels[p]
    requires k < |half.cells[p].chain| == |half.queues[p]| && half.cells[p].chain[k] == idx
    requires Distinct(half.queues[p])
    ensures OnlyLevel(half, after, p, level', Cell(Without(half.cells[p].chain, k), half.cells[p].traded),
                      Without(half.queues[p], k))
    ensures HalfLinked(pool'.nodes, after, pool'.index) && Pooled(pool', [idx] + free) && |pool'.nodes| == |pool.nodes|
    ensures ChangedOnlyAt(pool.nodes, pool'.nodes, pool.index, pool'.index, side, p)
    ensures pool'.index == pool.index - {half.queues[p][k].orderId}
  {
    Releasable(side, pool.nodes, half, pool.index, p, k);
    var id := pool.nodes[idx].order.orderId;
    var nodes, freeHead;
    nodes, level' := RemoveFromLevel(pool.nodes, level, idx, p, half.cells[p], half.queues[p], k);
    ReleaseKeepsFree(pool.nodes, nodes, half, pool.index, pool.freeHead, free, p, k);
    after := ReleaseDone(side, pool.nodes, nodes, pool.freeHead, free, half, pool.index, p, k, level');
    nodes, freeHead := FreeNode(nodes, pool.freeHead, idx, free);
    pool' := Pool(nodes, freeHead, pool.index - {id});
  }

  /** The front order of a level gives `quantity`, and leaves if that is all. */
  method Strike(pool: Pool, ghost free: seq<Slot>, side: Side, p: Price, level: PriceLevel, quantity: Quantity,
                ghost half: Half)
    returns (pool': Pool, level': PriceLevel, ghost after: Half, ghost cell: Cell, ghost queue: seq<Order>,
             ghost free': seq<Slot>)
    requires HalfLinked(pool.nodes, half, pool.index) && Priced(side, half.queues) && Pooled(pool, free)
    requires p in half.levels && p in half.cells && p in half.queues && Distinct(half.queues[p])
    requires level == half.levels[p]
    requires half.queues[p] != [] && half.cells[p].chain != [] && half.cells[p].chain[0] == level.head
    requires |half.queues[p]| == |half.cells[p].chain|
    requires level.head < |pool.nodes| && pool.nodes[level.head].order == half.queues[p][0]
    requires quantity <= half.queues[p][0].remainingQuantity
    ensures HalfLinked(pool'.nodes, after, pool'.index) && Pooled(pool', free') && |pool'.nodes| == |pool.nodes|
    ensures ChangedOnlyAt(pool.nodes, pool'.nodes, pool.index, pool'.index, side, p)
    ensures OnlyLevel(half, after, p, level', cell, queue)
    ensures cell.traded == half.cells[p].traded + quantity
    ensures queue == Left(half.queues[p][0], quantity) + half.queues[p][1..]
    ensures if quantity == half.queues[p][0].remainingQuantity then
              free' == [level.head] + free && pool'.index == pool.index - {half.queues[p][0].orderId}
            else
              free' == free && pool'.index == pool.index
  {
    after := Taken(side, pool.nodes, half, pool.index, pool.freeHead, free, p, level, level.head, quantity);
    pool', level', free' := pool.(nodes := HitNode(pool.nodes, level.head, quantity)), level, free;
    cell, queue := Cell(half.cells[p].chain, half.cells[p].traded + quantity), Hit(half.queues[p], quantity);
    HitRemains(pool.nodes, level.head, half.queues[p], quantity);
    HitLeaves(half.queues[p], quantity);
    if pool'.nodes[level.head].order.remainingQuantity == 0 {
      ghost var hit, nodes := after, pool'.nodes;
      HitReleasable(side, half, hit, p, level, cell, quantity);
      pool', level', after := Release(pool', free, side, p, level, level.head, hit, 0);
      StruckOut(half, hit, after, p, level, cell, queue, level',
                pool.nodes, nodes, pool'.nodes, pool.index, pool'.index, side);
      cell, queue, free' := Cell(cell.chain[1..], cell.traded), queue[1..], [level.head] + free;
    }
  }

  // ---------------------------------------------------------------- matching

  /** What the proof knows of a pool while it works on one side of it: the free
      slots, that side, and where every order rests. */
  datatype Shape = Shape(free: seq<Slot>, half: Half, locations: map<OrderId, Location>)

  ghost predicate Sound(side: Side, pool: Pool, g: Shape) {
    && Agree(side, g.half.queues, g.locations)
    && HalfLinked(pool.nodes, g.half, pool.index)
    && Pooled(pool, g.free)
    && g.locations.Keys == pool.index.Keys
  }

  /** Only the level `p` of `side` was worked on. */
  ghost predicate Local(side: Side, p: Price, pool: Pool, g: Shape, pool': Pool, g': Shape) {
    && ChangedOnlyAt(pool.nodes, pool'.nodes, pool.index, pool'.index, side, p)
    && LostOnly(side, g.locations, g'.locations)
    && SameBut(g.half, g'.half, p)
    && |pool'.nodes| == |pool.nodes|
  }

  lemma LocalTwice(side: Side, p: Price, pool: Pool, g: Shape, pool': Pool, g': Shape, pool'': Pool, g'': Shape)
    requires Local(side, p, pool, g, pool', g') && Local(side, p, pool', g', pool'', g'')
    ensures Local(side, p, pool, g, pool'', g'')
  {
  }

  /** Trades were printed at price `p` only, for `quantity` in all. */
  ghost predicate PrintedAt(trades: seq<Trade>, trades': seq<Trade>, p: Price, quantity: nat) {
    forall q :: TradedAt(trades', q) == TradedAt(trades, q) + if q == p then quantity else 0
  }

  /** The incoming order traded with orders of the level `p`, and with nothing else. */
  ghost predicate Worked(side: Side, p: Price, pool: Pool, g: Shape, incoming: Order, outTrades: seq<Trade>,
                         pool': Pool, g': Shape, level': PriceLevel, taker: Order, trades: seq<Trade>) {
    && Sound(side, pool', g') && Local(side, p, pool, g, pool', g')
    && p in g'.half.levels && level' == g'.half.levels[p] && p in g'.half.queues
    && Resume(trades, Greedy(taker, Flatten(side, g'.half.queues)))
       == Resume(outTrades, Greedy(incoming, Flatten(side, g.half.queues)))
    && taker == incoming.(remainingQuantity := taker.remainingQuantity)
    && taker.remainingQuantity <= incoming.remainingQuantity
    && p in g.half.cells && p in g'.half.cells
    && g'.half.cells[p].traded == g.half.cells[p].traded + incoming.remainingQuantity - taker.remainingQuantity
    && PrintedAt(outTrades, trades, p, incoming.remainingQuantity - taker.remainingQuantity)
  }

  /** One turn of the inner loop of both matching functions: the front order of
      the best level of `side` is hit. A level is a reference into the price map
      in the original; here it is taken out, worked on, and put back. */
  method HitMaker(pool: Pool, ghost g: Shape, side: Side, p: Price, level: PriceLevel, incoming: Order,
                  outTrades: seq<Trade>)
    returns (pool': Pool, level': PriceLevel, taker: Order, trades: seq<Trade>, ghost g': Shape)
    requires Sound(side, pool, g) && p in g.half.levels && level == g.half.levels[p] && level.head != INVALID
    requires p in g.half.queues && p == Best(side, g.half.queues.Keys)
    requires incoming.remainingQuantity > 0 && Crosses(incoming, p) && incoming.side == Opposite(side)
    ensures Worked(side, p, pool, g, incoming, outTrades, pool', g', level', taker, trades)
    ensures |pool'.nodes| == |pool.nodes| && taker == incoming.(remainingQuantity := taker.remainingQuantity)
    ensures |g'.half.queues[p]| < |g.half.queues[p]| ||
            (taker.remainingQuantity == 0 && |g'.half.queues[p]| == |g.half.queues[p]|)
  {
    FrontSlot(pool.nodes, g.half, pool.index, p);
    ghost var queue := g.half.queues[p];
    assert Distinct(queue);
    var maker := pool.nodes[level.head].order;
    var quantity := MinQuantity(incoming.remainingQuantity, maker.remainingQuantity);
    trades := outTrades + [Trade(maker.orderId, incoming.orderId, maker.price, quantity, incoming.timestamp,
                                 Opposite(side))];
    PrintedOne(outTrades, TradeOf(incoming, maker, quantity));
    taker := incoming.(remainingQuantity := incoming.remainingQuantity - quantity);
    ghost var half, cell, queue', free;
    pool', level', half, cell, queue', free := Strike(pool, g.free, side, p, level, quantity, g.half);
    HitKeepsAgreement(side, g.half.queues, g.locations, p, quantity);
    HitLosesOnly(side, g.half.queues, g.locations, p);
    SameKeysWithout(pool.index, g.locations.Keys, queue[0].orderId);
    g' := Shape(free, half, if quantity == queue[0].remainingQuantity then g.locations - {queue[0].orderId}
                else g.locations);
    OnlyLevelQueues(g.half, half, p, level', cell, queue');
    OnlyLevelIsSameBut(g.half, half, p, level', cell, queue');
    HitFront(side, g.half.queues, p, incoming, quantity, outTrades, queue');
  }

  /** The inner loop, at the best level of `side`. */
  method FillLevel(pool: Pool, ghost g: Shape, side: Side, p: Price, level: PriceLevel, incoming: Order,
                   outTrades: seq<Trade>)
    returns (pool': Pool, level': PriceLevel, taker: Order, trades: seq<Trade>, ghost g': Shape)
    requires Sound(side, pool, g) && p in g.half.levels && level == g.half.levels[p]
    requires p in g.half.queues && p == Best(side, g.half.queues.Keys)
    requires Crosses(incoming, p) && incoming.side == Opposite(side)
    ensures Worked(side, p, pool, g, incoming, outTrades, pool', g', level', taker, trades)
    ensures level'.head == INVALID <==> g'.half.queues[p] == []
    ensures level'.head == INVALID || taker.remainingQuantity == 0
    ensures taker.remainingQuantity == 0 || g'.half.queues[p] == []
  {
    pool', level', taker, trades, g' := pool, level, incoming, outTrades, g;
    FrontSlot(pool'.nodes, g'.half, pool'.index, p);
    while level'.head != INVALID && taker.remainingQuantity > 0
      invariant Worked(side, p, pool, g, incoming, outTrades, pool', g', level', taker, trades)
      invariant level'.head == INVALID <==> g'.half.queues[p] == []
      decreases |g'.half.queues[p]|, taker.remainingQuantity
    {
      ghost var pool0, g0, level0, taker0, trades0 := pool', g', level', taker, trades;
      pool', level', taker, trades, g' := HitMaker(pool', g', side, p, level', taker, trades);
      WorkedTwice(side, p, pool, g, incoming, outTrades, pool0, g0, level0, taker0, trades0, pool', g', level', taker,
                  trades);
      FrontSlot(pool'.nodes, g'.half, pool'.index, p);
    }
  }

  lemma WorkedTwice(side: Side, p: Price, pool: Pool, g: Shape, incoming: Order, outTrades: seq<Trade>,
                    pool0: Pool, g0: Shape, level0: PriceLevel, taker0: Order, trades0: seq<Trade>,
                    pool': Pool, g': Shape, level': PriceLevel, taker: Order, trades: seq<Trade>)
    requires Worked(side, p, pool, g, incoming, outTrades, pool0, g0, level0, taker0, trades0)
    requires Worked(side, p, pool0, g0, taker0, trades0, pool', g', level', taker, trades)
    ensures Worked(side, p, pool, g, incoming, outTrades, pool', g', level', taker, trades)
  {
    LocalTwice(side, p, pool, g, pool0, g0, pool', g');
    PrintedTwice(outTrades, trades0, trades, p, incoming.remainingQuantity - taker0.remainingQuantity,
                 taker0.remainingQuantity - taker.remainingQuantity);
  }

  lemma PrintedTwice(a: seq<Trade>, b: seq<Trade>, c: seq<Trade>, p: Price, x: nat, y: nat)
    requires PrintedAt(a, b, p, x) && PrintedAt(b, c, p, y)
    ensures PrintedAt(a, c, p, x + y)
  {
  }

  lemma PrintedOne(trades: seq<Trade>, t: Trade)
    ensures PrintedAt(trades, trades + [t], t.price, t.quantity)
  {
  }

  /** The side that is not being worked on. */
  ghost predicate Bystander(side: Side, pool: Pool, locations: map<OrderId, Location>, other: Half) {
    HalfLinked(pool.nodes, other, pool.index) && Agree(Opposite(side), other.queues, locations)
  }

  lemma BystanderKept(side: Side, p: Price, pool: Pool, g: Shape, pool': Pool, g': Shape, other: Half)
    requires Bystander(side, pool, g.locations, other) && Local(side, p, pool, g, pool', g')
    ensures Bystander(side, pool', g'.locations, other)
  {
    OtherHalfKept(side, p, pool.nodes, pool'.nodes, other, pool.index, pool'.index);
    LostOnlyKeepsOther(side, other.queues, g.locations, g'.locations);
  }

  /** Every surviving level counts as traded what was printed at its price. */
  ghost predicate Accounted(g: Shape, trades: seq<Trade>, g': Shape, trades': seq<Trade>) {
    forall q :: q in g'.half.cells ==>
      && q in g.half.cells
      && g'.half.cells[q].traded + TradedAt(trades, q) == g.half.cells[q].traded + TradedAt(trades', q)
  }

  lemma SameKeys(nodes: seq<OrderNode>, half: Half, index: map<OrderId, Slot>)
    requires HalfLinked(nodes, half, index)
    ensures half.levels.Keys == half.queues.Keys == half.cells.Keys
    ensures half.levels == map[] <==> half.queues == map[]
    ensures forall p :: p in half.levels ==> half.levels[p].price == p
  {
  }

  /** The price map is the one the proof speaks of, and has no empty level. */
  ghost predicate Ready(side: Side, pool: Pool, levels: map<Price, PriceLevel>, g: Shape) {
    Sound(side, pool, g) && g.half.levels == levels && NoEmptyQueue(g.half.queues)
  }

  lemma ReadyAtBest(side: Side, pool: Pool, levels: map<Price, PriceLevel>, g: Shape)
    requires Ready(side, pool, levels, g) && levels != map[]
    ensures var p := Best(side, levels.Keys);
            p in g.half.queues && p == Best(side, g.half.queues.Keys) && levels[p].price == p
  {
    SameKeys(pool.nodes, g.half, pool.index);
  }

  /** The outer loop stops where the greedy matcher does. */
  lemma MatchingDone(side: Side, pool: Pool, levels: map<Price, PriceLevel>, g: Shape, taker: Order, trades: seq<Trade>,
                     goal: Fill)
    requires Ready(side, pool, levels, g) && taker.side == Opposite(side)
    requires levels == map[] || taker.remainingQuantity == 0
             || (taker.orderType.Limit? && var p := levels[Best(side, levels.Keys)].price;
                 if side.Sell? then taker.price < p else taker.price > p)
    requires Resume(trades, Greedy(taker, Flatten(side, g.half.queues))) == goal
    ensures goal == Fill(trades, Flatten(side, g.half.queues), taker)
  {
    SameKeys(pool.nodes, g.half, pool.index);
    MatchingStops(side, g.half.queues, taker, trades, goal);
  }

  lemma AccountedTwice(g: Shape, trades: seq<Trade>, g1: Shape, trades1: seq<Trade>, g2: Shape, trades2: seq<Trade>)
    requires Accounted(g, trades, g1, trades1) && Accounted(g1, trades1, g2, trades2)
    ensures Accounted(g, trades, g2, trades2)
  {
  }

  lemma LevelAccounted(p: Price, g: Shape, trades: seq<Trade>, g': Shape, trades': seq<Trade>, quantity: nat)
    requires SameBut(g.half, g'.half, p) && PrintedAt(trades, trades', p, quantity)
    requires p in g.half.cells && p in g'.half.cells && g'.half.cells[p].traded == g.half.cells[p].traded + quantity
    ensures Accounted(g, trades, g', trades')
  {
    forall q | q in g'.half.cells
      ensures q in g.half.cells
      ensures g'.half.cells[q].traded + TradedAt(trades, q) == g.half.cells[q].traded + TradedAt(trades', q)
    {
      if q != p {
        assert q in g'.half.cells - {p} && (g'.half.cells - {p})[q] == (g.half.cells - {p})[q];
      }
    }
  }

  /** A level was filled: the other levels of its side are as they were. */
  lemma LevelFilled(p: Price, g: Shape, g': Shape)
    requires NoEmptyQueue(g.half.queues) && SameBut(g.half, g'.half, p) && p in g.half.levels
    ensures p in g'.half.levels && g.half.levels[p := g'.half.levels[p]] == g'.half.levels
    ensures NoEmptyQueue(WithoutLevel(g'.half, p).queues)
    ensures p in g'.half.queues && g'.half.queues[p] != [] ==> NoEmptyQueue(g'.half.queues)
  {
    PutBack(g.half, g'.half, p);
    forall q | q in g'.half.queues && q != p ensures g'.half.queues[q] != [] {
      assert q in g'.half.queues - {p} && (g'.half.queues - {p})[q] == (g.half.queues - {p})[q];
    }
  }

  /** A level that ran empty is erased. */
  lemma LevelDropped(side: Side, p: Price, pool': Pool, g: Shape, trades: seq<Trade>, g': Shape, trades': seq<Trade>)
    requires Sound(side, pool', g') && p in g'.half.queues && g'.half.queues[p] == []
    requires Accounted(g, trades, g', trades')
    ensures var dropped := g'.(half := WithoutLevel(g'.half, p));
            && Sound(side, pool', dropped) && Accounted(g, trades, dropped, trades')
            && Flatten(side, dropped.half.queues) == Flatten(side, g'.half.queues)
            && |dropped.half.levels| < |g'.half.levels|
  {
    SameKeys(pool'.nodes, g'.half, pool'.index);
    DropLevel(pool'.nodes, g'.half, pool'.index, p);
    PrunedKeepsAgreement(side, g'.half.queues, g'.locations, p);
    SmallerWithout(g'.half.levels, p);
  }

  lemma SmallerWithout(levels: map<Price, PriceLevel>, p: Price)
    requires p in levels
    ensures |levels - {p}| < |levels|
  {
  }

  /** Part of the greedy match was done, and no more. */
  ghost predicate PartlyMatched(side: Side, pool: Pool, g: Shape, incoming: Order, outTrades: seq<Trade>,
                                pool': Pool, g': Shape, taker: Order, trades: seq<Trade>) {
    && Accounted(g, outTrades, g', trades) && |pool'.nodes| == |pool.nodes|
    && Resume(trades, Greedy(taker, Flatten(side, g'.half.queues)))
       == Resume(outTrades, Greedy(incoming, Flatten(side, g.half.queues)))
    && taker == incoming.(remainingQuantity := taker.remainingQuantity)
  }

  lemma MatchedFurther(side: Side, pool: Pool, g: Shape, incoming: Order, outTrades: seq<Trade>,
                       pool1: Pool, g1: Shape, taker1: Order, trades1: seq<Trade>,
                       pool2: Pool, g2: Shape, taker2: Order, trades2: seq<Trade>)
    requires PartlyMatched(side, pool, g, incoming, outTrades, pool1, g1, taker1, trades1)
    requires PartlyMatched(side, pool1, g1, taker1, trades1, pool2, g2, taker2, trades2)
    ensures PartlyMatched(side, pool, g, incoming, outTrades, pool2, g2, taker2, trades2)
  {
    AccountedTwice(g, outTrades, g1, trades1, g2, trades2);
  }

  /** One pass of the outer loop: fill the best level, and erase it if it ran empty. */
  method FillBest(pool: Pool, levels: map<Price, PriceLevel>, ghost g: Shape, ghost other: Half, side: Side, p: Price,
                  incoming: Order, outTrades: seq<Trade>)
    returns (pool': Pool, levels': map<Price, PriceLevel>, taker: Order, trades: seq<Trade>, ghost g': Shape)
    requires Ready(side, pool, levels, g) && p in levels && p in g.half.queues && p == Best(side, g.half.queues.Keys)
    requires Crosses(incoming, p) && incoming.side == Opposite(side) && Bystander(side, pool, g.locations, other)
    ensures Ready(side, pool', levels', g') && Bystander(side, pool', g'.locations, other)
    ensures PartlyMatched(side, pool, g, incoming, outTrades, pool', g', taker, trades)
    ensures taker.remainingQuantity <= incoming.remainingQuantity
    ensures |levels'| < |levels| || (|levels'| == |levels| && taker.remainingQuantity == 0)
  {
    var level := levels[p];
    pool', level, taker, trades, g' := FillLevel(pool, g, side, p, level, incoming, outTrades);
    BystanderKept(side, p, pool, g, pool', g', other);
    LevelAccounted(p, g, outTrades, g', trades, incoming.remainingQuantity - taker.remainingQuantity);
    LevelFilled(p, g, g');
    levels' := levels[p := level];
    if level.head == INVALID {
      LevelDropped(side, p, pool', g, outTrades, g', trades);
      levels' := levels' - {p};
      g' := g'.(half := WithoutLevel(g'.half, p));
    }
  }

  /** The incoming order finds nothing to trade with on this side. */
  predicate Idle(side: Side, levels: map<Price, PriceLevel>, incoming: Order) {
    levels == map[] || !Crosses(incoming, Best(side, levels.Keys))
  }

  method MatchBuy(pool: Pool, asks: map<Price, PriceLevel>, ghost g: Shape, ghost other: Half, incoming: Order,
                  outTrades: seq<Trade>)
    returns (pool': Pool, asks': map<Price, PriceLevel>, taker: Order, trades: seq<Trade>, ghost g': Shape)
    requires Ready(Sell, pool, asks, g) && Bystander(Sell, pool, g.locations, other) && incoming.side.Buy?
    ensures Ready(Sell, pool', asks', g') && Bystander(Sell, pool', g'.locations, other)
    ensures Idle(Sell, asks, incoming) ==> pool' == pool && asks' == asks && g' == g
    ensures Accounted(g, outTrades, g', trades) && |pool'.nodes| == |pool.nodes|
    ensures Resume(outTrades, Greedy(incoming, Flatten(Sell, g.half.queues)))
         == Fill(trades, Flatten(Sell, g'.half.queues), taker)
  {
    pool', asks', taker, trades, g' := pool, asks, incoming, outTrades, g;
    while asks' != map[] && taker.remainingQuantity > 0
      invariant Ready(Sell, pool', asks', g') && Bystander(Sell, pool', g'.locations, other)
      invariant Idle(Sell, asks, incoming) ==> pool' == pool && asks' == asks && g' == g && taker == incoming
      invariant PartlyMatched(Sell, pool, g, incoming, outTrades, pool', g', taker, trades)
      decreases |asks'|, taker.remainingQuantity
    {
      var bestAsk := Best(Sell, asks'.Keys);
      ReadyAtBest(Sell, pool', asks', g');
      if taker.orderType.Limit? && taker.price < asks'[bestAsk].price {
        break;
      }
      ghost var pool1, g1, taker1, trades1 := pool', g', taker, trades;
      pool', asks', taker, trades, g' := FillBest(pool', asks', g', other, Sell, bestAsk, taker, trades);
      MatchedFurther(Sell, pool, g, incoming, outTrades, pool1, g1, taker1, trades1, pool', g', taker, trades);
    }
    MatchingDone(Sell, pool', asks', g', taker, trades,
                 Resume(outTrades, Greedy(incoming, Flatten(Sell, g.half.queues))));
  }

  method MatchSell(pool: Pool, bids: map<Price, PriceLevel>, ghost g: Shape, ghost other: Half, incoming: Order,
                   outTrades: seq<Trade>)
    returns (pool': Pool, bids': map<Price, PriceLevel>, taker: Order, trades: seq<Trade>, ghost g': Shape)
    requires Ready(Buy, pool, bids, g) && Bystander(Buy, pool, g.locations, other) && incoming.side.Sell?
    ensures Ready(Buy, pool', bids', g') && Bystander(Buy, pool', g'.locations, other)
    ensures Idle(Buy, bids, incoming) ==> pool' == pool && bids' == bids && g' == g
    ensures Accounted(g, outTrades, g', trades) && |pool'.nodes| == |pool.nodes|
    ensures Resume(outTrades, Greedy(incoming, Flatten(Buy, g.half.queues)))
         == Fill(trades, Flatten(Buy, g'.half.queues), taker)
  {
    pool', bids', taker, trades, g' := pool, bids, incoming, outTrades, g;
    while bids' != map[] && taker.remainingQuantity > 0
      invariant Ready(Buy, pool', bids', g') && Bystander(Buy, pool', g'.locations, other)
      invariant Idle(Buy, bids, incoming) ==> pool' == pool && bids' == bids && g' == g && taker == incoming
      invariant PartlyMatched(Buy, pool, g, incoming, outTrades, pool', g', taker, trades)
      decreases |bids'|, taker.remainingQuantity
    {
      var bestBid := Best(Buy, bids'.Keys);
      ReadyAtBest(Buy, pool', bids', g');
      if taker.orderType.Limit? && taker.price > bids'[bestBid].price {
        break;
      }
      ghost var pool1, g1, taker1, trades1 := pool', g', taker, trades;
      pool', bids', taker, trades, g' := FillBest(pool', bids', g', other, Buy, bestBid, taker, trades);
      MatchedFurther(Buy, pool, g, incoming, outTrades, pool1, g1, taker1, trades1, pool', g', taker, trades);
    }
    MatchingDone(Buy, pool', bids', g', taker, trades,
                 Resume(outTrades, Greedy(incoming, Flatten(Buy, g.half.queues))));
  }

  // ----------------------------------------------------------------- resting

  /** The cell and queue of a level, empty if there is none yet. */
  function CellAt(half: Half, p: Price): Cell {
    if p in half.cells then half.cells[p] else Cell([], 0)
  }

  /** The leftover of a limit order joins the queue at its price. */
  method RestOrder(pool: Pool, levels: map<Price, PriceLevel>, ghost g: Shape, ghost other: Half, order: Order)
    returns (pool': Pool, levels': map<Price, PriceLevel>, ghost g': Shape)
    requires Ready(order.side, pool, levels, g) && Bystander(order.side, pool, g.locations, other)
    requires order.orderId !in pool.index && (g.free == [] ==> Grown(|pool.nodes|) <= INVALID)
    ensures Ready(order.side, pool', levels', g') && Bystander(order.side, pool', g'.locations, other)
    ensures g'.half.queues == g.half.queues[order.price := QueueAt(g.half.queues, order.price) + [order]]
    ensures |pool'.nodes| == if g.free == [] then Grown(|pool.nodes|) else |pool.nodes|
    ensures g'.free == Available(|pool.nodes|, g.free)[1..]
    ensures pool'.index == pool.index[order.orderId := Available(|pool.nodes|, g.free)[0]]
    ensures var cell, slot := CellAt(g.half, order.price), Available(|pool.nodes|, g.free)[0];
            g'.half.cells == g.half.cells[order.price := Cell(cell.chain + [slot], cell.traded)]
  {
    var side, p := order.side, order.price;
    ghost var cell, queue := CellAt(g.half, p), QueueAt(g.half.queues, p);
    var taken, idx := AllocateNode(pool, order, g.free);
    ghost var free := Available(|pool.nodes|, g.free)[1..];
    assert Allocated(pool.nodes, taken.nodes, pool.index, idx, order);
    AllocationKeepsHalf(pool.nodes, taken.nodes, g.half, pool.index, idx, order);
    AllocationKeepsHalf(pool.nodes, taken.nodes, other, pool.index, idx, order);
    LevelToJoin(side, taken.nodes, g.half, taken.index, p);
    var level := if p in levels then levels[p] else NEW_LEVEL;
    level := level.(price := p);
    var nodes;
    nodes, level := AppendToLevel(taken.nodes, level, idx, p, cell, queue);
    pool' := Pool(nodes, taken.freeHead, pool.index[order.orderId := idx]);
    levels' := levels[p := level];
    g' := Shape(free, WithLevel(g.half, p, level, Cell(cell.chain + [idx], cell.traded), queue + [order]),
                g.locations[order.orderId := Location(side, p)]);
    RestedLinks(side, taken, g.half, other, p, idx, nodes, free, level);
    RestedQueues(side, g.half.queues, other.queues, g.locations, pool.index, order, idx);
  }

  lemma LevelToJoin(side: Side, nodes: seq<OrderNode>, half: Half, index: map<OrderId, Slot>, p: Price)
    requires HalfLinked(nodes, half, index)
    requires forall q :: q in half.queues ==> Distinct(half.queues[q])
    ensures p in half.levels <==> p in half.cells
    ensures LevelOk(nodes, (if p in half.levels then half.levels[p] else NEW_LEVEL).(price := p), p, CellAt(half, p),
                    QueueAt(half.queues, p))
    ensures DistinctSlots(CellAt(half, p).chain) && AllLive(nodes, CellAt(half, p).chain, index)
  {
    if p in half.cells {
      assert Distinct(half.queues[p]);
      DistinctOrdersDistinctSlots(nodes, half.cells[p].chain, half.queues[p]);
    }
  }

  /** The links after a slot joined a level. */
  lemma RestedLinks(side: Side, pool: Pool, half: Half, other: Half, p: Price, idx: Slot, nodes: seq<OrderNode>,
                    free: seq<Slot>, level: PriceLevel)
    requires HalfLinked(pool.nodes, half, pool.index) && Priced(side, half.queues)
    requires HalfLinked(pool.nodes, other, pool.index) && Priced(Opposite(side), other.queues)
    requires idx < |pool.nodes| && pool.nodes[idx].order.orderId !in pool.index
    requires FreeList(pool.nodes, pool.freeHead, free)
    requires Covered(pool.nodes, free, pool.index[pool.nodes[idx].order.orderId := idx])
    requires Hooked(pool.nodes, nodes, CellAt(half, p).chain, idx)
    requires AllLive(pool.nodes, CellAt(half, p).chain, pool.index)
    requires LevelOk(nodes, level, p, Cell(CellAt(half, p).chain + [idx], CellAt(half, p).traded),
                     QueueAt(half.queues, p) + [pool.nodes[idx].order])
    ensures var index' := pool.index[pool.nodes[idx].order.orderId := idx];
            && HalfLinked(nodes, WithLevel(half, p, level, Cell(CellAt(half, p).chain + [idx], CellAt(half, p).traded),
                                           QueueAt(half.queues, p) + [pool.nodes[idx].order]), index')
            && HalfLinked(nodes, other, index')
            && FreeList(nodes, pool.freeHead, free) && Covered(nodes, free, index')
  {
    var cell, order := CellAt(half, p), pool.nodes[idx].order;
    var index' := pool.index[order.orderId := idx];
    HookIsLocal(side, pool.nodes, nodes, half, pool.index, p, cell.chain, idx);
    HookedAreLive(pool.nodes, nodes, cell.chain, pool.index, idx);
    HookKeepsFree(pool.nodes, nodes, cell.chain, idx, pool.freeHead, free, pool.index);
    RewireLevel(side, pool.nodes, nodes, half, pool.index, index', p, level,
                Cell(cell.chain + [idx], cell.traded), QueueAt(half.queues, p) + [order]);
    OtherHalfKept(side, p, pool.nodes, nodes, other, pool.index, index');
  }

  /** The queues after an order joined the one at its price. */
  lemma RestedQueues(side: Side, queues: Levels, other: Levels, locations: map<OrderId, Location>,
                     index: map<OrderId, Slot>,
                     order: Order, idx: Slot)
    requires Agree(side, queues, locations) && Agree(Opposite(side), other, locations) && NoEmptyQueue(queues)
    requires order.side == side && order.orderId !in index && locations.Keys == index.Keys
    ensures var locations' := locations[order.orderId := Location(side, order.price)];
            && Agree(side, queues[order.price := QueueAt(queues, order.price) + [order]], locations')
            && Agree(Opposite(side), other, locations')
            && NoEmptyQueue(queues[order.price := QueueAt(queues, order.price) + [order]])
            && locations'.Keys == index[order.orderId := idx].Keys
  {
    AppendKeepsAgreement(side, queues, locations, order);
    AppendElsewhereKeepsAgreement(Opposite(side), other, locations, order);
  }

  // -------------------------------------------------------------- cancelling

  /** Where the index leads: the order rests at its own side and price. */
  lemma IndexLeads(side: Side, pool: Pool, levels: map<Price, PriceLevel>, g: Shape, other: Half, id: OrderId)
    returns (k: nat)
    requires Ready(side, pool, levels, g) && Bystander(side, pool, g.locations, other)
    requires id in pool.index && pool.index[id] < |pool.nodes| && pool.nodes[pool.index[id]].order.side == side
    ensures var order := pool.nodes[pool.index[id]].order;
            && order.orderId == id && g.locations[id] == Location(side, order.price)
            && order.price in levels && order.price in g.half.cells && order.price in g.half.queues
            && k < |g.half.cells[order.price].chain| == |g.half.queues[order.price]|
            && g.half.cells[order.price].chain[k] == pool.index[id]
            && g.half.queues[order.price][k] == order
  {
    var at := g.locations[id];
    var half := if at.side == side then g.half else other;
    assert at.price in half.queues && id in Ids(half.queues[at.price]);
    k := IdsIndex(half.queues[at.price], id);
    assert half.queues[at.price][k].side == at.side;
    ChainSlot(at.side, pool.nodes, half, pool.index, at.price, k);
  }

  /** The cancelled order leaves its level, and an emptied level its price map. */
  method EraseOrder(pool: Pool, levels: map<Price, PriceLevel>, ghost g: Shape, ghost other: Half, side: Side,
                    id: OrderId)
    returns (pool': Pool, levels': map<Price, PriceLevel>, ghost g': Shape)
    requires Ready(side, pool, levels, g) && Bystander(side, pool, g.locations, other)
    requires id in pool.index && pool.index[id] < |pool.nodes| && pool.nodes[pool.index[id]].order.side == side
    ensures Ready(side, pool', levels', g') && Bystander(side, pool', g'.locations, other)
    ensures Flatten(side, g'.half.queues) == Remove(Flatten(side, g.half.queues), id)
    ensures |pool'.nodes| == |pool.nodes| && pool'.index == pool.index - {id}
    ensures g'.free == [pool.index[id]] + g.free
    ensures Accounted(g, [], g', [])
  {
    ghost var k := IndexLeads(side, pool, levels, g, other, id);
    var idx := pool.index[id];
    var p := pool.nodes[idx].order.price;
    ghost var queue := g.half.queues[p];
    assert Distinct(queue);
    RemoveAt(queue, k);
    pool', levels', g' := pool, levels, g;
    if p in levels {
      var level;
      ghost var half;
      pool', level, half := Release(pool, g.free, side, p, levels[p], idx, g.half, k);
      levels' := levels[p := level];
      g' := Shape([idx] + g.free, half, g.locations - {id});
      Erased(side, p, pool, levels, g, other, pool', g', id, level);
      FrontSlot(pool'.nodes, half, pool'.index, p);
      if level.head == INVALID {
        LevelDropped(side, p, pool', g, [], g', []);
        levels' := levels' - {p};
        g' := g'.(half := WithoutLevel(half, p));
      }
    }
  }

  lemma Erased(side: Side, p: Price, pool: Pool, levels: map<Price, PriceLevel>, g: Shape, other: Half, pool': Pool,
               g': Shape,
               id: OrderId, level: PriceLevel)
    requires Ready(side, pool, levels, g) && Bystander(side, pool, g.locations, other)
    requires id in g.locations && g.locations[id] == Location(side, p) && p in levels
    requires p in g.half.cells && p in g.half.queues && p in g'.half.cells
    requires OnlyLevel(g.half, g'.half, p, level, g'.half.cells[p], Remove(g.half.queues[p], id))
    requires g'.half.cells[p].traded == g.half.cells[p].traded
    requires ChangedOnlyAt(pool.nodes, pool'.nodes, pool.index, pool'.index, side, p)
    requires g'.locations == g.locations - {id} && pool'.index == pool.index - {id}
    ensures Agree(side, g'.half.queues, g'.locations) && Bystander(side, pool', g'.locations, other)
    ensures Flatten(side, g'.half.queues) == Remove(Flatten(side, g.half.queues), id)
    ensures g'.locations.Keys == pool'.index.Keys
    ensures Accounted(g, [], g', [])
    ensures levels[p := level] == g'.half.levels
    ensures NoEmptyQueue(WithoutLevel(g'.half, p).queues)
    ensures p in g'.half.queues && (g'.half.queues[p] != [] ==> NoEmptyQueue(g'.half.queues))
  {
    var queue := Remove(g.half.queues[p], id);
    OnlyLevelQueues(g.half, g'.half, p, level, g'.half.cells[p], queue);
    OnlyLevelIsSameBut(g.half, g'.half, p, level, g'.half.cells[p], queue);
    EraseKeepsAgreement(side, g.half.queues, g.locations, id);
    EraseFlattens(side, g.half.queues, g.locations, id);
    OtherHalfKept(side, p, pool.nodes, pool'.nodes, other, pool.index, pool'.index);
    OtherSideKeepsAgreement(Opposite(side), other.queues, g.locations, id);
    LevelAccounted(p, g, [], g', [], 0);
    LevelFilled(p, g, g');
  }
}
