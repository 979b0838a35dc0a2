/** The shape of the pool: slots of one node array are threaded into a free
    list and one doubly linked list per price level. Everything here is about
    values; the engine itself is in `PoolOrderBook.dfy`. */
module PoolShape {
  import opened Types
  import opened Book
  import opened Queues
  import opened Levels

  /** `INVALID_IDX`, the null value of the 32-bit slot indices. */
  const INVALID: nat := 0xFFFF_FFFF

  type Slot = n: nat | n < 0x1_0000_0000

  datatype OrderNode = OrderNode(order: Order, prev: Slot, next: Slot)

  const DEFAULT_NODE: OrderNode := OrderNode(Order(0, 0, 0, 0, 0, Buy, Limit), INVALID, INVALID)

  datatype PriceLevel = PriceLevel(price: Price, totalVolume: Quantity, orderCount: Slot, head: Slot, tail: Slot)

  const NEW_LEVEL: PriceLevel := PriceLevel(0, 0, 0, INVALID, INVALID)

  /** What a level stands for: its slots in queue order, and the quantity traded
      against it since it was created. */
  datatype Cell = Cell(chain: seq<Slot>, traded: nat)

  // ----------------------------------------------------------------- chains

  function Head(chain: seq<Slot>): Slot {
    if chain == [] then INVALID else chain[0]
  }

  function Tail(chain: seq<Slot>): Slot {
    if chain == [] then INVALID else chain[|chain| - 1]
  }

  function PrevOf(chain: seq<Slot>, k: nat): Slot
    requires k < |chain|
  {
    if k == 0 then INVALID else chain[k - 1]
  }

  function NextOf(chain: seq<Slot>, k: nat): Slot
    requires k < |chain|
  {
    if k + 1 == |chain| then INVALID else chain[k + 1]
  }

  ghost predicate DistinctSlots(chain: seq<Slot>) {
    forall j, k :: 0 <= j < k < |chain| ==> chain[j] != chain[k]
  }

  /** Slot number `k` of the chain holds order number `k` of the queue. */
  ghost predicate LinkAt(nodes: seq<OrderNode>, chain: seq<Slot>, queue: seq<Order>, k: nat)
    requires k < |chain| == |queue|
  {
    && chain[k] < |nodes|
    && nodes[chain[k]] == OrderNode(queue[k], PrevOf(chain, k), NextOf(chain, k))
  }

  ghost predicate Linked(nodes: seq<OrderNode>, chain: seq<Slot>, queue: seq<Order>) {
    |chain| == |queue| && forall k :: 0 <= k < |chain| ==> LinkAt(nodes, chain, queue, k)
  }

  ghost predicate FreeAt(nodes: seq<OrderNode>, chain: seq<Slot>, k: nat)
    requires k < |chain|
  {
    chain[k] < |nodes| && nodes[chain[k]].next == NextOf(chain, k)
  }

  /** The free list: singly linked through `next`. */
  ghost predicate FreeList(nodes: seq<OrderNode>, head: Slot, chain: seq<Slot>) {
    && head == Head(chain)
    && DistinctSlots(chain)
    && forall k :: 0 <= k < |chain| ==> FreeAt(nodes, chain, k)
  }

  /** A level's fields describe its queue. The cached volume is the live quantity
      plus everything traded since the level was created, modulo 2^32. */
  ghost predicate LevelOk(nodes: seq<OrderNode>, level: PriceLevel, p: Price, cell: Cell, queue: seq<Order>) {
    match cell
    case Cell(chain, traded) =>
      && level == PriceLevel(p, Wrap32(Volume(queue) + traded), Wrap32(|queue|), Head(chain), Tail(chain))
      && Linked(nodes, chain, queue)
  }

  // -------------------------------------------------------------- the index

  /** The order in slot `i` is the one the index leads to. */
  ghost predicate Live(nodes: seq<OrderNode>, index: map<OrderId, Slot>, i: Slot) {
    i < |nodes| && nodes[i].order.orderId in index && index[nodes[i].order.orderId] == i
  }

  ghost predicate AllLive(nodes: seq<OrderNode>, chain: seq<Slot>, index: map<OrderId, Slot>) {
    forall k :: 0 <= k < |chain| ==> Live(nodes, index, chain[k])
  }

  /** One side of the pool: its price map, and what its levels stand for. */
  datatype Half = Half(levels: map<Price, PriceLevel>, cells: map<Price, Cell>, queues: Levels)

  ghost predicate HalfLinked(nodes: seq<OrderNode>, half: Half, index: map<OrderId, Slot>) {
    match half
    case Half(levels, cells, queues) =>
      && levels.Keys == cells.Keys == queues.Keys
      && forall p :: p in cells ==>
           LevelOk(nodes, levels[p], p, cells[p], queues[p]) && AllLive(nodes, cells[p].chain, index)
  }

  function WithLevel(half: Half, p: Price, level: PriceLevel, cell: Cell, queue: seq<Order>): Half {
    Half(half.levels[p := level], half.cells[p := cell], half.queues[p := queue])
  }

  function WithoutLevel(half: Half, p: Price): Half {
    Half(half.levels - {p}, half.cells - {p}, half.queues - {p})
  }

  /** `after` is `before` with the level at `p` worked on. */
  ghost predicate OnlyLevel(before: Half, after: Half, p: Price, level: PriceLevel, cell: Cell, queue: seq<Order>) {
    && after.levels == before.levels[p := level]
    && after.cells.Keys == before.cells.Keys + {p} && after.cells - {p} == before.cells - {p} && after.cells[p] == cell
    && after.queues.Keys == before.queues.Keys + {p} && after.queues - {p} == before.queues - {p}
    && after.queues[p] == queue
  }

  lemma WithLevelIsOnlyLevel(half: Half, p: Price, level: PriceLevel, cell: Cell, queue: seq<Order>)
    ensures OnlyLevel(half, WithLevel(half, p, level, cell, queue), p, level, cell, queue)
  {
  }

  lemma OnlyLevelTwice(a: Half, b: Half, c: Half, p: Price, level: PriceLevel, cell: Cell, queue: seq<Order>,
                       level': PriceLevel, cell': Cell, queue': seq<Order>)
    requires OnlyLevel(a, b, p, level, cell, queue) && OnlyLevel(b, c, p, level', cell', queue')
    ensures OnlyLevel(a, c, p, level', cell', queue')
  {
  }

  lemma OnlyLevelQueues(before: Half, after: Half, p: Price, level: PriceLevel, cell: Cell, queue: seq<Order>)
    requires OnlyLevel(before, after, p, level, cell, queue)
    ensures after.queues == before.queues[p := queue]
  {
    forall q | q in after.queues && q != p ensures q in before.queues && after.queues[q] == before.queues[q] {
      assert q in after.queues - {p} && (after.queues - {p})[q] == (before.queues - {p})[q];
    }
  }

  /** The two halves differ at the level `p` only. */
  ghost predicate SameBut(before: Half, after: Half, p: Price) {
    && after.levels.Keys == before.levels.Keys && after.levels - {p} == before.levels - {p}
    && after.cells.Keys == before.cells.Keys && after.cells - {p} == before.cells - {p}
    && after.queues.Keys == before.queues.Keys && after.queues - {p} == before.queues - {p}
  }

  lemma OnlyLevelIsSameBut(before: Half, after: Half, p: Price, level: PriceLevel, cell: Cell, queue: seq<Order>)
    requires OnlyLevel(before, after, p, level, cell, queue)
    requires p in before.levels && p in before.cells && p in before.queues
    ensures SameBut(before, after, p) && after.levels[p] == level
  {
  }

  lemma PutBack(before: Half, after: Half, p: Price)
    requires SameBut(before, after, p) && p in before.levels
    ensures p in after.levels && before.levels[p := after.levels[p]] == after.levels
  {
    forall q | q in before.levels && q != p ensures q in after.levels && after.levels[q] == before.levels[q] {
      assert q in after.levels - {p} && (after.levels - {p})[q] == (before.levels - {p})[q];
    }
  }

  /** Every slot is either on the free list or holds the order its id leads to. */
  ghost predicate Covered(nodes: seq<OrderNode>, free: seq<Slot>, index: map<OrderId, Slot>) {
    && (forall i: Slot :: i < |nodes| ==> (i in free <==> !Live(nodes, index, i)))
    && (forall id :: id in index ==> index[id] < |nodes| && nodes[index[id]].order.orderId == id)
    && |free| + |index| == |nodes|
  }

  // ------------------------------------------------------ one level at a time

  /** The slots of the chain did not change, and the index still leads to them. */
  ghost predicate Kept(nodes: seq<OrderNode>, nodes': seq<OrderNode>, chain: seq<Slot>, index': map<OrderId, Slot>) {
    forall k :: 0 <= k < |chain| && chain[k] < |nodes| ==>
      chain[k] < |nodes'| && nodes'[chain[k]] == nodes[chain[k]] && Live(nodes', index', chain[k])
  }

  lemma KeptLevel(nodes: seq<OrderNode>, nodes': seq<OrderNode>, level: PriceLevel, p: Price, cell: Cell,
                  queue: seq<Order>,
                  index': map<OrderId, Slot>)
    requires LevelOk(nodes, level, p, cell, queue) && Kept(nodes, nodes', cell.chain, index')
    ensures LevelOk(nodes', level, p, cell, queue) && AllLive(nodes', cell.chain, index')
  {
    forall k | 0 <= k < |cell.chain|
      ensures LinkAt(nodes', cell.chain, queue, k) && Live(nodes', index', cell.chain[k])
    {
      assert LinkAt(nodes, cell.chain, queue, k);
    }
  }

  lemma ReplaceLevel(nodes: seq<OrderNode>, nodes': seq<OrderNode>, half: Half, index: map<OrderId, Slot>,
                     index': map<OrderId, Slot>,
                     p: Price, level': PriceLevel, cell': Cell, queue': seq<Order>)
    requires HalfLinked(nodes, half, index)
    requires forall q :: q in half.cells && q != p ==> Kept(nodes, nodes', half.cells[q].chain, index')
    requires LevelOk(nodes', level', p, cell', queue') && AllLive(nodes', cell'.chain, index')
    ensures HalfLinked(nodes', WithLevel(half, p, level', cell', queue'), index')
  {
    forall q | q in half.cells && q != p
      ensures LevelOk(nodes', half.levels[q], q, half.cells[q], half.queues[q])
      ensures AllLive(nodes', half.cells[q].chain, index')
    {
      KeptLevel(nodes, nodes', half.levels[q], q, half.cells[q], half.queues[q], index');
    }
  }

  lemma KeepHalf(nodes: seq<OrderNode>, nodes': seq<OrderNode>, half: Half, index: map<OrderId, Slot>,
                 index': map<OrderId, Slot>)
    requires HalfLinked(nodes, half, index)
    requires forall q :: q in half.cells ==> Kept(nodes, nodes', half.cells[q].chain, index')
    ensures HalfLinked(nodes', half, index')
  {
    forall q | q in half.cells
      ensures LevelOk(nodes', half.levels[q], q, half.cells[q], half.queues[q])
      ensures AllLive(nodes', half.cells[q].chain, index')
    {
      KeptLevel(nodes, nodes', half.levels[q], q, half.cells[q], half.queues[q], index');
    }
  }

  lemma DropLevel(nodes: seq<OrderNode>, half: Half, index: map<OrderId, Slot>, p: Price)
    requires HalfLinked(nodes, half, index)
    ensures HalfLinked(nodes, WithoutLevel(half, p), index)
  {
  }

  /** The front slot of a level that is not empty. */
  lemma FrontSlot(nodes: seq<OrderNode>, half: Half, index: map<OrderId, Slot>, p: Price)
    requires HalfLinked(nodes, half, index) && p in half.levels && |nodes| <= INVALID
    ensures p in half.cells && p in half.queues && |half.cells[p].chain| == |half.queues[p]|
    ensures half.levels[p].head == INVALID <==> half.queues[p] == []
    ensures half.queues[p] != [] ==>
      var i := half.levels[p].head;
      i < |nodes| && i == half.cells[p].chain[0] && nodes[i].order == half.queues[p][0]
  {
    if half.queues[p] != [] {
      assert LinkAt(nodes, half.cells[p].chain, half.queues[p], 0);
    }
  }

  /** Between `nodes` and `nodes'` only dead slots and slots holding orders of
      `side` at price `p` changed, and the index lost only such orders. */
  ghost predicate ChangedOnlyAt(nodes: seq<OrderNode>, nodes': seq<OrderNode>, index: map<OrderId, Slot>,
                                index': map<OrderId, Slot>, side: Side, p: Price) {
    forall i: Slot :: Live(nodes, index, i) ==>
      || (nodes[i].order.side == side && nodes[i].order.price == p)
      || (i < |nodes'| && nodes'[i] == nodes[i] && Live(nodes', index', i))
  }

  lemma ChangedOnlyAtTwice(nodes: seq<OrderNode>, nodes': seq<OrderNode>, nodes'': seq<OrderNode>,
                           index: map<OrderId, Slot>,
                           index': map<OrderId, Slot>, index'': map<OrderId, Slot>, side: Side, p: Price)
    requires ChangedOnlyAt(nodes, nodes', index, index', side, p)
    requires ChangedOnlyAt(nodes', nodes'', index', index'', side, p)
    ensures ChangedOnlyAt(nodes, nodes'', index, index'', side, p)
  {
  }

  /** Slot number `k` of a level. */
  lemma ChainSlot(side: Side, nodes: seq<OrderNode>, half: Half, index: map<OrderId, Slot>, p: Price, k: nat)
    requires HalfLinked(nodes, half, index) && Priced(side, half.queues)
    requires p in half.cells && k < |half.cells[p].chain|
    ensures p in half.queues && |half.queues[p]| == |half.cells[p].chain|
    ensures var i := half.cells[p].chain[k];
            Live(nodes, index, i) && nodes[i].order == half.queues[p][k]
            && nodes[i].order.side == side && nodes[i].order.price == p
  {
    var order := half.queues[p][k];
    assert LinkAt(nodes, half.cells[p].chain, half.queues[p], k);
  }

  lemma KeptElsewhere(nodes: seq<OrderNode>, nodes': seq<OrderNode>, half: Half,
                      index: map<OrderId, Slot>, index': map<OrderId, Slot>, at: Side, side: Side, p: Price)
    requires HalfLinked(nodes, half, index) && Priced(at, half.queues)
    requires ChangedOnlyAt(nodes, nodes', index, index', side, p)
    ensures forall q :: q in half.cells && (at != side || q != p) ==> Kept(nodes, nodes', half.cells[q].chain, index')
  {
    forall q | q in half.cells && (at != side || q != p) ensures Kept(nodes, nodes', half.cells[q].chain, index') {
      var chain := half.cells[q].chain;
      forall k | 0 <= k < |chain|
        ensures chain[k] < |nodes'| && chain[k] < |nodes| && nodes'[chain[k]] == nodes[chain[k]]
        ensures Live(nodes', index', chain[k])
      {
        ChainSlot(at, nodes, half, index, q, k);
      }
    }
  }

  /** One level of a side was rewired. */
  lemma RewireLevel(side: Side, nodes: seq<OrderNode>, nodes': seq<OrderNode>, half: Half,
                    index: map<OrderId, Slot>, index': map<OrderId, Slot>,
                    p: Price, level': PriceLevel, cell': Cell, queue': seq<Order>)
    requires HalfLinked(nodes, half, index) && Priced(side, half.queues)
    requires ChangedOnlyAt(nodes, nodes', index, index', side, p)
    requires LevelOk(nodes', level', p, cell', queue') && AllLive(nodes', cell'.chain, index')
    ensures HalfLinked(nodes', WithLevel(half, p, level', cell', queue'), index')
  {
    KeptElsewhere(nodes, nodes', half, index, index', side, side, p);
    ReplaceLevel(nodes, nodes', half, index, index', p, level', cell', queue');
  }

  /** The other side did not notice. */
  lemma OtherHalfKept(side: Side, p: Price, nodes: seq<OrderNode>, nodes': seq<OrderNode>, half: Half,
                      index: map<OrderId, Slot>, index': map<OrderId, Slot>)
    requires HalfLinked(nodes, half, index) && Priced(Opposite(side), half.queues)
    requires ChangedOnlyAt(nodes, nodes', index, index', side, p)
    ensures HalfLinked(nodes', half, index')
  {
    KeptElsewhere(nodes, nodes', half, index, index', Opposite(side), side, p);
    KeepHalf(nodes, nodes', half, index, index');
  }

  /** Distinct orders sit in distinct slots. */
  lemma DistinctOrdersDistinctSlots(nodes: seq<OrderNode>, chain: seq<Slot>, queue: seq<Order>)
    requires Linked(nodes, chain, queue) && Distinct(queue)
    ensures DistinctSlots(chain)
  {
    forall j, k | 0 <= j < k < |chain| ensures chain[j] != chain[k] {
      assert LinkAt(nodes, chain, queue, j) && LinkAt(nodes, chain, queue, k);
    }
  }

  // ------------------------------------------------- linking and unlinking

  /** `nodes'` is `nodes` after slot `chain[k]` was bypassed by its neighbours. */
  ghost predicate Bypassed(nodes: seq<OrderNode>, nodes': seq<OrderNode>, chain: seq<Slot>, k: nat)
    requires k < |chain|
  {
    && |nodes'| == |nodes|
    && forall i: Slot :: i < |nodes| ==>
         nodes'[i] == if k > 0 && i == chain[k - 1] then nodes[i].(next := NextOf(chain, k))
                      else if k + 1 < |chain| && i == chain[k + 1] then nodes[i].(prev := PrevOf(chain, k))
                      else nodes[i]
  }

  function Without<T>(s: seq<T>, k: nat): seq<T>
    requires k < |s|
  {
    s[..k] + s[k + 1..]
  }

  lemma WithoutAt<T>(s: seq<T>, k: nat, j: nat)
    requires k < |s| && j < |s| - 1
    ensures Without(s, k)[j] == s[if j < k then j else j + 1]
  {
  }

  lemma BypassLinkAt(nodes: seq<OrderNode>, nodes': seq<OrderNode>, chain: seq<Slot>, queue: seq<Order>, k: nat, j: nat)
    requires Linked(nodes, chain, queue) && DistinctSlots(chain) && k < |chain| && j < |chain| - 1
    requires Bypassed(nodes, nodes', chain, k)
    ensures LinkAt(nodes', Without(chain, k), Without(queue, k), j)
  {
    var i := if j < k then j else j + 1;
    WithoutAt(chain, k, j);
    WithoutAt(queue, k, j);
    assert LinkAt(nodes, chain, queue, i);
    if j > 0 { WithoutAt(chain, k, j - 1); }
    if j + 1 < |chain| - 1 { WithoutAt(chain, k, j + 1); }
  }

  lemma BypassLinks(nodes: seq<OrderNode>, nodes': seq<OrderNode>, chain: seq<Slot>, queue: seq<Order>, k: nat)
    requires Linked(nodes, chain, queue) && DistinctSlots(chain) && k < |chain|
    requires Bypassed(nodes, nodes', chain, k)
    ensures Linked(nodes', Without(chain, k), Without(queue, k))
  {
    forall j | 0 <= j < |chain| - 1 ensures LinkAt(nodes', Without(chain, k), Without(queue, k), j) {
      BypassLinkAt(nodes, nodes', chain, queue, k, j);
    }
  }

  /** `nodes'` is `nodes` after slot `i` was hooked in behind the chain. */
  ghost predicate Hooked(nodes: seq<OrderNode>, nodes': seq<OrderNode>, chain: seq<Slot>, i: Slot) {
    && |nodes'| == |nodes|
    && i < |nodes|
    && nodes'[i] == OrderNode(nodes[i].order, Tail(chain), INVALID)
    && (forall j: Slot :: j < |nodes| && j != i ==>
          nodes'[j] == if chain != [] && j == Tail(chain) then nodes[j].(next := i) else nodes[j])
  }

  lemma HookLinks(nodes: seq<OrderNode>, nodes': seq<OrderNode>, chain: seq<Slot>, queue: seq<Order>, i: Slot)
    requires Linked(nodes, chain, queue) && DistinctSlots(chain) && i !in chain
    requires Hooked(nodes, nodes', chain, i)
    ensures Linked(nodes', chain + [i], queue + [nodes[i].order])
  {
    forall j | 0 <= j <= |chain| ensures LinkAt(nodes', chain + [i], queue + [nodes[i].order], j) {
      if j < |chain| {
        assert LinkAt(nodes, chain, queue, j);
        assert chain[j] != i;
        assert j < |chain| - 1 ==> chain[j] != Tail(chain);
      }
    }
  }

  lemma SplitAt<T>(s: seq<T>, k: nat)
    requires k < |s|
    ensures s[..k] + [s[k]] + s[k + 1..] == s
  {
  }

  lemma VolumeWithout(queue: seq<Order>, k: nat)
    requires k < |queue|
    ensures Volume(Without(queue, k)) + queue[k].remainingQuantity == Volume(queue)
  {
    Spliced(queue[..k], queue[k], queue[k + 1..]);
    SplitAt(queue, k);
  }

  lemma EndsWithout(chain: seq<Slot>, k: nat)
    requires k < |chain|
    ensures Head(Without(chain, k)) == if k == 0 then NextOf(chain, 0) else Head(chain)
    ensures Tail(Without(chain, k)) == if k + 1 == |chain| then PrevOf(chain, k) else Tail(chain)
  {
  }

  lemma SubtractWrapped(a: nat, b: Quantity)
    requires b <= a
    ensures Sub32(Wrap32(a), b) == Wrap32(a - b)
  {
  }

  /** The level after its slot `chain[k]` was unlinked. */
  lemma LevelShrinks(nodes: seq<OrderNode>, nodes': seq<OrderNode>, level: PriceLevel, p: Price, cell: Cell,
                     queue: seq<Order>, k: nat)
    requires LevelOk(nodes, level, p, cell, queue) && DistinctSlots(cell.chain) && k < |cell.chain| == |queue|
    requires Bypassed(nodes, nodes', cell.chain, k)
    ensures LevelOk(nodes',
              PriceLevel(level.price, Sub32(level.totalVolume, queue[k].remainingQuantity), Sub32(level.orderCount, 1),
                if k == 0 then NextOf(cell.chain, 0) else level.head,
                if k + 1 == |cell.chain| then PrevOf(cell.chain, k) else level.tail),
              p, Cell(Without(cell.chain, k), cell.traded), Without(queue, k))
  {
    EndsWithout(cell.chain, k);
    BypassLinks(nodes, nodes', cell.chain, queue, k);
    VolumeWithout(queue, k);
    SubtractWrapped(Volume(queue) + cell.traded, queue[k].remainingQuantity);
    SubtractWrapped(|queue|, 1);
  }

  /** The level after slot `i` was hooked in at its tail. */
  lemma CountsGrow(volume: nat, traded: nat, count: nat, quantity: nat)
    ensures Wrap32(Wrap32(volume + traded) + quantity) == Wrap32((volume + quantity) + traded)
    ensures Wrap32(Wrap32(count) + 1) == Wrap32(count + 1)
  {
  }

  lemma LevelGrows(nodes: seq<OrderNode>, nodes': seq<OrderNode>, level: PriceLevel, p: Price, cell: Cell,
                   queue: seq<Order>, i: Slot)
    requires LevelOk(nodes, level, p, cell, queue) && DistinctSlots(cell.chain) && i !in cell.chain
    requires Hooked(nodes, nodes', cell.chain, i)
    ensures LevelOk(nodes',
              PriceLevel(level.price, Wrap32(level.totalVolume + nodes[i].order.remainingQuantity),
                         Wrap32(level.orderCount + 1),
                if cell.chain == [] then i else level.head, i),
              p, Cell(cell.chain + [i], cell.traded), queue + [nodes[i].order])
  {
    HookLinks(nodes, nodes', cell.chain, queue, i);
    assert Volume([nodes[i].order]) == nodes[i].order.remainingQuantity;
    VolumeConcat(queue, [nodes[i].order]);
    CountsGrow(Volume(queue), cell.traded, |queue|, nodes[i].order.remainingQuantity);
    assert Head(cell.chain + [i]) == if cell.chain == [] then i else level.head;
    assert Tail(cell.chain + [i]) == i;
  }

  function HitNode(nodes: seq<OrderNode>, i: Slot, quantity: Quantity): seq<OrderNode>
    requires i < |nodes| && quantity <= nodes[i].order.remainingQuantity
  {
    nodes[i := nodes[i].(order := nodes[i].order.(remainingQuantity := nodes[i].order.remainingQuantity - quantity))]
  }

  function Hit(queue: seq<Order>, quantity: Quantity): seq<Order>
    requires queue != [] && quantity <= queue[0].remainingQuantity
  {
    [queue[0].(remainingQuantity := queue[0].remainingQuantity - quantity)] + queue[1..]
  }

  lemma HitLeaves(queue: seq<Order>, quantity: Quantity)
    requires queue != [] && quantity <= queue[0].remainingQuantity
    ensures Left(queue[0], quantity) + queue[1..]
         == if quantity == queue[0].remainingQuantity then Hit(queue, quantity)[1..] else Hit(queue, quantity)
  {
  }

  lemma HitRemains(nodes: seq<OrderNode>, i: Slot, queue: seq<Order>, quantity: Quantity)
    requires i < |nodes| && queue != [] && nodes[i].order == queue[0] && quantity <= queue[0].remainingQuantity
    ensures HitNode(nodes, i, quantity)[i].order.remainingQuantity == queue[0].remainingQuantity - quantity
  {
  }

  lemma HitKeepsQueues(side: Side, queues: Levels, p: Price, quantity: Quantity)
    requires Priced(side, queues) && p in queues && queues[p] != [] && quantity <= queues[p][0].remainingQuantity
    requires Distinct(queues[p])
    ensures Priced(side, queues[p := Hit(queues[p], quantity)]) && Distinct(Hit(queues[p], quantity))
    ensures Hit(queues[p], quantity)[0].orderId == queues[p][0].orderId
  {
  }

  /** The front order of a level is hit for `quantity`: the cached volume is left
      alone, so what the live orders lost is now counted as traded. */
  lemma LevelHit(nodes: seq<OrderNode>, level: PriceLevel, p: Price, cell: Cell, queue: seq<Order>, quantity: Quantity)
    requires LevelOk(nodes, level, p, cell, queue) && DistinctSlots(cell.chain) && queue != []
    requires quantity <= queue[0].remainingQuantity
    ensures |cell.chain| == |queue| && cell.chain[0] < |nodes| && nodes[cell.chain[0]].order == queue[0]
    ensures LevelOk(HitNode(nodes, cell.chain[0], quantity), level, p, Cell(cell.chain, cell.traded + quantity),
                    Hit(queue, quantity))
  {
    assert LinkAt(nodes, cell.chain, queue, 0);
    var nodes' := HitNode(nodes, cell.chain[0], quantity);
    forall k | 0 <= k < |cell.chain| ensures LinkAt(nodes', cell.chain, Hit(queue, quantity), k) {
      assert LinkAt(nodes, cell.chain, queue, k);
    }
    assert Hit(queue, quantity)[1..] == queue[1..];
  }

  // -------------------------------------------------------------- coverage

  lemma FreeListKept(nodes: seq<OrderNode>, nodes': seq<OrderNode>, head: Slot, free: seq<Slot>)
    requires FreeList(nodes, head, free) && |nodes| <= |nodes'|
    requires forall i: Slot :: i < |nodes| && i in free ==> nodes'[i].next == nodes[i].next
    ensures FreeList(nodes', head, free)
  {
    forall k | 0 <= k < |free| ensures FreeAt(nodes', free, k) {
      assert FreeAt(nodes, free, k) && free[k] in free;
    }
  }

  /** Slot `i` of `nodes'` was put on the free list in front of `head`. */
  function Freed(nodes: seq<OrderNode>, i: Slot, head: Slot): seq<OrderNode>
    requires i < |nodes|
  {
    nodes[i := OrderNode(nodes[i].order, INVALID, head)]
  }

  lemma FreeListPushed(nodes: seq<OrderNode>, head: Slot, free: seq<Slot>, i: Slot)
    requires FreeList(nodes, head, free) && i < |nodes| && i !in free
    ensures FreeList(Freed(nodes, i, head), i, [i] + free)
  {
    forall k | 0 <= k <= |free| ensures FreeAt(Freed(nodes, i, head), [i] + free, k) {
      if k > 0 { assert FreeAt(nodes, free, k - 1) && free[k - 1] in free; }
    }
  }

  lemma FreeListPopped(nodes: seq<OrderNode>, nodes': seq<OrderNode>, head: Slot, free: seq<Slot>)
    requires FreeList(nodes, head, free) && free != [] && |nodes'| == |nodes|
    requires forall i: Slot :: i < |nodes| && i != free[0] ==> nodes'[i] == nodes[i]
    ensures head < |nodes| && FreeList(nodes', nodes[head].next, free[1..])
  {
    assert FreeAt(nodes, free, 0);
    forall k | 0 <= k < |free| - 1 ensures FreeAt(nodes', free[1..], k) {
      assert FreeAt(nodes, free, k + 1);
    }
  }

  /** Orders may lose quantity without changing which slots are free. */
  lemma CoverageKept(nodes: seq<OrderNode>, nodes': seq<OrderNode>, free: seq<Slot>, index: map<OrderId, Slot>)
    requires Covered(nodes, free, index) && |nodes'| == |nodes|
    requires forall i: Slot :: i < |nodes| ==> nodes'[i].order.orderId == nodes[i].order.orderId
    ensures Covered(nodes', free, index)
  {
  }

  /** A live slot is handed back. */
  lemma CoverageFreed(nodes: seq<OrderNode>, free: seq<Slot>, index: map<OrderId, Slot>, id: OrderId)
    requires Covered(nodes, free, index) && id in index
    ensures Covered(nodes, [index[id]] + free, index - {id})
  {
  }

  /** The first free slot is taken for a new order. */
  lemma CoverageTaken(nodes: seq<OrderNode>, nodes': seq<OrderNode>, free: seq<Slot>, index: map<OrderId, Slot>,
                      id: OrderId)
    requires Covered(nodes, free, index) && DistinctSlots(free) && free != [] && id !in index
    requires |nodes'| == |nodes| && free[0] < |nodes| && nodes'[free[0]].order.orderId == id
    requires forall i: Slot :: i < |nodes| && i != free[0] ==> nodes'[i].order == nodes[i].order
    ensures Covered(nodes', free[1..], index[id := free[0]])
  {
    var i, index' := free[0], index[id := free[0]];
    assert index'.Keys == index.Keys + {id};
    assert free == [i] + free[1..];
    forall j: Slot | j < |nodes| ensures j in free[1..] <==> !Live(nodes', index', j) {
      assert j in free <==> !Live(nodes, index, j);
    }
    forall x | x in index' ensures index'[x] < |nodes'| && nodes'[index'[x]].order.orderId == x {
      if x != id { assert Live(nodes, index, index[x]); }
    }
  }

  /** The slots `from, from + 1, ..., to - 1`. */
  function Range(from: nat, to: nat): (chain: seq<Slot>)
    requires from <= to <= INVALID
    ensures |chain| == to - from
    ensures forall k :: 0 <= k < |chain| ==> chain[k] == from + k
  {
    seq(to - from, k requires 0 <= k < to - from => from + k)
  }

  /** The pool grew: every new slot is free. */
  lemma CoverageGrown(nodes: seq<OrderNode>, nodes': seq<OrderNode>, index: map<OrderId, Slot>)
    requires Covered(nodes, [], index) && |nodes| <= |nodes'| <= INVALID
    requires forall i: Slot :: i < |nodes| ==> nodes'[i].order == nodes[i].order
    ensures Covered(nodes', Range(|nodes|, |nodes'|), index)
  {
    var free := Range(|nodes|, |nodes'|);
    forall j: Slot | j < |nodes'| ensures j in free <==> !Live(nodes', index, j) {
      if j < |nodes| {
        assert Live(nodes, index, j);
      } else {
        assert free[j - |nodes|] == j;
      }
    }
  }

  // --------------------------------------------------- steps of the engine

  /** Unlinking slot `chain[k]` and freeing it leaves every order elsewhere alone. */
  lemma ReleasedElsewhere(nodes: seq<OrderNode>, nodes': seq<OrderNode>, head: Slot, index: map<OrderId, Slot>,
                          chain: seq<Slot>, k: nat, i: Slot)
    requires k < |chain| && Bypassed(nodes, nodes', chain, k) && i !in chain
    requires Live(nodes, index, i) && Live(nodes, index, chain[k])
    ensures Freed(nodes', chain[k], head)[i] == nodes[i]
    ensures Live(Freed(nodes', chain[k], head), index - {nodes[chain[k]].order.orderId}, i)
  {
  }

  lemma ReleaseIsLocal(side: Side, nodes: seq<OrderNode>, nodes': seq<OrderNode>, head: Slot, half: Half,
                       index: map<OrderId, Slot>, p: Price, k: nat)
    requires HalfLinked(nodes, half, index) && Priced(side, half.queues)
    requires p in half.cells && k < |half.cells[p].chain| && half.cells[p].chain[k] < |nodes|
    requires Bypassed(nodes, nodes', half.cells[p].chain, k)
    ensures ChangedOnlyAt(nodes, Freed(nodes', half.cells[p].chain[k], head), index,
                          index - {nodes[half.cells[p].chain[k]].order.orderId}, side, p)
  {
    var chain := half.cells[p].chain;
    ChainSlot(side, nodes, half, index, p, k);
    forall i: Slot | Live(nodes, index, i) && (nodes[i].order.side != side || nodes[i].order.price != p)
      ensures Freed(nodes', chain[k], head)[i] == nodes[i]
      ensures Live(Freed(nodes', chain[k], head), index - {nodes[chain[k]].order.orderId}, i)
    {
      forall j | 0 <= j < |chain| ensures chain[j] != i { ChainSlot(side, nodes, half, index, p, j); }
      ReleasedElsewhere(nodes, nodes', head, index, chain, k, i);
    }
  }

  /** Unlinking live slots does not disturb the free list. */
  lemma BypassKeepsFreeList(nodes: seq<OrderNode>, nodes': seq<OrderNode>, chain: seq<Slot>, k: nat,
                            head: Slot, free: seq<Slot>, index: map<OrderId, Slot>)
    requires k < |chain| && Bypassed(nodes, nodes', chain, k) && AllLive(nodes, chain, index)
    requires FreeList(nodes, head, free) && Covered(nodes, free, index)
    ensures FreeList(nodes', head, free) && chain[k] !in free
  {
    forall i: Slot | i < |nodes| && i in free ensures nodes'[i].next == nodes[i].next {
      assert !Live(nodes, index, i);
      assert k > 0 ==> Live(nodes, index, chain[k - 1]);
      assert k + 1 < |chain| ==> Live(nodes, index, chain[k + 1]);
    }
    FreeListKept(nodes, nodes', head, free);
    assert Live(nodes, index, chain[k]);
  }

  /** The level without its slot `chain[k]` still stands once that slot is free. */
  lemma ReleasedLevel(nodes: seq<OrderNode>, nodes': seq<OrderNode>, head: Slot, level: PriceLevel, level': PriceLevel,
                      p: Price, cell: Cell, queue: seq<Order>, index: map<OrderId, Slot>, k: nat)
    requires LevelOk(nodes, level, p, cell, queue) && AllLive(nodes, cell.chain, index) && Distinct(queue)
    requires k < |cell.chain| && cell.chain[k] < |nodes|
    requires Bypassed(nodes, nodes', cell.chain, k) && |queue| == |cell.chain|
    requires LevelOk(nodes', level', p, Cell(Without(cell.chain, k), cell.traded), Without(queue, k))
    ensures var nodes'', index' := Freed(nodes', cell.chain[k], head), index - {nodes[cell.chain[k]].order.orderId};
            && LevelOk(nodes'', level', p, Cell(Without(cell.chain, k), cell.traded), Without(queue, k))
            && AllLive(nodes'', Without(cell.chain, k), index')
  {
    var shorter := Without(cell.chain, k);
    var nodes'', index' := Freed(nodes', cell.chain[k], head), index - {nodes[cell.chain[k]].order.orderId};
    assert LinkAt(nodes, cell.chain, queue, k);
    forall j | 0 <= j < |shorter| && shorter[j] < |nodes'|
      ensures nodes''[shorter[j]] == nodes'[shorter[j]] && Live(nodes'', index', shorter[j])
    {
      var i := if j < k then j else j + 1;
      WithoutAt(cell.chain, k, j);
      assert LinkAt(nodes, cell.chain, queue, i) && Live(nodes, index, cell.chain[i]);
    }
    KeptLevel(nodes', nodes'', level', p, Cell(shorter, cell.traded), Without(queue, k), index');
  }

  /** The slot of an order that left is free. */
  lemma ReleasedSlot(nodes: seq<OrderNode>, nodes': seq<OrderNode>, head: Slot, index: map<OrderId, Slot>,
                     free: seq<Slot>,
                     chain: seq<Slot>, k: nat)
    requires Covered(nodes, free, index) && k < |chain| && Live(nodes, index, chain[k])
    requires Bypassed(nodes, nodes', chain, k)
    ensures Covered(Freed(nodes', chain[k], head), [chain[k]] + free, index - {nodes[chain[k]].order.orderId})
  {
    var nodes'' := Freed(nodes', chain[k], head);
    CoverageKept(nodes, nodes'', free, index);
    CoverageFreed(nodes'', free, index, nodes[chain[k]].order.orderId);
  }

  /** An order left its level: the side still fits. */
  lemma Released(side: Side, nodes: seq<OrderNode>, nodes': seq<OrderNode>, head: Slot, half: Half,
                 index: map<OrderId, Slot>, p: Price, k: nat, level': PriceLevel)
    requires HalfLinked(nodes, half, index) && Priced(side, half.queues)
    requires p in half.cells && p in half.queues && k < |half.cells[p].chain| == |half.queues[p]|
    requires Distinct(half.queues[p]) && half.cells[p].chain[k] < |nodes|
    requires Bypassed(nodes, nodes', half.cells[p].chain, k)
    requires LevelOk(nodes', level', p, Cell(Without(half.cells[p].chain, k), half.cells[p].traded),
                     Without(half.queues[p], k))
    ensures HalfLinked(Freed(nodes', half.cells[p].chain[k], head),
              WithLevel(half, p, level', Cell(Without(half.cells[p].chain, k), half.cells[p].traded),
                        Without(half.queues[p], k)),
              index - {nodes[half.cells[p].chain[k]].order.orderId})
  {
    var i := half.cells[p].chain[k];
    ReleasedLevel(nodes, nodes', head, half.levels[p], level', p, half.cells[p], half.queues[p], index, k);
    ReleaseIsLocal(side, nodes, nodes', head, half, index, p, k);
    RewireLevel(side, nodes, Freed(nodes', i, head), half, index, index - {nodes[i].order.orderId}, p, level',
                Cell(Without(half.cells[p].chain, k), half.cells[p].traded), Without(half.queues[p], k));
  }

  lemma HitSlot(nodes: seq<OrderNode>, i: Slot, quantity: Quantity, index: map<OrderId, Slot>, head: Slot,
                free: seq<Slot>)
    requires Covered(nodes, free, index) && FreeList(nodes, head, free)
    requires i < |nodes| && quantity <= nodes[i].order.remainingQuantity
    ensures Covered(HitNode(nodes, i, quantity), free, index) && FreeList(HitNode(nodes, i, quantity), head, free)
  {
    CoverageKept(nodes, HitNode(nodes, i, quantity), free, index);
    FreeListKept(nodes, HitNode(nodes, i, quantity), head, free);
  }

  lemma HitIsLocal(side: Side, nodes: seq<OrderNode>, half: Half, index: map<OrderId, Slot>, p: Price,
                   quantity: Quantity)
    requires HalfLinked(nodes, half, index) && Priced(side, half.queues)
    requires p in half.cells && half.cells[p].chain != [] && half.cells[p].chain[0] < |nodes|
    requires quantity <= nodes[half.cells[p].chain[0]].order.remainingQuantity
    ensures ChangedOnlyAt(nodes, HitNode(nodes, half.cells[p].chain[0], quantity), index, index, side, p)
  {
    ChainSlot(side, nodes, half, index, p, 0);
  }

  lemma HitKeepsLive(nodes: seq<OrderNode>, i: Slot, quantity: Quantity, chain: seq<Slot>, index: map<OrderId, Slot>)
    requires i < |nodes| && quantity <= nodes[i].order.remainingQuantity && AllLive(nodes, chain, index)
    ensures AllLive(HitNode(nodes, i, quantity), chain, index)
  {
  }

  lemma HitLevel(nodes: seq<OrderNode>, level: PriceLevel, p: Price, cell: Cell, queue: seq<Order>,
                 index: map<OrderId, Slot>, quantity: Quantity)
    requires LevelOk(nodes, level, p, cell, queue) && AllLive(nodes, cell.chain, index) && Distinct(queue)
    requires queue != [] && quantity <= queue[0].remainingQuantity
    ensures |cell.chain| == |queue| && cell.chain[0] < |nodes| && nodes[cell.chain[0]].order == queue[0]
    ensures var nodes' := HitNode(nodes, cell.chain[0], quantity);
            && LevelOk(nodes', level, p, Cell(cell.chain, cell.traded + quantity), Hit(queue, quantity))
            && AllLive(nodes', cell.chain, index)
  {
    DistinctOrdersDistinctSlots(nodes, cell.chain, queue);
    LevelHit(nodes, level, p, cell, queue, quantity);
    HitKeepsLive(nodes, cell.chain[0], quantity, cell.chain, index);
  }

  /** The front order of a level lost quantity: the side still fits. */
  lemma FrontHit(side: Side, nodes: seq<OrderNode>, half: Half, index: map<OrderId, Slot>, p: Price, quantity: Quantity)
    requires HalfLinked(nodes, half, index) && Priced(side, half.queues)
    requires p in half.levels && p in half.cells && p in half.queues && Distinct(half.queues[p])
    requires half.queues[p] != [] && quantity <= half.queues[p][0].remainingQuantity
    ensures half.cells[p].chain != [] && half.cells[p].chain[0] < |nodes|
    ensures nodes[half.cells[p].chain[0]].order == half.queues[p][0]
    ensures HalfLinked(HitNode(nodes, half.cells[p].chain[0], quantity),
              WithLevel(half, p, half.levels[p], Cell(half.cells[p].chain, half.cells[p].traded + quantity),
                        Hit(half.queues[p], quantity)),
              index)
  {
    HitLevel(nodes, half.levels[p], p, half.cells[p], half.queues[p], index, quantity);
    HitIsLocal(side, nodes, half, index, p, quantity);
    RewireLevel(side, nodes, HitNode(nodes, half.cells[p].chain[0], quantity), half, index, index, p, half.levels[p],
                Cell(half.cells[p].chain, half.cells[p].traded + quantity), Hit(half.queues[p], quantity));
  }

  /** All of this together, for the method that takes the quantity. */
  lemma Taken(side: Side, nodes: seq<OrderNode>, half: Half, index: map<OrderId, Slot>, head: Slot, free: seq<Slot>,
              p: Price, level: PriceLevel, i: Slot, quantity: Quantity) returns (after: Half)
    requires HalfLinked(nodes, half, index) && Priced(side, half.queues)
    requires Covered(nodes, free, index) && FreeList(nodes, head, free)
    requires p in half.levels && p in half.cells && p in half.queues && Distinct(half.queues[p])
    requires level == half.levels[p]
    requires half.queues[p] != [] && half.cells[p].chain != [] && half.cells[p].chain[0] == i
    requires i < |nodes| && nodes[i].order == half.queues[p][0] && quantity <= nodes[i].order.remainingQuantity
    ensures OnlyLevel(half, after, p, level, Cell(half.cells[p].chain, half.cells[p].traded + quantity),
                      Hit(half.queues[p], quantity))
    ensures HalfLinked(HitNode(nodes, i, quantity), after, index)
    ensures ChangedOnlyAt(nodes, HitNode(nodes, i, quantity), index, index, side, p)
    ensures Covered(HitNode(nodes, i, quantity), free, index) && FreeList(HitNode(nodes, i, quantity), head, free)
  {
    after := WithLevel(half, p, level, Cell(half.cells[p].chain, half.cells[p].traded + quantity),
                       Hit(half.queues[p], quantity));
    WithLevelIsOnlyLevel(half, p, level, after.cells[p], after.queues[p]);
    FrontHit(side, nodes, half, index, p, quantity);
    HitIsLocal(side, nodes, half, index, p, quantity);
    HitSlot(nodes, i, quantity, index, head, free);
  }

  lemma SameKeysWithout(a: map<OrderId, Slot>, b: set<OrderId>, id: OrderId)
    requires a.Keys == b
    ensures (a - {id}).Keys == b - {id}
  {
  }

  /** What a release must know of the level before it starts. */
  lemma Releasable(side: Side, nodes: seq<OrderNode>, half: Half, index: map<OrderId, Slot>, p: Price, k: nat)
    requires HalfLinked(nodes, half, index) && Priced(side, half.queues)
    requires p in half.levels && p in half.cells && p in half.queues && Distinct(half.queues[p])
    requires k < |half.cells[p].chain| == |half.queues[p]|
    ensures LevelOk(nodes, half.levels[p], p, half.cells[p], half.queues[p]) && DistinctSlots(half.cells[p].chain)
    ensures half.cells[p].chain[k] < |nodes| && nodes[half.cells[p].chain[k]].order == half.queues[p][k]
  {
    ChainSlot(side, nodes, half, index, p, k);
    DistinctOrdersDistinctSlots(nodes, half.cells[p].chain, half.queues[p]);
  }

  lemma ReleaseKeepsFree(nodes: seq<OrderNode>, nodes': seq<OrderNode>, half: Half, index: map<OrderId, Slot>,
                         head: Slot, free: seq<Slot>, p: Price, k: nat)
    requires HalfLinked(nodes, half, index) && Covered(nodes, free, index) && FreeList(nodes, head, free)
    requires p in half.cells && k < |half.cells[p].chain| && Bypassed(nodes, nodes', half.cells[p].chain, k)
    ensures FreeList(nodes', head, free) && half.cells[p].chain[k] !in free && half.cells[p].chain[k] < |nodes|
  {
    BypassKeepsFreeList(nodes, nodes', half.cells[p].chain, k, head, free, index);
  }

  /** All of this together, for the method that releases the slot. */
  lemma ReleaseDone(side: Side, nodes: seq<OrderNode>, nodes': seq<OrderNode>, head: Slot, free: seq<Slot>, half: Half,
                    index: map<OrderId, Slot>, p: Price, k: nat, level': PriceLevel) returns (after: Half)
    requires HalfLinked(nodes, half, index) && Priced(side, half.queues) && Covered(nodes, free, index)
    requires p in half.cells && p in half.queues && k < |half.cells[p].chain| == |half.queues[p]|
    requires Distinct(half.queues[p]) && half.cells[p].chain[k] < |nodes|
    requires Bypassed(nodes, nodes', half.cells[p].chain, k)
    requires LevelOk(nodes', level', p, Cell(Without(half.cells[p].chain, k), half.cells[p].traded),
                     Without(half.queues[p], k))
    ensures OnlyLevel(half, after, p, level', Cell(Without(half.cells[p].chain, k), half.cells[p].traded),
                      Without(half.queues[p], k))
    ensures var i, index' := half.cells[p].chain[k], index - {half.queues[p][k].orderId};
            && HalfLinked(Freed(nodes', i, head), after, index')
            && Covered(Freed(nodes', i, head), [i] + free, index')
            && ChangedOnlyAt(nodes, Freed(nodes', i, head), index, index', side, p)
  {
    after := WithLevel(half, p, level', Cell(Without(half.cells[p].chain, k), half.cells[p].traded),
                       Without(half.queues[p], k));
    WithLevelIsOnlyLevel(half, p, level', after.cells[p], after.queues[p]);
    ChainSlot(side, nodes, half, index, p, k);
    Released(side, nodes, nodes', head, half, index, p, k, level');
    ReleaseIsLocal(side, nodes, nodes', head, half, index, p, k);
    ReleasedSlot(nodes, nodes', head, index, free, half.cells[p].chain, k);
  }

  /** The front order was hit and then left: the two steps as one. */
  lemma StruckOut(half: Half, hit: Half, after: Half, p: Price, level: PriceLevel, cell: Cell, queue: seq<Order>,
                  level': PriceLevel,
                  nodes: seq<OrderNode>, nodes': seq<OrderNode>, nodes'': seq<OrderNode>, index: map<OrderId, Slot>,
                  index'': map<OrderId, Slot>, side: Side)
    requires cell.chain != [] && queue != [] && p in hit.cells && p in hit.queues
    requires OnlyLevel(half, hit, p, level, cell, queue)
    requires OnlyLevel(hit, after, p, level', Cell(Without(cell.chain, 0), cell.traded), Without(queue, 0))
    requires ChangedOnlyAt(nodes, nodes', index, index, side, p)
    requires ChangedOnlyAt(nodes', nodes'', index, index'', side, p)
    ensures OnlyLevel(half, after, p, level', Cell(cell.chain[1..], cell.traded), queue[1..])
    ensures ChangedOnlyAt(nodes, nodes'', index, index'', side, p)
  {
    OnlyLevelTwice(half, hit, after, p, level, cell, queue, level', Cell(Without(cell.chain, 0), cell.traded),
                   Without(queue, 0));
    ChangedOnlyAtTwice(nodes, nodes', nodes'', index, index, index'', side, p);
    assert Without(cell.chain, 0) == cell.chain[1..] && Without(queue, 0) == queue[1..];
  }

  lemma HitReleasable(side: Side, half: Half, hit: Half, p: Price, level: PriceLevel, cell: Cell, quantity: Quantity)
    requires Priced(side, half.queues) && p in half.queues && half.queues[p] != [] && Distinct(half.queues[p])
    requires quantity <= half.queues[p][0].remainingQuantity
    requires OnlyLevel(half, hit, p, level, cell, Hit(half.queues[p], quantity))
    ensures Priced(side, hit.queues) && p in hit.queues && Distinct(hit.queues[p])
    ensures p in hit.levels && hit.levels[p] == level && p in hit.cells
  {
    HitKeepsQueues(side, half.queues, p, quantity);
    OnlyLevelQueues(half, hit, p, level, cell, Hit(half.queues[p], quantity));
  }

  // ------------------------------------------------------ a new order rests

  /** The pool may have grown and slot `i` was given to `order`; nothing live moved. */
  ghost predicate Allocated(nodes: seq<OrderNode>, nodes': seq<OrderNode>, index: map<OrderId, Slot>, i: Slot,
                            order: Order) {
    && |nodes| <= |nodes'| && i < |nodes'| && !Live(nodes, index, i) && order.orderId !in index
    && nodes'[i] == OrderNode(order, INVALID, INVALID)
    && forall j: Slot :: j < |nodes| && j != i ==> nodes'[j] == nodes[j]
  }

  lemma AllocationKeepsHalf(nodes: seq<OrderNode>, nodes': seq<OrderNode>, half: Half, index: map<OrderId, Slot>,
                            i: Slot, order: Order)
    requires HalfLinked(nodes, half, index) && Allocated(nodes, nodes', index, i, order)
    ensures HalfLinked(nodes', half, index)
    ensures forall p :: p in half.cells ==> i !in half.cells[p].chain
  {
    forall q | q in half.cells ensures Kept(nodes, nodes', half.cells[q].chain, index) && i !in half.cells[q].chain {
      assert AllLive(nodes, half.cells[q].chain, index);
    }
    KeepHalf(nodes, nodes', half, index, index);
  }

  /** Slot `i` is hooked in behind the chain of its level and enters the index. */
  lemma HookIsLocal(side: Side, nodes: seq<OrderNode>, nodes': seq<OrderNode>, half: Half, index: map<OrderId, Slot>,
                    p: Price,
                    chain: seq<Slot>, i: Slot)
    requires HalfLinked(nodes, half, index) && Priced(side, half.queues)
    requires chain == if p in half.cells then half.cells[p].chain else []
    requires Hooked(nodes, nodes', chain, i) && nodes[i].order.orderId !in index
    ensures ChangedOnlyAt(nodes, nodes', index, index[nodes[i].order.orderId := i], side, p)
  {
    if chain != [] { ChainSlot(side, nodes, half, index, p, |chain| - 1); }
  }

  lemma HookedAreLive(nodes: seq<OrderNode>, nodes': seq<OrderNode>, chain: seq<Slot>, index: map<OrderId, Slot>,
                      i: Slot)
    requires AllLive(nodes, chain, index) && Hooked(nodes, nodes', chain, i) && nodes[i].order.orderId !in index
    ensures AllLive(nodes', chain + [i], index[nodes[i].order.orderId := i])
  {
  }

  lemma HookKeepsFree(nodes: seq<OrderNode>, nodes': seq<OrderNode>, chain: seq<Slot>, i: Slot, head: Slot,
                      free: seq<Slot>,
                      index: map<OrderId, Slot>)
    requires Hooked(nodes, nodes', chain, i) && AllLive(nodes, chain, index) && nodes[i].order.orderId !in index
    requires FreeList(nodes, head, free) && Covered(nodes, free, index[nodes[i].order.orderId := i])
    ensures FreeList(nodes', head, free) && Covered(nodes', free, index[nodes[i].order.orderId := i])
  {
    var index' := index[nodes[i].order.orderId := i];
    forall j: Slot | j < |nodes| && j in free ensures nodes'[j].next == nodes[j].next {
      assert !Live(nodes, index', j) && Live(nodes, index', i);
      if chain != [] { assert Live(nodes, index, chain[|chain| - 1]); }
    }
    FreeListKept(nodes, nodes', head, free);
    CoverageKept(nodes, nodes', free, index');
  }
}
