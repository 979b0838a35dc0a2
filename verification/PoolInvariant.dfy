/** What the representation invariant of the pool says about its slots. */
module PoolInvariant {
  import opened Types
  import opened Book
  import opened Queues
  import opened Levels
  import opened Index
  import opened PoolShape
  import opened PoolNodes
  import opened PoolAnatomy

  /** A place in the book: the order number `k` of the level at `price`. */
  datatype Place = Place(side: Side, price: Price, k: nat)

  ghost predicate Occupies(a: Anatomy, i: Slot, at: Place) {
    var cells := a.Part(at.side).cells;
    at.price in cells && at.k < |cells[at.price].chain| && cells[at.price].chain[at.k] == i
  }

  function LevelsOf(side: Side, bids: map<Price, PriceLevel>, asks: map<Price, PriceLevel>): map<Price, PriceLevel> {
    if side.Buy? then bids else asks
  }

  /** A slot in a level holds the order of that place, and the index leads to it. */
  lemma Occupant(pool: Pool, bids: map<Price, PriceLevel>, asks: map<Price, PriceLevel>, a: Anatomy, i: Slot, at: Place)
    requires Assembled(pool, bids, asks, a) && Occupies(a, i, at)
    ensures i < |pool.nodes| && i !in a.free
    ensures var order := pool.nodes[i].order;
            && order.side == at.side && order.price == at.price
            && order.orderId in pool.index && pool.index[order.orderId] == i
            && at.price in a.Part(at.side).queues && at.k < |a.Part(at.side).queues[at.price]|
            && a.Part(at.side).queues[at.price][at.k] == order
  {
    ChainSlot(at.side, pool.nodes, a.Part(at.side), pool.index, at.price, at.k);
  }

  /** No slot is in two places. */
  lemma PlacesAreDisjoint(pool: Pool, bids: map<Price, PriceLevel>, asks: map<Price, PriceLevel>, a: Anatomy, i: Slot,
                          x: Place, y: Place)
    requires Assembled(pool, bids, asks, a) && Occupies(a, i, x) && Occupies(a, i, y)
    ensures x == y
  {
    Occupant(pool, bids, asks, a, i, x);
    Occupant(pool, bids, asks, a, i, y);
    assert Agree(x.side, a.Part(x.side).queues, a.locations);
    assert Distinct(a.Part(x.side).queues[x.price]);
  }

  /** Every slot that is not free is in a place, that of the order it holds. */
  lemma PlaceOf(pool: Pool, bids: map<Price, PriceLevel>, asks: map<Price, PriceLevel>, a: Anatomy, i: Slot)
    returns (at: Place)
    requires Assembled(pool, bids, asks, a) && i < |pool.nodes| && i !in a.free
    ensures Occupies(a, i, at)
  {
    var id := pool.nodes[i].order.orderId;
    var side := pool.nodes[i].order.side;
    Disassembled(pool, bids, asks, a);
    assert Live(pool.nodes, pool.index, i);
    var k := IndexLeads(side, pool, LevelsOf(side, bids, asks), ShapeOf(a, side), a.Part(Opposite(side)), id);
    at := Place(side, pool.nodes[i].order.price, k);
  }

  /** The slots split exactly into the free list, which repeats none, and the
      places of the levels; the index is a bijection from the ids onto the latter. */
  lemma SlotsArePartitioned(pool: Pool, bids: map<Price, PriceLevel>, asks: map<Price, PriceLevel>, a: Anatomy)
    requires Assembled(pool, bids, asks, a)
    ensures DistinctSlots(a.free)
    ensures forall i :: i in a.free ==> i < |pool.nodes|
    ensures forall i: Slot :: i < |pool.nodes| ==> (i in a.free <==> !exists at :: Occupies(a, i, at))
    ensures forall id :: id in pool.index ==> pool.index[id] < |pool.nodes| && pool.index[id] !in a.free
    ensures forall x, y :: x in pool.index && y in pool.index && pool.index[x] == pool.index[y] ==> x == y
    ensures forall i: Slot, at :: Occupies(a, i, at) ==>
      i < |pool.nodes| && pool.nodes[i].order.orderId in pool.index && pool.index[pool.nodes[i].order.orderId] == i
  {
    forall i | i in a.free ensures i < |pool.nodes| {
      var k :| 0 <= k < |a.free| && a.free[k] == i;
      assert FreeAt(pool.nodes, a.free, k);
    }
    forall i: Slot | i < |pool.nodes| ensures i in a.free <==> !exists at :: Occupies(a, i, at) {
      if i !in a.free { var at := PlaceOf(pool, bids, asks, a, i); }
      if at :| Occupies(a, i, at) { Occupant(pool, bids, asks, a, i, at); }
    }
    forall i: Slot, at | Occupies(a, i, at)
      ensures i < |pool.nodes| && pool.nodes[i].order.orderId in pool.index
      ensures pool.index[pool.nodes[i].order.orderId] == i
    {
      Occupant(pool, bids, asks, a, i, at);
    }
    forall id | id in pool.index ensures pool.index[id] !in a.free {
      assert Live(pool.nodes, pool.index, pool.index[id]);
    }
  }

  /** Slot number `k` of a level and its neighbours point at each other; the null
      value stands exactly before the level's head and behind its tail. */
  ghost predicate MutualAt(nodes: seq<OrderNode>, level: PriceLevel, chain: seq<Slot>, k: nat)
    requires k < |chain|
  {
    && chain[k] < |nodes|
    && var next, prev := nodes[chain[k]].next, nodes[chain[k]].prev;
    && (next == INVALID <==> chain[k] == level.tail)
    && (prev == INVALID <==> chain[k] == level.head)
    && (next != INVALID ==> k + 1 < |chain| && chain[k + 1] == next && next < |nodes| && nodes[next].prev == chain[k])
    && (prev != INVALID ==> k > 0 && chain[k - 1] == prev && prev < |nodes| && nodes[prev].next == chain[k])
  }

  /** No level of the price map is empty, each stands under its own price, and its
      links are mutual inverses that lead from its head to its tail and end there. */
  lemma LinksAreMutual(side: Side, pool: Pool, levels: map<Price, PriceLevel>, g: Shape, p: Price)
    requires Ready(side, pool, levels, g) && p in levels
    ensures p in g.half.cells && g.half.cells[p].chain != []
    ensures levels[p].price == p && levels[p].head != INVALID && levels[p].tail != INVALID
    ensures levels[p].head == g.half.cells[p].chain[0]
    ensures forall k :: 0 <= k < |g.half.cells[p].chain| ==> MutualAt(pool.nodes, levels[p], g.half.cells[p].chain, k)
  {
    SameKeys(pool.nodes, g.half, pool.index);
    LevelAt(side, pool, levels, g, p);
    FrontSlot(pool.nodes, g.half, pool.index, p);
    assert g.half.queues[p] != [];
    var chain := g.half.cells[p].chain;
    NeighboursLink(pool.nodes, chain, g.half.queues[p], 0);
    forall k | 0 <= k < |chain| ensures MutualAt(pool.nodes, levels[p], chain, k) {
      NeighboursLink(pool.nodes, chain, g.half.queues[p], k);
    }
  }

  lemma LevelAt(side: Side, pool: Pool, levels: map<Price, PriceLevel>, g: Shape, p: Price)
    requires Ready(side, pool, levels, g) && p in g.half.cells
    ensures p in levels && p in g.half.queues && levels[p].price == p
    ensures levels[p].head == Head(g.half.cells[p].chain) && levels[p].tail == Tail(g.half.cells[p].chain)
    ensures Linked(pool.nodes, g.half.cells[p].chain, g.half.queues[p]) && DistinctSlots(g.half.cells[p].chain)
  {
    SameKeys(pool.nodes, g.half, pool.index);
    assert Distinct(g.half.queues[p]);
    DistinctOrdersDistinctSlots(pool.nodes, g.half.cells[p].chain, g.half.queues[p]);
  }

  lemma NeighboursLink(nodes: seq<OrderNode>, chain: seq<Slot>, queue: seq<Order>, k: nat)
    requires Linked(nodes, chain, queue) && DistinctSlots(chain) && k < |chain| && |nodes| <= INVALID
    ensures chain[k] < |nodes|
    ensures Head(chain) != INVALID && Tail(chain) != INVALID
    ensures var next, prev := nodes[chain[k]].next, nodes[chain[k]].prev;
            && (next == INVALID <==> chain[k] == Tail(chain))
            && (prev == INVALID <==> chain[k] == Head(chain))
            && (next != INVALID ==>
                k + 1 < |chain| && chain[k + 1] == next && next < |nodes| && nodes[next].prev == chain[k])
            && (prev != INVALID ==> k > 0 && chain[k - 1] == prev && prev < |nodes| && nodes[prev].next == chain[k])
  {
    assert LinkAt(nodes, chain, queue, k) && LinkAt(nodes, chain, queue, 0) && LinkAt(nodes, chain, queue, |chain| - 1);
    if k > 0 { assert LinkAt(nodes, chain, queue, k - 1); }
    if k + 1 < |chain| { assert LinkAt(nodes, chain, queue, k + 1); }
  }

  // ------------------------------------- the fields determine what they mean

  lemma {:induction false} ChainsAgreeAt(nodes: seq<OrderNode>, c: seq<Slot>, q: seq<Order>, d: seq<Slot>,
                                         r: seq<Order>, k: nat)
    requires Linked(nodes, c, q) && Linked(nodes, d, r) && Head(c) == Head(d) && |nodes| <= INVALID && k < |c|
    ensures k < |d| && c[k] == d[k] && q[k] == r[k]
  {
    assert LinkAt(nodes, c, q, k);
    if k == 0 {
      assert LinkAt(nodes, d, r, 0);
    } else {
      ChainsAgreeAt(nodes, c, q, d, r, k - 1);
      assert LinkAt(nodes, c, q, k - 1) && LinkAt(nodes, d, r, k - 1);
      assert LinkAt(nodes, d, r, k);
    }
  }

  lemma OneChain(nodes: seq<OrderNode>, c: seq<Slot>, q: seq<Order>, d: seq<Slot>, r: seq<Order>)
    requires Linked(nodes, c, q) && Linked(nodes, d, r) && Head(c) == Head(d) && |nodes| <= INVALID
    ensures c == d && q == r
  {
    if |d| < |c| { ChainsAgreeAt(nodes, c, q, d, r, |d|); }
    if |c| < |d| { ChainsAgreeAt(nodes, d, r, c, q, |c|); }
    forall k | 0 <= k < |c| ensures k < |d| && c[k] == d[k] && q[k] == r[k] { ChainsAgreeAt(nodes, c, q, d, r, k); }
  }

  lemma {:induction false} FreeListsAgreeAt(nodes: seq<OrderNode>, head: Slot, c: seq<Slot>, d: seq<Slot>, k: nat)
    requires FreeList(nodes, head, c) && FreeList(nodes, head, d) && |nodes| <= INVALID && k < |c|
    ensures k < |d| && c[k] == d[k]
  {
    assert FreeAt(nodes, c, k);
    if k > 0 {
      FreeListsAgreeAt(nodes, head, c, d, k - 1);
      assert FreeAt(nodes, c, k - 1) && FreeAt(nodes, d, k - 1);
    }
  }

  lemma OneFreeList(nodes: seq<OrderNode>, head: Slot, c: seq<Slot>, d: seq<Slot>)
    requires FreeList(nodes, head, c) && FreeList(nodes, head, d) && |nodes| <= INVALID
    ensures c == d
  {
    if |d| < |c| { FreeListsAgreeAt(nodes, head, c, d, |d|); }
    if |c| < |d| { FreeListsAgreeAt(nodes, head, d, c, |c|); }
    forall k | 0 <= k < |c| ensures k < |d| && c[k] == d[k] { FreeListsAgreeAt(nodes, head, c, d, k); }
  }

  /** The two sides have the same queues, in the same slots. */
  ghost predicate SameOrders(h: Half, g: Half) {
    h.queues == g.queues && forall p :: p in h.cells ==> p in g.cells && h.cells[p].chain == g.cells[p].chain
  }

  lemma OneHalf(nodes: seq<OrderNode>, index: map<OrderId, Slot>, h: Half, g: Half)
    requires HalfLinked(nodes, h, index) && HalfLinked(nodes, g, index) && h.levels == g.levels && |nodes| <= INVALID
    ensures SameOrders(h, g)
  {
    forall p | p in h.cells ensures p in g.cells && h.cells[p].chain == g.cells[p].chain && h.queues[p] == g.queues[p] {
      assert p in g.cells;
      OneChain(nodes, h.cells[p].chain, h.queues[p], g.cells[p].chain, g.queues[p]);
    }
  }

  ghost predicate SameResidues(h: Half, g: Half) {
    forall p :: Wrap32(CellAt(h, p).traded) == Wrap32(CellAt(g, p).traded)
  }

  /** The cached volume fixes what was traded against a level modulo 2^32. */
  lemma OneResidue(v: nat, x: nat, y: nat)
    requires Wrap32(v + x) == Wrap32(v + y)
    ensures Wrap32(x) == Wrap32(y)
  {
  }

  lemma CacheFixesResidue(queue: seq<Order>, x: nat, y: nat)
    requires Cached(queue, x) == Cached(queue, y)
    ensures Wrap32(x) == Wrap32(y)
  {
    OneResidue(Volume(queue), x, y);
  }

  lemma OneCount(nodes: seq<OrderNode>, index: map<OrderId, Slot>, h: Half, g: Half, p: Price)
    requires HalfLinked(nodes, h, index) && HalfLinked(nodes, g, index) && h.levels == g.levels && h.queues == g.queues
    ensures Wrap32(CellAt(h, p).traded) == Wrap32(CellAt(g, p).traded)
  {
    LevelVolume(nodes, h, index, p);
    LevelVolume(nodes, g, index, p);
    CacheFixesResidue(QueueAt(h.queues, p), CellAt(h, p).traded, CellAt(g, p).traded);
  }

  /** The fields of the pool leave no choice of the book, the levels' chains and the
      free list they stand for; the quantity traded against a level they fix up to
      a multiple of 2^32, which is all that the cached volume depends on. */
  lemma FieldsDetermineBook(pool: Pool, bids: map<Price, PriceLevel>, asks: map<Price, PriceLevel>, a: Anatomy,
                            b: Anatomy)
    requires Assembled(pool, bids, asks, a) && Assembled(pool, bids, asks, b)
    ensures a.View() == b.View() && a.free == b.free
    ensures SameOrders(a.bids, b.bids) && SameOrders(a.asks, b.asks)
    ensures SameResidues(a.bids, b.bids) && SameResidues(a.asks, b.asks)
  {
    OneHalf(pool.nodes, pool.index, a.bids, b.bids);
    OneHalf(pool.nodes, pool.index, a.asks, b.asks);
    OneFreeList(pool.nodes, pool.freeHead, a.free, b.free);
    forall p ensures Wrap32(CellAt(a.bids, p).traded) == Wrap32(CellAt(b.bids, p).traded) {
      OneCount(pool.nodes, pool.index, a.bids, b.bids, p);
    }
    forall p ensures Wrap32(CellAt(a.asks, p).traded) == Wrap32(CellAt(b.asks, p).traded) {
      OneCount(pool.nodes, pool.index, a.asks, b.asks, p);
    }
  }
}
