/** Both engines, side by side, over whole runs. */
module Differential {
  import opened Types
  import opened Book
  import opened Runs
  import opened Laws
  import opened Levels
  import opened PoolShape
  import opened PoolNodes
  import opened PoolAnatomy
  import opened StlEngine
  import opened PoolEngine

  // -------------------------------------------------------- pool capacity

  /** The number of slots after a run, started with `initial` of them. */
  function Capacity(initial: nat, ops: seq<Op>): nat {
    if ops == [] then initial
    else CapacityAfter(Capacity(initial, ops[..|ops| - 1]), Run(EMPTY, ops))
  }

  /** The largest number of orders that ever rested at the same time. */
  function Peak(ops: seq<Op>): nat {
    if ops == [] then 0 else Max(Peak(ops[..|ops| - 1]), |BookIds(Run(EMPTY, ops))|)
  }

  lemma FewerIdsWithin(a: set<OrderId>, b: set<OrderId>, id: OrderId)
    requires a <= b + {id}
    ensures |a| <= |b| + 1
  {
    assert b + {id} == a + (b + {id} - a);
  }

  lemma AtMostOneMore(b: Book, op: Op)
    requires WellFormed(b)
    ensures |BookIds(Apply(b, op).book)| <= |BookIds(b)| + 1
  {
    match op
    case SubmitOp(order) => if Accepts(b, order) { SubmitIds(b, order); }
    case CancelOp(id) =>
      CancelKeepsWellFormed(b, id);
      FewerIdsWithin(BookIds(Cancel(b, id).book), BookIds(b), id);
    case ClearOp =>
  }

  /** The pool always has a slot for every resting order, and it never grows
      beyond its initial size, 1024, and twice the peak of resting orders. */
  lemma {:induction false} CapacityIsBounded(initial: nat, ops: seq<Op>)
    ensures |BookIds(Run(EMPTY, ops))| <= Capacity(initial, ops)
    ensures initial <= Capacity(initial, ops) <= Max(initial, Max(1024, 2 * Peak(ops)))
  {
    if ops == [] {
      assert BookIds(EMPTY) == {};
    } else {
      var before := ops[..|ops| - 1];
      CapacityIsBounded(initial, before);
      ReachableIsWellFormed(before);
      AtMostOneMore(Run(EMPTY, before), ops[|ops| - 1]);
    }
  }

  /** It never shrinks on the way. */
  lemma {:induction false} CapacityNeverFalls(initial: nat, ops: seq<Op>, k: nat)
    requires k <= |ops|
    ensures Capacity(initial, ops[..k]) <= Capacity(initial, ops)
  {
    if k < |ops| {
      var before := ops[..|ops| - 1];
      CapacityNeverFalls(initial, before, k);
      assert before[..k] == ops[..k];
    } else {
      assert ops[..k] == ops;
    }
  }

  // ------------------------------------------------- the volume cache drift

  /** The quantity traded, over a run, against the level at price `p` of `side`
      since the level was last created; 0 if there is no such level. */
  function TradedAgainst(side: Side, p: Price, ops: seq<Op>): nat {
    if ops == [] then 0
    else
      var before := ops[..|ops| - 1];
      CountAfter(TradedAgainst(side, p, before), Run(EMPTY, before), ops[|ops| - 1], side, p)
  }

  /** The pool's cached volume is the true one exactly when the quantity traded
      against the level so far is a multiple of 2^32: in particular when no trade
      has hit it since it was created. */
  lemma CacheIsRight(queue: seq<Order>, traded: nat)
    ensures Cached(queue, traded) == Wrap32(Volume(queue)) <==> traded % 0x1_0000_0000 == 0
  {
  }

  const ASK: Order := Order(1, 10, 5, 5, 0, Sell, Limit)
  const BID: Order := Order(2, 10, 3, 3, 0, Buy, Limit)

  /** The smallest drift: an offer of 5 is hit for 3. Two are left, the pool's
      cache still says five. */
  lemma CacheMayDrift()
    ensures var ops := [SubmitOp(ASK), SubmitOp(BID)];
            var queue := AtPrice(Run(EMPTY, ops).asks, 10);
            Volume(queue) == 2 && Cached(queue, TradedAgainst(Sell, 10, ops)) == 5
  {
    var ops := [SubmitOp(ASK), SubmitOp(BID)];
    assert ops[..1][..0] == [] && ops[..1][0] == SubmitOp(ASK);
    var rested := Run(EMPTY, ops[..1]);
    assert Run(EMPTY, ops[..1][..0]) == EMPTY && TradedAgainst(Sell, 10, ops[..1][..0]) == 0;
    assert Greedy(ASK, []) == Fill([], [], ASK) && Insert([], ASK) == [ASK];
    assert rested == Book([], [ASK]) && TradedAgainst(Sell, 10, ops[..1]) == 0;
    var left := ASK.(remainingQuantity := 2);
    assert Apply(rested, SubmitOp(BID)) == Outcome(Book([], [left]), true, [TradeOf(BID, ASK, 3)]);
    assert AtPrice([left], 10) == [left];
  }

  // ---------------------------------------------------- undoing a submission

  /** Cancelling an order that found nothing to trade with restores the book, the
      index and, if the pool had a free slot, the exact order of the free list; a
      pool that had to grow is left with its new slots free, in index order. */
  method SubmitThenCancel(engine: PoolOrderBook, order: Order)
    requires engine.Valid() && Room(Submit(engine.View(), order).book, |engine.nodes|)
    requires Accepts(engine.View(), order) && Passive(engine.View(), order) && order.orderType.Limit?
    modifies engine
    ensures engine.Valid() && engine.View() == old(engine.View())
    ensures engine.orderIndex == old(engine.orderIndex)
    ensures old(engine.anatomy).free != [] ==>
      engine.anatomy.free == old(engine.anatomy).free && |engine.nodes| == |old(engine.nodes)|
    ensures old(engine.anatomy).free == [] ==>
      && |engine.nodes| == Grown(|old(engine.nodes)|) <= INVALID
      && engine.anatomy.free == Range(|old(engine.nodes)|, |engine.nodes|)
  {
    ghost var b := engine.View();
    CancelUndoesSubmit(b, order);
    ghost var index, free, size := engine.orderIndex, engine.anatomy.free, |engine.nodes|;
    IndexedIds(Pool(engine.nodes, engine.freeHead, engine.orderIndex), engine.bids, engine.asks, engine.anatomy);
    var ok, trades := engine.SubmitOrder(order, []);
    IndexedIds(Pool(engine.nodes, engine.freeHead, engine.orderIndex), engine.bids, engine.asks, engine.anatomy);
    ok := engine.CancelOrder(order.orderId);
    PutAndTake(index, order.orderId, Available(size, free));
  }

  lemma PutAndTake(index: map<OrderId, Slot>, id: OrderId, available: seq<Slot>)
    requires id !in index && available != []
    ensures index[id := available[0]] - {id} == index
    ensures [available[0]] + available[1..] == available
  {
  }

  // -------------------------------------------------------- differential run

  /** No step of the run outgrows the 32-bit slot indices. */
  ghost predicate Fits(initial: nat, ops: seq<Op>) {
    && initial <= INVALID
    && forall k :: 0 <= k < |ops| ==> Room(Run(EMPTY, ops[..k + 1]), Capacity(initial, ops[..k]))
  }

  method PerformStl(engine: StlOrderBook, op: Op, outTrades: seq<Trade>) returns (ok: bool, trades: seq<Trade>)
    requires engine.Valid()
    modifies engine
    ensures engine.Valid()
    ensures var r := Apply(old(engine.View()), op);
            engine.View() == r.book && ok == r.ok && trades == outTrades + r.trades
  {
    trades := outTrades;
    match op
    case SubmitOp(order) => ok, trades := engine.SubmitOrder(order, outTrades);
    case CancelOp(id) => ok := engine.CancelOrder(id);
    case ClearOp => engine.Clear(); ok := true;
  }

  method PerformPool(engine: PoolOrderBook, op: Op, outTrades: seq<Trade>) returns (ok: bool, trades: seq<Trade>)
    requires engine.Valid() && Room(Apply(engine.View(), op).book, |engine.nodes|)
    modifies engine
    ensures engine.Valid()
    ensures var r := Apply(old(engine.View()), op);
            engine.View() == r.book && ok == r.ok && trades == outTrades + r.trades
    ensures Became(old(engine.anatomy), |old(engine.nodes)|, op, engine.anatomy, |engine.nodes|)
  {
    trades := outTrades;
    assert outTrades + [] == outTrades;
    match op
    case SubmitOp(order) => ok, trades := engine.SubmitOrder(order, outTrades);
    case CancelOp(id) => ok := engine.CancelOrder(id);
    case ClearOp => engine.Clear(); ok := true;
  }

  /** The pool stands where the run `ops` leads. */
  ghost predicate Tracks(pool: PoolOrderBook, initial: nat, ops: seq<Op>)
    reads pool
  {
    && pool.Valid()
    && pool.View() == Run(EMPTY, ops)
    && |pool.nodes| == Capacity(initial, ops)
    && forall side, p :: pool.anatomy.Count(side, p) == TradedAgainst(side, p, ops)
  }

  method AdvancePool(engine: PoolOrderBook, op: Op, outTrades: seq<Trade>, ghost initial: nat, ghost ops: seq<Op>,
                     ghost i: nat)
    returns (ok: bool, trades: seq<Trade>)
    requires i < |ops| && op == ops[i] && Tracks(engine, initial, ops[..i])
    requires Room(Run(EMPTY, ops[..i + 1]), Capacity(initial, ops[..i]))
    modifies engine
    ensures Tracks(engine, initial, ops[..i + 1])
    ensures var r := Apply(Run(EMPTY, ops[..i]), op); ok == r.ok && trades == outTrades + r.trades
  {
    RunStep(initial, ops, i);
    ghost var a := engine.anatomy;
    ok, trades := PerformPool(engine, op, outTrades);
    StepCounts(a, engine.anatomy, ops, i);
  }

  /** Both engines stand where the run `ops` leads. */
  ghost predicate Lockstep(stl: StlOrderBook, pool: PoolOrderBook, initial: nat, ops: seq<Op>)
    reads stl, pool
  {
    && stl.Valid() && stl.View() == Run(EMPTY, ops)
    && Tracks(pool, initial, ops)
  }

  method StepBoth(stl: StlOrderBook, pool: PoolOrderBook, ghost initial: nat, ghost ops: seq<Op>, ghost i: nat, op: Op,
                  stlTrades: seq<Trade>, poolTrades: seq<Trade>)
    returns (stlOk: bool, poolOk: bool, stlTrades': seq<Trade>, poolTrades': seq<Trade>)
    requires i < |ops| && op == ops[i] && Lockstep(stl, pool, initial, ops[..i])
    requires Room(Run(EMPTY, ops[..i + 1]), Capacity(initial, ops[..i]))
    requires stlTrades == poolTrades == RunTrades(EMPTY, ops[..i])
    modifies stl, pool
    ensures Lockstep(stl, pool, initial, ops[..i + 1])
    ensures stlTrades' == poolTrades' == RunTrades(EMPTY, ops[..i + 1])
    ensures RunResults(EMPTY, ops[..i + 1]) == RunResults(EMPTY, ops[..i]) + [stlOk] && stlOk == poolOk
  {
    RunStep(initial, ops, i);
    stlOk, stlTrades' := PerformStl(stl, op, stlTrades);
    poolOk, poolTrades' := AdvancePool(pool, op, poolTrades, initial, ops, i);
  }

  /** On every sequence of operations the two engines return the same booleans,
      print the same trades in the same order and end in the same book: those of
      the simple form. The pool's capacity and the quantities its caches are off
      by are functions of the sequence alone. */
  method RunBoth(ops: seq<Op>, initial: nat)
    returns (stl: StlOrderBook, pool: PoolOrderBook, stlResults: seq<bool>, poolResults: seq<bool>,
             stlTrades: seq<Trade>, poolTrades: seq<Trade>)
    requires Fits(initial, ops)
    ensures fresh(stl) && fresh(pool) && Lockstep(stl, pool, initial, ops)
    ensures stlResults == poolResults == RunResults(EMPTY, ops)
    ensures stlTrades == poolTrades == RunTrades(EMPTY, ops)
  {
    stl := new StlOrderBook();
    pool := new PoolOrderBook(initial);
    stlResults, poolResults, stlTrades, poolTrades := [], [], [], [];
    NoneLeft(ops);
    for i := 0 to |ops|
      invariant fresh(stl) && fresh(pool)
      invariant Lockstep(stl, pool, initial, ops[..i])
      invariant stlResults == poolResults == RunResults(EMPTY, ops[..i])
      invariant stlTrades == poolTrades == RunTrades(EMPTY, ops[..i])
    {
      var stlOk, poolOk;
      stlOk, poolOk, stlTrades, poolTrades := StepBoth(stl, pool, initial, ops, i, ops[i], stlTrades, poolTrades);
      stlResults, poolResults := stlResults + [stlOk], poolResults + [poolOk];
    }
    NoneLeft(ops);
  }

  lemma NoneLeft(ops: seq<Op>)
    ensures ops[..0] == [] && ops[..|ops|] == ops
  {
  }

  lemma RunStep(initial: nat, ops: seq<Op>, i: nat)
    requires i < |ops|
    ensures var r := Apply(Run(EMPTY, ops[..i]), ops[i]);
            && Run(EMPTY, ops[..i + 1]) == r.book
            && RunResults(EMPTY, ops[..i + 1]) == RunResults(EMPTY, ops[..i]) + [r.ok]
            && RunTrades(EMPTY, ops[..i + 1]) == RunTrades(EMPTY, ops[..i]) + r.trades
            && Capacity(initial, ops[..i + 1]) == CapacityAfter(Capacity(initial, ops[..i]), r.book)
  {
    assert ops[..i + 1][..i] == ops[..i];
  }

  lemma StepCounts(a: Anatomy, a': Anatomy, ops: seq<Op>, i: nat)
    requires i < |ops| && a.View() == Run(EMPTY, ops[..i]) && Counted(a, ops[i], a')
    requires forall side, p :: a.Count(side, p) == TradedAgainst(side, p, ops[..i])
    ensures forall side, p :: a'.Count(side, p) == TradedAgainst(side, p, ops[..i + 1])
  {
    assert ops[..i + 1][..i] == ops[..i];
  }

  /** After any run every observer agrees, but for the volume at a price: the
      engines show the same one exactly when the quantity traded against the
      level since it was created is a multiple of 2^32. */
  method Compare(stl: StlOrderBook, pool: PoolOrderBook, ghost initial: nat, ghost ops: seq<Op>, side: Side, p: Price,
                 id: OrderId)
    returns (sameOrder: bool, sameTop: bool, sameCensus: bool, sameVolume: bool)
    requires Lockstep(stl, pool, initial, ops)
    ensures sameOrder && sameTop && sameCensus
    ensures sameVolume <==> TradedAgainst(side, p, ops) % 0x1_0000_0000 == 0
  {
    var x := stl.GetOrder(id);
    var y := pool.GetOrder(id);
    sameOrder := x == y;
    var bid := stl.BestBid();
    var bid' := pool.BestBid();
    var ask := stl.BestAsk();
    var ask' := pool.BestAsk();
    sameTop := bid == bid' && ask == ask';
    var orders, bidLevels, askLevels := stl.Census();
    var orders', bidLevels', askLevels' := pool.Census();
    sameCensus := orders == orders' && bidLevels == bidLevels' && askLevels == askLevels';
    var volume := stl.VolumeAtPrice(side, p);
    var volume' := pool.VolumeAtPrice(side, p);
    sameVolume := volume == volume';
    CacheIsRight(AtPrice(Run(EMPTY, ops).Queue(side), p), TradedAgainst(side, p, ops));
  }
}
