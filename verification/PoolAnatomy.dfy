/** What the fields of the pooled engine stand for, and what each step of the
    engine makes of it. */
module PoolAnatomy {
  import opened Types
  import opened Book
  import opened Matching
  import opened Queues
  import opened Runs
  import opened Laws
  import opened Levels
  import opened Index
  import opened PoolShape
  import opened PoolNodes

  /** The free list in order, the levels of both sides, and where each order rests. */
  datatype Anatomy = Anatomy(free: seq<Slot>, bids: Half, asks: Half, locations: map<OrderId, Location>) {
    function Part(side: Side): Half {
      if side.Buy? then bids else asks
    }

    function View(): Book {
      Book(Flatten(Buy, bids.queues), Flatten(Sell, asks.queues))
    }

    /** The quantity traded against the level at `p` since it was created. */
    function Count(side: Side, p: Price): nat {
      CellAt(Part(side), p).traded
    }
  }

  function ShapeOf(a: Anatomy, side: Side): Shape {
    Shape(a.free, a.Part(side), a.locations)
  }

  /** The representation invariant, all of it but the order of the book. */
  ghost predicate Assembled(pool: Pool, bids: map<Price, PriceLevel>, asks: map<Price, PriceLevel>, a: Anatomy) {
    && Ready(Buy, pool, bids, ShapeOf(a, Buy))
    && Ready(Sell, pool, asks, ShapeOf(a, Sell))
  }

  function Reassemble(side: Side, g: Shape, other: Half): Anatomy {
    if side.Buy? then Anatomy(g.free, g.half, other, g.locations) else Anatomy(g.free, other, g.half, g.locations)
  }

  /** The side that was worked on and the one that was not make a whole again. */
  lemma Together(side: Side, pool: Pool, levels: map<Price, PriceLevel>, g: Shape, other: Half,
                 others: map<Price, PriceLevel>)
    requires Ready(side, pool, levels, g) && Bystander(side, pool, g.locations, other)
    requires other.levels == others && NoEmptyQueue(other.queues)
    ensures Assembled(pool, if side.Buy? then levels else others, if side.Buy? then others else levels,
                      Reassemble(side, g, other))
  {
    assert Ready(Opposite(side), pool, others, Shape(g.free, other, g.locations));
  }

  lemma ReassembledView(side: Side, a: Anatomy, g: Shape)
    ensures var a' := Reassemble(side, g, a.Part(Opposite(side)));
            && a'.View() == a.View().With(side, Flatten(side, g.half.queues))
            && a'.free == g.free && a'.Part(side) == g.half && a'.Part(Opposite(side)) == a.Part(Opposite(side))
  {
  }

  // ---------------------------------------------------------------- matching

  /** The incoming order was matched, and became `taker`. */
  ghost predicate Matched(a: Anatomy, pool: Pool, incoming: Order, a': Anatomy, pool': Pool, taker: Order,
                          trades: seq<Trade>, trades': seq<Trade>) {
    var f := Greedy(incoming, a.View().Queue(Opposite(incoming.side)));
    && a'.View() == a.View().With(Opposite(incoming.side), f.rest)
    && taker == f.taker && trades' == trades + f.trades
    && a'.Part(incoming.side) == a.Part(incoming.side)
    && (f.trades == [] ==> a'.free == a.free && pool'.index == pool.index)
    && |pool'.nodes| == |pool.nodes|
    && (forall q :: q in a'.Part(Opposite(incoming.side)).cells ==>
          a'.Count(Opposite(incoming.side), q) == a.Count(Opposite(incoming.side), q) + TradedAt(f.trades, q))
  }

  lemma FrontTrades(side: Side, queues: Levels, incoming: Order)
    requires Priced(side, queues) && NoEmptyQueue(queues) && queues != map[]
    requires Crosses(incoming, Best(side, queues.Keys)) && incoming.remainingQuantity > 0
    ensures Greedy(incoming, Flatten(side, queues)).trades != []
  {
  }

  lemma NoTradesMeansIdle(side: Side, pool: Pool, levels: map<Price, PriceLevel>, g: Shape, incoming: Order)
    requires Ready(side, pool, levels, g) && incoming.side == Opposite(side) && incoming.remainingQuantity > 0
    requires Greedy(incoming, Flatten(side, g.half.queues)).trades == []
    ensures Idle(side, levels, incoming)
  {
    SameKeys(pool.nodes, g.half, pool.index);
    if levels != map[] && Crosses(incoming, Best(side, g.half.queues.Keys)) {
      FrontTrades(side, g.half.queues, incoming);
    }
  }

  lemma SideMatched(side: Side, pool: Pool, levels: map<Price, PriceLevel>, a: Anatomy,
                    incoming: Order, trades: seq<Trade>,
                    pool': Pool, g': Shape, taker: Order, trades': seq<Trade>)
    requires Ready(side, pool, levels, ShapeOf(a, side))
    requires |pool'.nodes| == |pool.nodes|
    requires Accounted(ShapeOf(a, side), trades, g', trades')
    requires incoming.side == Opposite(side) && incoming.remainingQuantity > 0
    requires Resume(trades, Greedy(incoming, Flatten(side, a.Part(side).queues)))
         == Fill(trades', Flatten(side, g'.half.queues), taker)
    requires Idle(side, levels, incoming) ==> g' == ShapeOf(a, side) && pool' == pool
    ensures Matched(a, pool, incoming, Reassemble(side, g', a.Part(Opposite(side))), pool', taker, trades, trades')
  {
    ReassembledView(side, a, g');
    var f := Greedy(incoming, Flatten(side, a.Part(side).queues));
    if f.trades == [] { NoTradesMeansIdle(side, pool, levels, ShapeOf(a, side), incoming); }
    CountsGrow(ShapeOf(a, side), trades, g', f.trades);
  }

  lemma CountsGrow(g: Shape, trades: seq<Trade>, g': Shape, printed: seq<Trade>)
    requires Accounted(g, trades, g', trades + printed)
    ensures forall q :: q in g'.half.cells ==>
            CellAt(g'.half, q).traded == CellAt(g.half, q).traded + TradedAt(printed, q)
  {
    forall q | q in g'.half.cells ensures CellAt(g'.half, q).traded == CellAt(g.half, q).traded + TradedAt(printed, q) {
      TradedAtConcat(trades, printed, q);
    }
  }

  /** What the matching functions need of an assembled pool. */
  lemma Disassembled(pool: Pool, bids: map<Price, PriceLevel>, asks: map<Price, PriceLevel>, a: Anatomy)
    requires Assembled(pool, bids, asks, a)
    ensures Ready(Buy, pool, bids, ShapeOf(a, Buy)) && Bystander(Buy, pool, ShapeOf(a, Buy).locations, a.asks)
    ensures Ready(Sell, pool, asks, ShapeOf(a, Sell)) && Bystander(Sell, pool, ShapeOf(a, Sell).locations, a.bids)
    ensures a.bids.levels == bids && NoEmptyQueue(a.bids.queues) && a.asks.levels == asks && NoEmptyQueue(a.asks.queues)
  {
  }

  /** The dispatch on the incoming order's side. */
  method Match(pool: Pool, bids: map<Price, PriceLevel>, asks: map<Price, PriceLevel>, ghost a: Anatomy,
               incoming: Order, outTrades: seq<Trade>)
    returns (pool': Pool, bids': map<Price, PriceLevel>, asks': map<Price, PriceLevel>, ghost a': Anatomy,
             taker: Order, trades: seq<Trade>)
    requires Assembled(pool, bids, asks, a) && incoming.remainingQuantity > 0
    ensures Assembled(pool', bids', asks', a') && Matched(a, pool, incoming, a', pool', taker, outTrades, trades)
    ensures var f := Greedy(incoming, a.View().Queue(Opposite(incoming.side)));
            taker == f.taker && trades == outTrades + f.trades
  {
    ghost var g;
    bids', asks' := bids, asks;
    Disassembled(pool, bids, asks, a);
    if incoming.side.Buy? {
      pool', asks', taker, trades, g := MatchBuy(pool, asks, ShapeOf(a, Sell), a.bids, incoming, outTrades);
      SideMatched(Sell, pool, asks, a, incoming, outTrades, pool', g, taker, trades);
      Together(Sell, pool', asks', g, a.bids, bids);
      a' := Reassemble(Sell, g, a.bids);
    } else {
      pool', bids', taker, trades, g := MatchSell(pool, bids, ShapeOf(a, Buy), a.asks, incoming, outTrades);
      SideMatched(Buy, pool, bids, a, incoming, outTrades, pool', g, taker, trades);
      Together(Buy, pool', bids', g, a.asks, asks);
      a' := Reassemble(Buy, g, a.asks);
    }
  }

  // ----------------------------------------------------------------- resting

  /** `order` took the first available slot and joined the queue at its price. */
  ghost predicate Rested(a: Anatomy, pool: Pool, order: Order, a': Anatomy, pool': Pool)
  {
    && |pool.nodes| <= INVALID && (a.free == [] ==> Grown(|pool.nodes|) <= INVALID)
    && |pool'.nodes| == (if a.free == [] then Grown(|pool.nodes|) else |pool.nodes|)
    && pool'.index == pool.index[order.orderId := Available(|pool.nodes|, a.free)[0]]
    && a'.View() == a.View().With(order.side, Insert(a.View().Queue(order.side), order))
    && a'.free == Available(|pool.nodes|, a.free)[1..]
    && a'.Part(Opposite(order.side)) == a.Part(Opposite(order.side))
    && (forall q :: a'.Count(order.side, q) == a.Count(order.side, q))
  }

  lemma SideRested(side: Side, pool: Pool, levels: map<Price, PriceLevel>, a: Anatomy, order: Order, pool': Pool,
                   g': Shape)
    requires order.side == side && Ready(side, pool, levels, ShapeOf(a, side))
    requires |pool.nodes| <= INVALID && (a.free == [] ==> Grown(|pool.nodes|) <= INVALID)
    requires var half, slot := a.Part(side), Available(|pool.nodes|, a.free)[0];
             && g'.half.queues == half.queues[order.price := QueueAt(half.queues, order.price) + [order]]
             && g'.half.cells
                == half.cells[order.price := Cell(CellAt(half, order.price).chain + [slot],
                                                  CellAt(half, order.price).traded)]
    requires |pool'.nodes| == if a.free == [] then Grown(|pool.nodes|) else |pool.nodes|
    requires pool'.index == pool.index[order.orderId := Available(|pool.nodes|, a.free)[0]]
    requires g'.free == Available(|pool.nodes|, a.free)[1..]
    ensures Rested(a, pool, order, Reassemble(side, g', a.Part(Opposite(side))), pool')
  {
    var half, slot := a.Part(side), Available(|pool.nodes|, a.free)[0];
    FlattenInsert(side, half.queues, order);
    ReassembledView(side, a, g');
    CountsKept(half, g'.half, order.price, slot);
  }

  lemma CountsKept(half: Half, half': Half, p: Price, slot: Slot)
    requires half'.cells == half.cells[p := Cell(CellAt(half, p).chain + [slot], CellAt(half, p).traded)]
    ensures forall q :: CellAt(half', q).traded == CellAt(half, q).traded
  {
  }

  method Rest(pool: Pool, bids: map<Price, PriceLevel>, asks: map<Price, PriceLevel>, ghost a: Anatomy, order: Order)
    returns (pool': Pool, bids': map<Price, PriceLevel>, asks': map<Price, PriceLevel>, ghost a': Anatomy)
    requires Assembled(pool, bids, asks, a) && order.orderId !in pool.index
    requires a.free == [] ==> Grown(|pool.nodes|) <= INVALID
    ensures Assembled(pool', bids', asks', a') && Rested(a, pool, order, a', pool')
  {
    ghost var g;
    bids', asks' := bids, asks;
    Disassembled(pool, bids, asks, a);
    if order.side.Buy? {
      pool', bids', g := RestOrder(pool, bids, ShapeOf(a, Buy), a.asks, order);
      SideRested(Buy, pool, bids, a, order, pool', g);
      Together(Buy, pool', bids', g, a.asks, asks);
      a' := Reassemble(Buy, g, a.asks);
    } else {
      pool', asks', g := RestOrder(pool, asks, ShapeOf(a, Sell), a.bids, order);
      SideRested(Sell, pool, asks, a, order, pool', g);
      Together(Sell, pool', asks', g, a.bids, bids);
      a' := Reassemble(Sell, g, a.bids);
    }
  }

  // ------------------------------------------------------- whole operations

  /** The pool doubles exactly when the live orders outgrow it. */
  function CapacityAfter(size: nat, b: Book): nat {
    if |BookIds(b)| <= size then size else Grown(size)
  }

  /** What an operation makes of the quantity traded against a level since the
      level was created; a level that is gone starts again at zero. */
  function CountAfter(count: nat, b: Book, op: Op, side: Side, p: Price): nat {
    var r := Apply(b, op);
    if AtPrice(r.book.Queue(side), p) == [] then 0
    else count + if op.SubmitOp? && op.order.side == Opposite(side) then TradedAt(r.trades, p) else 0
  }

  ghost predicate Counted(a: Anatomy, op: Op, a': Anatomy) {
    forall side, p :: a'.Count(side, p) == CountAfter(a.Count(side, p), a.View(), op, side, p)
  }

  /** The operation did to the pool what it does to the book. */
  ghost predicate Became(a: Anatomy, size: nat, op: Op, a': Anatomy, size': nat) {
    && a'.View() == Apply(a.View(), op).book
    && size' == CapacityAfter(size, a'.View())
    && Counted(a, op, a')
  }

  lemma IndexedIds(pool: Pool, bids: map<Price, PriceLevel>, asks: map<Price, PriceLevel>, a: Anatomy)
    requires Assembled(pool, bids, asks, a)
    ensures pool.index.Keys == BookIds(a.View())
    ensures |a.free| + |BookIds(a.View())| == |pool.nodes|
  {
    LocatedIds(a.bids.queues, a.asks.queues, a.locations);
    assert |pool.index| == |pool.index.Keys|;
  }

  lemma LocatedIds(bids: Levels, asks: Levels, locations: map<OrderId, Location>)
    requires Agree(Buy, bids, locations) && Agree(Sell, asks, locations)
    ensures locations.Keys == Ids(Flatten(Buy, bids)) + Ids(Flatten(Sell, asks))
  {
    forall id: OrderId ensures id in locations <==> id in Ids(Flatten(Buy, bids)) + Ids(Flatten(Sell, asks)) {
      IndexedOnSide(Buy, bids, locations, id);
      IndexedOnSide(Sell, asks, locations, id);
    }
  }

  /** A level exists exactly where there are orders. */
  lemma NoLevelNoCount(side: Side, pool: Pool, levels: map<Price, PriceLevel>, g: Shape, p: Price)
    requires Ready(side, pool, levels, g)
    ensures AtPrice(Flatten(side, g.half.queues), p) == [] <==> p !in g.half.cells
  {
    FlattenAtPrice(side, g.half.queues, p);
    SameKeys(pool.nodes, g.half, pool.index);
  }

  ghost predicate LevelPerPrice(a: Anatomy) {
    forall side, p :: AtPrice(a.View().Queue(side), p) == [] <==> p !in a.Part(side).cells
  }

  lemma EveryPriceItsLevel(pool: Pool, bids: map<Price, PriceLevel>, asks: map<Price, PriceLevel>, a: Anatomy)
    requires Assembled(pool, bids, asks, a)
    ensures LevelPerPrice(a)
  {
    forall side, p ensures AtPrice(a.View().Queue(side), p) == [] <==> p !in a.Part(side).cells {
      if side.Buy? {
        NoLevelNoCount(Buy, pool, bids, ShapeOf(a, Buy), p);
      } else {
        NoLevelNoCount(Sell, pool, asks, ShapeOf(a, Sell), p);
      }
    }
  }

  function CountKept(count: nat, b': Book, side: Side, p: Price): nat {
    if AtPrice(b'.Queue(side), p) == [] then 0 else count
  }

  function CountMatched(count: nat, order: Order, b: Book, b': Book, side: Side, p: Price): nat {
    if AtPrice(b'.Queue(side), p) == [] then 0
    else count + if order.side == Opposite(side) then TradedAt(Greedy(order, b.Queue(side)).trades, p) else 0
  }

  /** The quantities traded against the levels, after the incoming order was matched. */
  lemma MatchedCounts(a: Anatomy, order: Order, a': Anatomy, side: Side, p: Price)
    requires AtPrice(a'.View().Queue(side), p) == [] <==> p !in a'.Part(side).cells
    requires order.side == side ==> a'.Part(side) == a.Part(side)
    requires order.side != side && p in a'.Part(side).cells ==>
      a'.Count(side, p) == a.Count(side, p) + TradedAt(Greedy(order, a.View().Queue(side)).trades, p)
    ensures a'.Count(side, p) == CountMatched(a.Count(side, p), order, a.View(), a'.View(), side, p)
  {
  }

  lemma MatchedIds(b: Book, incoming: Order)
    requires WellFormed(b) && Accepts(b, incoming)
    ensures var f := Greedy(Effective(incoming), b.Queue(Opposite(incoming.side)));
            && f.taker == Effective(incoming).(remainingQuantity := f.taker.remainingQuantity)
            && Ids(f.rest) <= Ids(b.Queue(Opposite(incoming.side)))
            && Ids(Insert(b.Queue(incoming.side), f.taker)) == Ids(b.Queue(incoming.side)) + {incoming.orderId}
  {
    var order, other := Effective(incoming), b.Queue(Opposite(incoming.side));
    var f := Greedy(order, other);
    GreedyConserves(order, other);
    var at := GreedyThins(order, other);
    ThinnedKeepsSide(Opposite(incoming.side), other, f.rest, at);
    InsertContents(b.Queue(incoming.side), f.taker);
  }

  /** Matching only loses ids, and resting adds one. */
  lemma SubmitIds(b: Book, incoming: Order)
    requires WellFormed(b) && Accepts(b, incoming)
    ensures var f := Greedy(Effective(incoming), b.Queue(Opposite(incoming.side)));
            var matched := b.With(Opposite(incoming.side), f.rest);
            && incoming.orderId !in BookIds(matched) && |BookIds(matched)| <= |BookIds(b)|
            && |BookIds(matched.With(incoming.side, Insert(matched.Queue(incoming.side), f.taker)))|
                == |BookIds(matched)| + 1
  {
    MatchedIds(b, incoming);
    var f := Greedy(Effective(incoming), b.Queue(Opposite(incoming.side)));
    OneMore(Ids(f.rest), Ids(b.Queue(Opposite(incoming.side))), Ids(b.Queue(incoming.side)), incoming.orderId);
  }

  lemma OneMore(rest: set<OrderId>, other: set<OrderId>, mine: set<OrderId>, id: OrderId)
    requires rest <= other && id !in other + mine
    ensures |rest + mine| <= |other + mine| && |rest + (mine + {id})| == |rest + mine| + 1 == |(mine + {id}) + rest|
    ensures rest + mine == mine + rest && other + mine == mine + other
  {
    assert other + mine == (rest + mine) + ((other + mine) - (rest + mine));
    assert rest + (mine + {id}) == (rest + mine) + {id} == (mine + {id}) + rest;
  }

  /** What is left to do once an accepted order was matched. */
  ghost predicate LeftToRest(b: Book, incoming: Order, b': Book, taker: Order) {
    var r := Submit(b, incoming);
    && taker == Effective(incoming).(remainingQuantity := taker.remainingQuantity)
    && |BookIds(b')| <= |BookIds(b)|
    && if taker.remainingQuantity > 0 && incoming.orderType.Limit? then
         && r.book == b'.With(incoming.side, Insert(b'.Queue(incoming.side), taker))
         && |BookIds(r.book)| == |BookIds(b')| + 1
       else r.book == b'
  }

  lemma MatchedLeaves(b: Book, incoming: Order, b': Book, taker: Order)
    requires WellFormed(b) && Accepts(b, incoming)
    requires var f := Greedy(Effective(incoming), b.Queue(Opposite(incoming.side)));
             taker == f.taker && b' == b.With(Opposite(incoming.side), f.rest)
    ensures incoming.orderId !in BookIds(b') && LeftToRest(b, incoming, b', taker)
  {
    MatchedIds(b, incoming);
    SubmitIds(b, incoming);
  }

  lemma SubmitMatched(pool: Pool, pool': Pool, bids': map<Price, PriceLevel>, asks': map<Price, PriceLevel>,
                      a: Anatomy, incoming: Order,
                      a': Anatomy, taker: Order, trades: seq<Trade>, trades': seq<Trade>)
    requires Assembled(pool', bids', asks', a') && WellFormed(a.View())
    requires Accepts(a.View(), incoming) && Matched(a, pool, Effective(incoming), a', pool', taker, trades, trades')
    ensures Submit(a.View(), incoming).ok && trades' == trades + Submit(a.View(), incoming).trades
    ensures incoming.orderId !in pool'.index && LeftToRest(a.View(), incoming, a'.View(), taker)
    ensures |a'.free| + |BookIds(a'.View())| == |pool'.nodes|
  {
    IndexedIds(pool', bids', asks', a');
    MatchedLeaves(a.View(), incoming, a'.View(), taker);
  }

  /** An order that finds nothing to trade with takes the first available slot. */
  ghost predicate TookFirst(a: Anatomy, pool: Pool, incoming: Order, a': Anatomy, pool': Pool) {
    Accepts(a.View(), incoming) && Passive(a.View(), incoming) && incoming.orderType.Limit? ==>
      && |pool.nodes| <= INVALID && (a.free == [] ==> Grown(|pool.nodes|) <= INVALID)
      && a'.free == Available(|pool.nodes|, a.free)[1..]
      && pool'.index == pool.index[incoming.orderId := Available(|pool.nodes|, a.free)[0]]
  }

  lemma CountAfterSubmit(count: nat, b: Book, incoming: Order, side: Side, p: Price)
    requires Accepts(b, incoming)
    ensures CountAfter(count, b, SubmitOp(incoming), side, p)
         == CountMatched(count, Effective(incoming), b, Submit(b, incoming).book, side, p)
  {
  }

  ghost predicate CountsMatched(a: Anatomy, order: Order, a': Anatomy) {
    forall side, p :: a'.Count(side, p) ==
      CountMatched(a.Count(side, p), order, a.View(), a'.View(), side, p)
  }

  lemma MatchedAllCounts(pool: Pool, pool': Pool, a: Anatomy, order: Order,
                         a': Anatomy, taker: Order, trades: seq<Trade>, trades': seq<Trade>)
    requires LevelPerPrice(a') && Matched(a, pool, order, a', pool', taker, trades, trades')
    ensures CountsMatched(a, order, a')
  {
    forall side, p ensures a'.Count(side, p) ==
      CountMatched(a.Count(side, p), order, a.View(), a'.View(), side, p)
    {
      MatchedCounts(a, order, a', side, p);
    }
  }

  lemma EndsCounted(a: Anatomy, incoming: Order, a': Anatomy)
    requires CountsMatched(a, Effective(incoming), a')
    requires Accepts(a.View(), incoming) && Submit(a.View(), incoming).book == a'.View()
    ensures Counted(a, SubmitOp(incoming), a')
  {
    forall side, p ensures a'.Count(side, p) == CountAfter(a.Count(side, p), a.View(), SubmitOp(incoming), side, p) {
      CountAfterSubmit(a.Count(side, p), a.View(), incoming, side, p);
    }
  }

  lemma PassiveMeansNoTrades(b: Book, incoming: Order)
    requires Accepts(b, incoming)
    ensures Passive(b, incoming) ==>
      var f := Greedy(Effective(incoming), b.Queue(Opposite(incoming.side)));
        f.trades == [] && f.taker == Effective(incoming)
  {
  }

  /** The order did not rest. */
  lemma SubmitEnds(pool: Pool, bids: map<Price, PriceLevel>, asks: map<Price, PriceLevel>, a: Anatomy, incoming: Order,
                   pool': Pool, bids': map<Price, PriceLevel>, asks': map<Price, PriceLevel>, a': Anatomy,
                   taker: Order, trades: seq<Trade>, trades': seq<Trade>)
    requires Assembled(pool, bids, asks, a) && Assembled(pool', bids', asks', a') && WellFormed(a.View())
    requires Accepts(a.View(), incoming) && Matched(a, pool, Effective(incoming), a', pool', taker, trades, trades')
    requires !(taker.remainingQuantity > 0 && incoming.orderType.Limit?)
    ensures Became(a, |pool.nodes|, SubmitOp(incoming), a', |pool'.nodes|)
    ensures TookFirst(a, pool, incoming, a', pool')
  {
    SubmitMatched(pool, pool', bids', asks', a, incoming, a', taker, trades, trades');
    EveryPriceItsLevel(pool', bids', asks', a');
    MatchedAllCounts(pool, pool', a, Effective(incoming), a', taker, trades, trades');
    EndsCounted(a, incoming, a');
    PassiveMeansNoTrades(a.View(), incoming);
  }

  lemma OwnCounts(pool1: Pool, a: Anatomy, a1: Anatomy, taker: Order, pool': Pool, a': Anatomy, p: Price)
    requires a1.Part(taker.side) == a.Part(taker.side)
    requires LevelPerPrice(a') && Rested(a1, pool1, taker, a', pool')
    ensures a'.Count(taker.side, p) == CountKept(a.Count(taker.side, p), a'.View(), taker.side, p)
  {
    assert a'.Count(taker.side, p) == a1.Count(taker.side, p);
  }

  lemma RestedCounted(a: Anatomy, incoming: Order, a1: Anatomy, a': Anatomy)
    requires CountsMatched(a, Effective(incoming), a1)
    requires a'.Part(Opposite(incoming.side)) == a1.Part(Opposite(incoming.side))
    requires forall p :: a'.Count(incoming.side, p) == CountKept(a.Count(incoming.side, p), a'.View(), incoming.side, p)
    requires Accepts(a.View(), incoming) && Submit(a.View(), incoming).book == a'.View()
    ensures Counted(a, SubmitOp(incoming), a')
  {
    forall side, p ensures a'.Count(side, p) == CountAfter(a.Count(side, p), a.View(), SubmitOp(incoming), side, p) {
      CountAfterSubmit(a.Count(side, p), a.View(), incoming, side, p);
      if side != incoming.side {
        assert a'.Count(side, p) == a1.Count(side, p) && a'.View().Queue(side) == a1.View().Queue(side);
      }
    }
  }

  lemma RestCounted(pool: Pool, a: Anatomy, incoming: Order, pool1: Pool, a1: Anatomy,
                    taker: Order, trades: seq<Trade>, trades': seq<Trade>, pool': Pool, a': Anatomy)
    requires LevelPerPrice(a1) && Matched(a, pool, Effective(incoming), a1, pool1, taker, trades, trades')
    requires LevelPerPrice(a') && Rested(a1, pool1, taker, a', pool')
    requires taker.side == incoming.side && Accepts(a.View(), incoming) && Submit(a.View(), incoming).book == a'.View()
    ensures Counted(a, SubmitOp(incoming), a')
  {
    MatchedAllCounts(pool, pool1, a, Effective(incoming), a1, taker, trades, trades');
    forall p ensures a'.Count(incoming.side, p) == CountKept(a.Count(incoming.side, p), a'.View(), incoming.side, p) {
      OwnCounts(pool1, a, a1, taker, pool', a', p);
    }
    RestedCounted(a, incoming, a1, a');
  }

  lemma RestGrows(a: Anatomy, pool: Pool, order: Order, a': Anatomy, pool': Pool)
    requires Rested(a, pool, order, a', pool') && |a.free| + |BookIds(a.View())| == |pool.nodes|
    requires |BookIds(a'.View())| == |BookIds(a.View())| + 1
    ensures |pool'.nodes| == CapacityAfter(|pool.nodes|, a'.View())
  {
  }

  lemma PassiveRests(pool: Pool, a: Anatomy, incoming: Order, pool1: Pool, a1: Anatomy,
                     taker: Order, trades: seq<Trade>, trades': seq<Trade>, pool': Pool, a': Anatomy)
    requires Accepts(a.View(), incoming) && taker.orderId == incoming.orderId
    requires Matched(a, pool, Effective(incoming), a1, pool1, taker, trades, trades')
    requires Rested(a1, pool1, taker, a', pool')
    ensures TookFirst(a, pool, incoming, a', pool')
  {
    PassiveMeansNoTrades(a.View(), incoming);
  }

  /** The leftover rested. */
  lemma SubmitRests(pool: Pool, a: Anatomy, incoming: Order,
                    pool1: Pool, bids1: map<Price, PriceLevel>, asks1: map<Price, PriceLevel>, a1: Anatomy,
                    taker: Order, trades: seq<Trade>, trades': seq<Trade>,
                    pool': Pool, bids': map<Price, PriceLevel>, asks': map<Price, PriceLevel>, a': Anatomy)
    requires WellFormed(a.View()) && Accepts(a.View(), incoming)
    requires Assembled(pool1, bids1, asks1, a1)
    requires Matched(a, pool, Effective(incoming), a1, pool1, taker, trades, trades')
    requires taker.remainingQuantity > 0 && incoming.orderType.Limit?
    requires Assembled(pool', bids', asks', a') && Rested(a1, pool1, taker, a', pool')
    ensures Became(a, |pool.nodes|, SubmitOp(incoming), a', |pool'.nodes|)
    ensures TookFirst(a, pool, incoming, a', pool')
  {
    SubmitMatched(pool, pool1, bids1, asks1, a, incoming, a1, taker, trades, trades');
    assert taker.side == incoming.side && taker.orderId == incoming.orderId;
    assert Submit(a.View(), incoming).book == a'.View();
    EveryPriceItsLevel(pool1, bids1, asks1, a1);
    EveryPriceItsLevel(pool', bids', asks', a');
    RestCounted(pool, a, incoming, pool1, a1, taker, trades, trades', pool', a');
    RestGrows(a1, pool1, taker, a', pool');
    PassiveRests(pool, a, incoming, pool1, a1, taker, trades, trades', pool', a');
  }

  /** The pool can hold the book the operation leads to, or may double. */
  predicate Room(b: Book, size: nat) {
    |BookIds(b)| <= size || Grown(size) <= INVALID
  }

  /** Nothing was traded against the levels that are left. */
  ghost predicate CountsKeptOnly(a: Anatomy, a': Anatomy) {
    forall side, p :: a'.Count(side, p) == CountKept(a.Count(side, p), a'.View(), side, p)
  }

  lemma AllKept(a: Anatomy, a': Anatomy)
    requires LevelPerPrice(a')
    requires forall side, q :: q in a'.Part(side).cells ==> a'.Count(side, q) == a.Count(side, q)
    ensures CountsKeptOnly(a, a')
  {
  }

  lemma OutcomeKept(a: Anatomy, op: Op, a': Anatomy)
    requires CountsKeptOnly(a, a') && a'.View() == Apply(a.View(), op).book && Apply(a.View(), op).trades == []
    ensures Counted(a, op, a')
  {
  }

  /** The operation had no effect. */
  lemma Unchanged(a: Anatomy, size: nat, op: Op)
    requires LevelPerPrice(a) && |BookIds(a.View())| <= size
    requires Apply(a.View(), op).book == a.View() && Apply(a.View(), op).trades == []
    ensures Became(a, size, op, a, size)
  {
    AllKept(a, a);
    OutcomeKept(a, op, a);
  }

  /** A rejected order changes nothing. */
  lemma SubmitRejected(a: Anatomy, pool: Pool, incoming: Order, trades: seq<Trade>)
    requires LevelPerPrice(a) && |BookIds(a.View())| <= |pool.nodes| && !Accepts(a.View(), incoming)
    ensures Became(a, |pool.nodes|, SubmitOp(incoming), a, |pool.nodes|) && TookFirst(a, pool, incoming, a, pool)
    ensures trades == trades + Submit(a.View(), incoming).trades
  {
    Unchanged(a, |pool.nodes|, SubmitOp(incoming));
  }

  // -------------------------------------------------------------- cancelling

  /** The order left its level and gave its slot back as the first free one. */
  ghost predicate Cancelled(a: Anatomy, pool: Pool, id: OrderId, a': Anatomy, pool': Pool) {
    && id in pool.index
    && a'.View() == Cancel(a.View(), id).book
    && a'.free == [pool.index[id]] + a.free
    && |pool'.nodes| == |pool.nodes| && pool'.index == pool.index - {id}
    && Counted(a, CancelOp(id), a')
  }

  lemma CancelCounted(pool': Pool, bids': map<Price, PriceLevel>, asks': map<Price, PriceLevel>, a: Anatomy,
                      id: OrderId, a': Anatomy)
    requires Assembled(pool', bids', asks', a') && a'.View() == Cancel(a.View(), id).book
    requires forall side, q :: q in a'.Part(side).cells ==> a'.Count(side, q) == a.Count(side, q)
    ensures Counted(a, CancelOp(id), a')
  {
    EveryPriceItsLevel(pool', bids', asks', a');
    AllKept(a, a');
    OutcomeKept(a, CancelOp(id), a');
  }

  /** The other side does not know the order. */
  lemma NotThere(side: Side, pool: Pool, levels: map<Price, PriceLevel>, g: Shape, other: Half, id: OrderId)
    requires Ready(side, pool, levels, g) && Bystander(side, pool, g.locations, other)
    requires id in pool.index && pool.index[id] < |pool.nodes| && pool.nodes[pool.index[id]].order.side == side
    ensures Remove(Flatten(Opposite(side), other.queues), id) == Flatten(Opposite(side), other.queues)
  {
    var k := IndexLeads(side, pool, levels, g, other, id);
    IndexedOnSide(Opposite(side), other.queues, g.locations, id);
    RemoveAbsent(Flatten(Opposite(side), other.queues), id);
  }

  lemma SideCancelled(side: Side, a: Anatomy, g': Shape, id: OrderId, queue: seq<Order>)
    requires queue == Flatten(side, g'.half.queues) == Remove(Flatten(side, a.Part(side).queues), id)
    requires var other := Flatten(Opposite(side), a.Part(Opposite(side)).queues); Remove(other, id) == other
    requires Accounted(ShapeOf(a, side), [], g', [])
    ensures var a' := Reassemble(side, g', a.Part(Opposite(side)));
            && a'.View() == Cancel(a.View(), id).book
            && forall s, q :: q in a'.Part(s).cells ==> a'.Count(s, q) == a.Count(s, q)
  {
  }

  method Erase(pool: Pool, bids: map<Price, PriceLevel>, asks: map<Price, PriceLevel>, ghost a: Anatomy, id: OrderId)
    returns (pool': Pool, bids': map<Price, PriceLevel>, asks': map<Price, PriceLevel>, ghost a': Anatomy)
    requires Assembled(pool, bids, asks, a) && id in pool.index
    ensures Assembled(pool', bids', asks', a') && Cancelled(a, pool, id, a', pool')
  {
    ghost var g;
    bids', asks' := bids, asks;
    Disassembled(pool, bids, asks, a);
    if pool.nodes[pool.index[id]].order.side.Buy? {
      pool', bids', g := EraseOrder(pool, bids, ShapeOf(a, Buy), a.asks, Buy, id);
      a' := Reassemble(Buy, g, a.asks);
      Together(Buy, pool', bids', g, a.asks, asks);
      NotThere(Buy, pool, bids, ShapeOf(a, Buy), a.asks, id);
      SideCancelled(Buy, a, g, id, Flatten(Buy, g.half.queues));
    } else {
      pool', asks', g := EraseOrder(pool, asks, ShapeOf(a, Sell), a.bids, Sell, id);
      a' := Reassemble(Sell, g, a.bids);
      Together(Sell, pool', asks', g, a.bids, bids);
      NotThere(Sell, pool, asks, ShapeOf(a, Sell), a.bids, id);
      SideCancelled(Sell, a, g, id, Flatten(Sell, g.half.queues));
    }
    CancelCounted(pool', bids', asks', a, id, a');
  }

  lemma CancelBecame(a: Anatomy, pool: Pool, id: OrderId, a': Anatomy, pool': Pool)
    requires Cancelled(a, pool, id, a', pool') && |BookIds(a'.View())| <= |pool'.nodes|
    ensures Became(a, |pool.nodes|, CancelOp(id), a', |pool'.nodes|)
  {
  }

  lemma CancelMissed(a: Anatomy, size: nat, id: OrderId)
    requires LevelPerPrice(a) && |BookIds(a.View())| <= size && id !in BookIds(a.View())
    ensures Cancel(a.View(), id) == Outcome(a.View(), false, [])
    ensures Became(a, size, CancelOp(id), a, size)
  {
    RemoveAbsent(a.View().bids, id);
    RemoveAbsent(a.View().asks, id);
    Unchanged(a, size, CancelOp(id));
  }

  // ------------------------------------------------------ the empty pool

  /** Nothing rests, and the free list runs through all slots in order. */
  function Blank(size: nat): Anatomy
    requires size <= INVALID
  {
    Anatomy(Range(0, size), Half(map[], map[], map[]), Half(map[], map[], map[]), map[])
  }

  lemma BlankIsAssembled(nodes: seq<OrderNode>)
    requires |nodes| <= INVALID
    requires forall i: Slot :: i < |nodes| ==> nodes[i].next == if i + 1 < |nodes| then i + 1 else INVALID
    ensures Assembled(Pool(nodes, if |nodes| > 0 then 0 else INVALID, map[]), map[], map[], Blank(|nodes|))
    ensures Blank(|nodes|).View() == EMPTY && WellFormed(EMPTY)
  {
    FreshList(nodes, 0);
    var free := Range(0, |nodes|);
    forall i: Slot | i < |nodes| ensures i in free { assert free[i] == i; }
  }

  lemma BlankBecame(a: Anatomy, size: nat)
    requires size <= INVALID
    ensures Became(a, size, ClearOp, Blank(size), size)
  {
  }

  // -------------------------------------------------------------- observers

  /** The index leads to the order the book knows by this id. */
  lemma IndexFinds(pool: Pool, bids: map<Price, PriceLevel>, asks: map<Price, PriceLevel>, a: Anatomy, id: OrderId)
    requires Assembled(pool, bids, asks, a) && WellFormed(a.View())
    requires id in pool.index
    ensures pool.index[id] < |pool.nodes| && Lookup(a.View(), id) == Some(pool.nodes[pool.index[id]].order)
  {
    var side := pool.nodes[pool.index[id]].order.side;
    Disassembled(pool, bids, asks, a);
    if side.Buy? {
      var k := IndexLeads(Buy, pool, bids, ShapeOf(a, Buy), a.asks, id);
      IndexFindsIn(Buy, pool, a.bids.queues, a.locations, id, k);
    } else {
      var k := IndexLeads(Sell, pool, asks, ShapeOf(a, Sell), a.bids, id);
      IndexFindsIn(Sell, pool, a.asks.queues, a.locations, id, k);
    }
  }

  lemma IndexFindsIn(side: Side, pool: Pool, queues: Levels, locations: map<OrderId, Location>, id: OrderId, k: nat)
    requires id in pool.index && pool.index[id] < |pool.nodes| && Distinct(Flatten(side, queues))
    requires var order := pool.nodes[pool.index[id]].order;
             order.orderId == id && order.price in queues && k < |queues[order.price]| &&
               queues[order.price][k] == order
    ensures Find(Flatten(side, queues), id) == Some(pool.nodes[pool.index[id]].order)
    ensures id in Ids(Flatten(side, queues))
  {
    var j := FlattenHolds(side, queues, pool.nodes[pool.index[id]].order.price, k);
    RemoveAt(Flatten(side, queues), j);
    IdsAt(Flatten(side, queues), j);
  }

  lemma TopIsBest(side: Side, pool: Pool, levels: map<Price, PriceLevel>, g: Shape)
    requires Ready(side, pool, levels, g)
    ensures TopPrice(Flatten(side, g.half.queues)) == if levels == map[] then None else Some(Best(side, levels.Keys))
    ensures levels.Keys == Prices(Flatten(side, g.half.queues))
  {
    SameKeys(pool.nodes, g.half, pool.index);
    TopOfLevels(side, g.half.queues);
  }

  /** What a level's cache shows: the live quantity of its queue and everything
      traded against it since it was created, modulo 2^32. */
  function Cached(queue: seq<Order>, traded: nat): Quantity {
    Wrap32(Volume(queue) + traded)
  }

  lemma LevelVolume(nodes: seq<OrderNode>, half: Half, index: map<OrderId, Slot>, p: Price)
    requires HalfLinked(nodes, half, index)
    ensures (if p in half.levels then half.levels[p].totalVolume else 0)
         == Cached(QueueAt(half.queues, p), CellAt(half, p).traded)
  {
    if p in half.levels { assert p in half.cells; }
  }

  /** The exact law of the cached volume. */
  lemma CachedVolume(side: Side, pool: Pool, levels: map<Price, PriceLevel>, g: Shape, p: Price)
    requires Ready(side, pool, levels, g)
    ensures (if p in levels then levels[p].totalVolume else 0)
         == Cached(AtPrice(Flatten(side, g.half.queues), p), CellAt(g.half, p).traded)
  {
    LevelVolume(pool.nodes, g.half, pool.index, p);
    FlattenAtPrice(side, g.half.queues, p);
  }
}
