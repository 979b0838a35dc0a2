/** Properties of whole runs of submissions, cancels and flushes. */
module Runs {
  import opened Types
  import opened Book
  import opened Matching
  import opened Queues

  /** A buyer and a seller who would trade with each other never both rest. */
  ghost predicate NotCrossed(b: Book) {
    b.bids != [] && b.asks != [] ==> b.bids[0].price < b.asks[0].price
  }

  ghost predicate WellFormed(b: Book) {
    && SideOk(Buy, b.bids)
    && SideOk(Sell, b.asks)
    && Ids(b.bids) !! Ids(b.asks)
    && NotCrossed(b)
  }

  // ------------------------------------------------- what every step keeps

  lemma SubmitKeepsWellFormed(b: Book, order: Order)
    requires WellFormed(b)
    ensures WellFormed(Submit(b, order).book)
  {
    if Accepts(b, order) {
      var side, taker := order.side, Effective(order);
      var mine, other := b.Queue(side), b.Queue(Opposite(side));
      var fill := Greedy(taker, other);
      var at := GreedyThins(taker, other);
      ThinnedKeepsSide(Opposite(side), other, fill.rest, at);
      GreedyConserves(taker, other);
      if fill.taker.remainingQuantity > 0 && order.orderType.Limit? {
        InsertKeepsSide(side, mine, fill.taker);
        InsertContents(mine, fill.taker);
        InsertAt(mine, fill.taker);
      }
    }
  }

  lemma CancelKeepsWellFormed(b: Book, id: OrderId)
    requires WellFormed(b)
    ensures WellFormed(Cancel(b, id).book)
    ensures BookIds(Cancel(b, id).book) == BookIds(b) - {id}
  {
    var bidsAt := RemoveThins(b.bids, id);
    var asksAt := RemoveThins(b.asks, id);
    ThinnedKeepsSide(Buy, b.bids, Remove(b.bids, id), bidsAt);
    ThinnedKeepsSide(Sell, b.asks, Remove(b.asks, id), asksAt);
    RemoveContents(b.bids, id);
    RemoveContents(b.asks, id);
  }

  lemma ApplyKeepsWellFormed(b: Book, op: Op)
    requires WellFormed(b)
    ensures WellFormed(Apply(b, op).book)
  {
    match op
    case SubmitOp(order) => SubmitKeepsWellFormed(b, order);
    case CancelOp(id) => CancelKeepsWellFormed(b, id);
    case ClearOp =>
  }

  /** In every reachable state both sides are sorted and duplicate-free, every
      resting order has quantity, and the best bid is below the best ask. */
  lemma {:induction false} ReachableIsWellFormed(ops: seq<Op>)
    ensures WellFormed(Run(EMPTY, ops))
  {
    if ops != [] {
      ReachableIsWellFormed(ops[..|ops| - 1]);
      ApplyKeepsWellFormed(Run(EMPTY, ops[..|ops| - 1]), ops[|ops| - 1]);
    }
  }

  // ---------------------------------------------------------- conservation

  /** Where the quantity of one side of the market went. */
  datatype Ledger = Ledger(accepted: nat, traded: nat, cancelled: nat, discarded: nat, flushed: nat) {
    function Add(l: Ledger): Ledger {
      Ledger(accepted + l.accepted, traded + l.traded, cancelled + l.cancelled,
             discarded + l.discarded, flushed + l.flushed)
    }
  }

  /** Total quantity one side bought (or sold) in the given trades: every trade
      fills one order of each side, the aggressor and the maker. */
  function SideTraded(side: Side, trades: seq<Trade>): nat {
    if trades == [] then 0
    else
      var asTaker := if trades[0].aggressorSide == side then trades[0].quantity else 0;
      var asMaker := if trades[0].aggressorSide == Opposite(side) then trades[0].quantity else 0;
      asTaker + asMaker + SideTraded(side, trades[1..])
  }

  function Entry(side: Side, b: Book, op: Op): Ledger {
    var r := Apply(b, op);
    match op
    case SubmitOp(order) =>
      var mine := r.ok && order.side == side;
      var size := Effective(order).remainingQuantity;
      Ledger(
        if mine then size else 0,
        SideTraded(side, r.trades),
        0,
        if mine && order.orderType.Market?
          then Greedy(Effective(order), b.Queue(Opposite(side))).taker.remainingQuantity else 0,
        0)
    case CancelOp(id) => Ledger(0, 0, Remaining(b.Queue(side), id), 0, 0)
    case ClearOp => Ledger(0, 0, 0, 0, Volume(b.Queue(side)))
  }

  function Account(side: Side, b: Book, ops: seq<Op>): Ledger {
    if ops == [] then Ledger(0, 0, 0, 0, 0)
    else
      var before := ops[..|ops| - 1];
      Account(side, b, before).Add(Entry(side, Run(b, before), ops[|ops| - 1]))
  }

  lemma {:induction false} SideTradedIsTraded(side: Side, trades: seq<Trade>)
    ensures SideTraded(side, trades) == Traded(trades)
  {
    if trades != [] { SideTradedIsTraded(side, trades[1..]); }
  }

  lemma SubmitBalances(side: Side, b: Book, order: Order)
    requires WellFormed(b) && Accepts(b, order)
    ensures var l := Entry(side, b, SubmitOp(order));
            Volume(b.Queue(side)) + l.accepted
            == l.traded + l.discarded + Volume(Submit(b, order).book.Queue(side))
  {
    var taker := Effective(order);
    var other := b.Queue(Opposite(order.side));
    var fill := Greedy(taker, other);
    GreedyConserves(taker, other);
    SideTradedIsTraded(side, fill.trades);
    if side == order.side {
      InsertContents(b.Queue(side), fill.taker);
    } else {
      assert side == Opposite(order.side);
    }
  }

  lemma EntryBalances(side: Side, b: Book, op: Op)
    requires WellFormed(b)
    ensures var l := Entry(side, b, op);
            Volume(b.Queue(side)) + l.accepted
            == l.traded + l.cancelled + l.discarded + l.flushed + Volume(Apply(b, op).book.Queue(side))
  {
    match op
    case SubmitOp(order) => if Accepts(b, order) { SubmitBalances(side, b, order); }
    case CancelOp(id) => RemoveContents(b.Queue(side), id);
    case ClearOp =>
  }

  lemma {:induction false} AccountBalances(side: Side, ops: seq<Op>)
    ensures var l := Account(side, EMPTY, ops);
            && l.accepted == l.traded + l.cancelled + l.discarded + l.flushed + Volume(Run(EMPTY, ops).Queue(side))
            && l.traded == Traded(RunTrades(EMPTY, ops))
  {
    if ops != [] {
      var before, op := ops[..|ops| - 1], ops[|ops| - 1];
      var b := Run(EMPTY, before);
      AccountBalances(side, before);
      ReachableIsWellFormed(before);
      EntryBalances(side, b, op);
      TradedConcat(RunTrades(EMPTY, before), Apply(b, op).trades);
      SideTradedIsTraded(side, Apply(b, op).trades);
    }
  }

  /** Over every run and on either side, quantity accepted is quantity traded,
      cancelled, discarded or flushed plus what still rests; and the two sides
      always traded the same total. */
  lemma QuantityIsConserved(ops: seq<Op>)
    ensures forall side ::
      var l := Account(side, EMPTY, ops);
      l.accepted == l.traded + l.cancelled + l.discarded + l.flushed + Volume(Run(EMPTY, ops).Queue(side))
    ensures Account(Buy, EMPTY, ops).traded == Account(Sell, EMPTY, ops).traded
    ensures Account(Buy, EMPTY, ops).traded == Traded(RunTrades(EMPTY, ops))
  {
    AccountBalances(Buy, ops);
    AccountBalances(Sell, ops);
    forall side
      ensures var l := Account(side, EMPTY, ops);
              l.accepted == l.traded + l.cancelled + l.discarded + l.flushed + Volume(Run(EMPTY, ops).Queue(side))
    {
      AccountBalances(side, ops);
    }
  }

  lemma {:induction false} TradedConcat(a: seq<Trade>, b: seq<Trade>)
    ensures Traded(a + b) == Traded(a) + Traded(b)
  {
    if a == [] {
      assert a + b == b;
    } else {
      assert (a + b)[1..] == a[1..] + b;
      TradedConcat(a[1..], b);
    }
  }

  // --------------------------------------------------- price-time priority

  /** A run that also writes down, for every order that entered the engine, the
      number of operations that came before it. */
  datatype Stamped = Stamped(book: Book, arrival: map<OrderId, nat>, clock: nat)

  function Arrive(s: Stamped, op: Op): Stamped {
    Stamped(
      Apply(s.book, op).book,
      if op.SubmitOp? && Accepts(s.book, op.order) then s.arrival[op.order.orderId := s.clock] else s.arrival,
      s.clock + 1)
  }

  function StampedRun(ops: seq<Op>): Stamped {
    if ops == [] then Stamped(EMPTY, map[], 0)
    else Arrive(StampedRun(ops[..|ops| - 1]), ops[|ops| - 1])
  }

  /** Order `x` must trade before order `y` of the same side. */
  predicate Before(arrival: map<OrderId, nat>, x: Order, y: Order)
    requires x.orderId in arrival && y.orderId in arrival
  {
    Better(x.side, x.price, y.price) || (x.price == y.price && arrival[x.orderId] < arrival[y.orderId])
  }

  /** Every order of the queue has an arrival stamp, and must trade before every
      order behind it. */
  ghost predicate InPriority(arrival: map<OrderId, nat>, clock: nat, queue: seq<Order>) {
    && (forall k :: 0 <= k < |queue| ==> queue[k].orderId in arrival && arrival[queue[k].orderId] < clock)
    && (forall j, k :: 0 <= j < k < |queue| ==> Before(arrival, queue[j], queue[k]))
  }

  ghost predicate Prioritised(s: Stamped) {
    && WellFormed(s.book)
    && InPriority(s.arrival, s.clock, s.book.bids)
    && InPriority(s.arrival, s.clock, s.book.asks)
  }

  /** `later` agrees with `arrival` on the orders of `queue`. */
  ghost predicate Remembers(arrival: map<OrderId, nat>, later: map<OrderId, nat>, queue: seq<Order>) {
    forall k :: 0 <= k < |queue| && queue[k].orderId in arrival ==>
      queue[k].orderId in later && later[queue[k].orderId] == arrival[queue[k].orderId]
  }

  lemma ThinnedStaysPrioritised(arrival: map<OrderId, nat>, later: map<OrderId, nat>, clock: nat,
                                queue: seq<Order>, thinned: seq<Order>, at: seq<nat>)
    requires InPriority(arrival, clock, queue) && Remembers(arrival, later, queue)
    requires Thinned(queue, thinned, at)
    ensures InPriority(later, clock + 1, thinned)
  {
  }

  lemma ClockMayAdvance(arrival: map<OrderId, nat>, later: map<OrderId, nat>, clock: nat, queue: seq<Order>)
    requires InPriority(arrival, clock, queue) && Remembers(arrival, later, queue)
    ensures InPriority(later, clock + 1, queue)
  {
  }

  lemma InsertStaysPrioritised(arrival: map<OrderId, nat>, clock: nat, queue: seq<Order>, order: Order)
    requires SideOk(order.side, queue) && InPriority(arrival, clock, queue)
    requires Rests(order.side, order) && order.orderId !in Ids(queue)
    ensures InPriority(arrival[order.orderId := clock], clock + 1, Insert(queue, order))
  {
    var later := arrival[order.orderId := clock];
    var inserted := Insert(queue, order);
    forall k | 0 <= k < |queue| ensures queue[k].orderId != order.orderId { IdsAt(queue, k); }
    InsertedAt(queue, order, 0);
    forall k | 0 <= k < |inserted| ensures inserted[k].orderId in later && later[inserted[k].orderId] < clock + 1 {
      InsertedAt(queue, order, k);
    }
    forall j, k | 0 <= j < k < |inserted| ensures Before(later, inserted[j], inserted[k]) {
      InsertedAt(queue, order, j);
      InsertedAt(queue, order, k);
      NewcomerIsLast(arrival, clock, queue, order, j, k);
    }
  }

  lemma NewcomerIsLast(arrival: map<OrderId, nat>, clock: nat, queue: seq<Order>, order: Order, j: nat, k: nat)
    requires SideOk(order.side, queue) && InPriority(arrival, clock, queue)
    requires forall i :: 0 <= i < |queue| ==> queue[i].orderId != order.orderId
    requires j < k <= |queue|
    ensures var n := Position(queue, order);
            var x := if j < n then queue[j] else if j == n then order else queue[j - 1];
            var y := if k < n then queue[k] else if k == n then order else queue[k - 1];
            var later := arrival[order.orderId := clock];
            x.orderId in later && y.orderId in later && Before(later, x, y)
  {
    var n := Position(queue, order);
    InsertAt(queue, order);
    if j == n {
      assert n == k - 1 || !Better(order.side, queue[k - 1].price, queue[n].price);
    } else if k == n {
      assert Rests(order.side, queue[j]);
    } else {
      assert Before(arrival, queue[if j < n then j else j - 1], queue[if k < n then k else k - 1]);
    }
  }

  lemma FillKeepsPriority(arrival: map<OrderId, nat>, clock: nat, side: Side, queue: seq<Order>, taker: Order)
    requires SideOk(side, queue) && InPriority(arrival, clock, queue) && taker.orderId !in Ids(queue)
    ensures InPriority(arrival[taker.orderId := clock], clock + 1, Greedy(taker, queue).rest)
  {
    forall k | 0 <= k < |queue| ensures queue[k].orderId != taker.orderId { IdsAt(queue, k); }
    var at := GreedyThins(taker, queue);
    ThinnedStaysPrioritised(arrival, arrival[taker.orderId := clock], clock, queue, Greedy(taker, queue).rest, at);
  }

  lemma RestKeepsPriority(arrival: map<OrderId, nat>, clock: nat, queue: seq<Order>, taker: Order, other: seq<Order>)
    requires SideOk(taker.side, queue) && InPriority(arrival, clock, queue) && taker.orderId !in Ids(queue)
    requires taker.orderType.Limit? ==> taker.price > 0
    ensures var left := Greedy(taker, other).taker;
            InPriority(arrival[taker.orderId := clock], clock + 1,
              if left.remainingQuantity > 0 && taker.orderType.Limit? then Insert(queue, left) else queue)
  {
    var left := Greedy(taker, other).taker;
    GreedyConserves(taker, other);
    if left.remainingQuantity > 0 && taker.orderType.Limit? {
      InsertStaysPrioritised(arrival, clock, queue, left);
    } else {
      forall k | 0 <= k < |queue| ensures queue[k].orderId != taker.orderId { IdsAt(queue, k); }
      ClockMayAdvance(arrival, arrival[taker.orderId := clock], clock, queue);
    }
  }

  lemma SubmitKeepsPriority(s: Stamped, order: Order)
    requires Prioritised(s) && Accepts(s.book, order)
    ensures Prioritised(Arrive(s, SubmitOp(order)))
  {
    var mine, other := s.book.Queue(order.side), s.book.Queue(Opposite(order.side));
    SubmitKeepsWellFormed(s.book, order);
    FillKeepsPriority(s.arrival, s.clock, Opposite(order.side), other, Effective(order));
    RestKeepsPriority(s.arrival, s.clock, mine, Effective(order), other);
  }

  lemma CancelKeepsPriority(s: Stamped, id: OrderId)
    requires Prioritised(s)
    ensures Prioritised(Arrive(s, CancelOp(id)))
  {
    CancelKeepsWellFormed(s.book, id);
    var bidsAt := RemoveThins(s.book.bids, id);
    ThinnedStaysPrioritised(s.arrival, s.arrival, s.clock, s.book.bids, Remove(s.book.bids, id), bidsAt);
    var asksAt := RemoveThins(s.book.asks, id);
    ThinnedStaysPrioritised(s.arrival, s.arrival, s.clock, s.book.asks, Remove(s.book.asks, id), asksAt);
  }

  lemma ArriveKeepsPriority(s: Stamped, op: Op)
    requires Prioritised(s)
    ensures Prioritised(Arrive(s, op))
  {
    match op
    case SubmitOp(order) =>
      if Accepts(s.book, order) {
        SubmitKeepsPriority(s, order);
      } else {
        ClockMayAdvance(s.arrival, s.arrival, s.clock, s.book.bids);
        ClockMayAdvance(s.arrival, s.arrival, s.clock, s.book.asks);
      }
    case CancelOp(id) => CancelKeepsPriority(s, id);
    case ClearOp =>
  }

  lemma {:induction false} RunsKeepPriority(ops: seq<Op>)
    ensures Prioritised(StampedRun(ops)) && StampedRun(ops).book == Run(EMPTY, ops)
  {
    if ops != [] {
      RunsKeepPriority(ops[..|ops| - 1]);
      ArriveKeepsPriority(StampedRun(ops[..|ops| - 1]), ops[|ops| - 1]);
    }
  }

  /** Price-time priority over whole runs. When an order is submitted after any
      run, its trade number `i` hits the order at position `i` of the opposite
      queue; every order further back has a worse price or, at the same price,
      a later arrival; every order further ahead was filled completely by the
      trades before; and a hit maker is a crossing one. */
  lemma PriceTimePriority(ops: seq<Op>, order: Order, i: nat)
    requires i < |Submit(Run(EMPTY, ops), order).trades|
    ensures var s := StampedRun(ops);
            var queue := s.book.Queue(Opposite(order.side));
            var trades := Submit(Run(EMPTY, ops), order).trades;
            && s.book == Run(EMPTY, ops)
            && (forall k :: 0 <= k < |queue| ==> queue[k].orderId in s.arrival)
            && |trades| <= |queue|
            && trades[i].makerOrderId == queue[i].orderId
            && trades[i].price == queue[i].price && Crosses(order, queue[i].price)
            && 0 < trades[i].quantity <= queue[i].remainingQuantity
            && (i < |trades| - 1 ==> trades[i].quantity == queue[i].remainingQuantity)
            && (forall j :: i < j < |queue| ==> Before(s.arrival, queue[i], queue[j]))
  {
    RunsKeepPriority(ops);
    var s := StampedRun(ops);
    var queue := s.book.Queue(Opposite(order.side));
    assert InPriority(s.arrival, s.clock, queue) && Positive(queue);
    TradeNumber(Effective(order), queue, i);
  }
}
