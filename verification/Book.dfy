/** The simple form of the matching engine: each side of the book is one queue
    in priority order, and an incoming order consumes the opposite queue from
    the front. Both engines are proved to refine these functions. */
module Book {
  import opened Types

  datatype Book = Book(bids: seq<Order>, asks: seq<Order>) {
    function Queue(side: Side): seq<Order> {
      if side.Buy? then bids else asks
    }

    function With(side: Side, queue: seq<Order>): Book {
      if side.Buy? then this.(bids := queue) else this.(asks := queue)
    }
  }

  const EMPTY: Book := Book([], [])

  datatype Fill = Fill(trades: seq<Trade>, rest: seq<Order>, taker: Order)

  datatype Op = SubmitOp(order: Order) | CancelOp(id: OrderId) | ClearOp

  datatype Outcome = Outcome(book: Book, ok: bool, trades: seq<Trade>)

  // ---------------------------------------------------------------- queues

  function Ids(queue: seq<Order>): set<OrderId> {
    if queue == [] then {} else {queue[0].orderId} + Ids(queue[1..])
  }

  function BookIds(b: Book): set<OrderId> {
    Ids(b.bids) + Ids(b.asks)
  }

  function Volume(queue: seq<Order>): nat {
    if queue == [] then 0 else queue[0].remainingQuantity + Volume(queue[1..])
  }

  /** A new order waits behind every order with a price at least as good. */
  function Insert(queue: seq<Order>, order: Order): seq<Order> {
    if queue == [] || Better(order.side, order.price, queue[0].price) then [order] + queue
    else [queue[0]] + Insert(queue[1..], order)
  }

  function Remove(queue: seq<Order>, id: OrderId): seq<Order> {
    if queue == [] then []
    else if queue[0].orderId == id then Remove(queue[1..], id)
    else [queue[0]] + Remove(queue[1..], id)
  }

  function Find(queue: seq<Order>, id: OrderId): Option<Order> {
    if queue == [] then None
    else if queue[0].orderId == id then Some(queue[0])
    else Find(queue[1..], id)
  }

  function Lookup(b: Book, id: OrderId): Option<Order> {
    if id in Ids(b.bids) then Find(b.bids, id) else Find(b.asks, id)
  }

  function TopPrice(queue: seq<Order>): Option<Price> {
    if queue == [] then None else Some(queue[0].price)
  }

  // -------------------------------------------------------------- matching

  function TradeOf(taker: Order, maker: Order, quantity: Quantity): Trade {
    Trade(maker.orderId, taker.orderId, maker.price, quantity, taker.timestamp, taker.side)
  }

  /** Consume `queue` from the front while the taker has quantity and crosses. */
  function Greedy(taker: Order, queue: seq<Order>): Fill
    decreases |queue|
  {
    if queue == [] || taker.remainingQuantity == 0 || !Crosses(taker, queue[0].price) then
      Fill([], queue, taker)
    else
      var maker := queue[0];
      var quantity := MinQuantity(taker.remainingQuantity, maker.remainingQuantity);
      var taker' := taker.(remainingQuantity := taker.remainingQuantity - quantity);
      var first := [TradeOf(taker, maker, quantity)];
      if quantity == maker.remainingQuantity then
        var f := Greedy(taker', queue[1..]);
        Fill(first + f.trades, f.rest, f.taker)
      else
        Fill(first, [maker.(remainingQuantity := maker.remainingQuantity - quantity)] + queue[1..], taker')
  }

  // ------------------------------------------------------------ operations

  /** A caller may leave the remaining quantity at zero to mean "all of it". */
  function Effective(order: Order): Order {
    if order.remainingQuantity == 0 then order.(remainingQuantity := order.initialQuantity) else order
  }

  predicate Accepts(b: Book, order: Order) {
    && order.initialQuantity != 0
    && !(order.orderType.Limit? && order.price == 0)
    && order.orderId !in BookIds(b)
  }

  function Submit(b: Book, order: Order): Outcome {
    if !Accepts(b, order) then Outcome(b, false, [])
    else
      var fill := Greedy(Effective(order), b.Queue(Opposite(order.side)));
      var matched := b.With(Opposite(order.side), fill.rest);
      if fill.taker.remainingQuantity > 0 && order.orderType.Limit? then
        Outcome(matched.With(order.side, Insert(b.Queue(order.side), fill.taker)), true, fill.trades)
      else
        Outcome(matched, true, fill.trades)
  }

  function Cancel(b: Book, id: OrderId): Outcome {
    Outcome(Book(Remove(b.bids, id), Remove(b.asks, id)), id in BookIds(b), [])
  }

  function Apply(b: Book, op: Op): Outcome {
    match op
    case SubmitOp(order) => Submit(b, order)
    case CancelOp(id) => Cancel(b, id)
    case ClearOp => Outcome(EMPTY, true, [])
  }

  /** The book after a whole run of operations. */
  function Run(b: Book, ops: seq<Op>): Book {
    if ops == [] then b else Apply(Run(b, ops[..|ops| - 1]), ops[|ops| - 1]).book
  }

  /** The booleans returned by the operations of a run, in order. */
  function RunResults(b: Book, ops: seq<Op>): seq<bool> {
    if ops == [] then []
    else
      var before := ops[..|ops| - 1];
      RunResults(b, before) + [Apply(Run(b, before), ops[|ops| - 1]).ok]
  }

  /** All trades of a run, in the order they were printed. */
  function RunTrades(b: Book, ops: seq<Op>): seq<Trade> {
    if ops == [] then []
    else
      var before := ops[..|ops| - 1];
      RunTrades(b, before) + Apply(Run(b, before), ops[|ops| - 1]).trades
  }
}
