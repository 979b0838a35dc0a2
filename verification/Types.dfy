/** The value types of `include/types.hpp`. Machine widths are explicit: prices,
    identifiers and timestamps are 64-bit, quantities 32-bit, all unsigned. */
module Types {

  const U32: nat := 0x1_0000_0000

  type OrderId = n: nat | n < 0x1_0000_0000_0000_0000
  type Price = n: nat | n < 0x1_0000_0000_0000_0000
  type Timestamp = n: nat | n < 0x1_0000_0000_0000_0000
  type Quantity = n: nat | n < 0x1_0000_0000

  datatype Side = Buy | Sell

  datatype OrderType = Limit | Market

  datatype Order = Order(
    orderId: OrderId,
    price: Price,
    initialQuantity: Quantity,
    remainingQuantity: Quantity,
    timestamp: Timestamp,
    side: Side,
    orderType: OrderType)

  datatype Trade = Trade(
    makerOrderId: OrderId,
    takerOrderId: OrderId,
    price: Price,
    quantity: Quantity,
    timestamp: Timestamp,
    aggressorSide: Side)

  datatype Option<+T> = None | Some(value: T)

  /** Unsigned 32-bit arithmetic. */
  function Wrap32(n: nat): Quantity {
    n % 0x1_0000_0000
  }

  function Sub32(a: Quantity, b: Quantity): Quantity {
    (0x1_0000_0000 + a - b) % 0x1_0000_0000
  }

  function Opposite(side: Side): Side {
    if side.Buy? then Sell else Buy
  }

  function Min(a: nat, b: nat): nat {
    if a < b then a else b
  }

  function MinQuantity(a: Quantity, b: Quantity): Quantity {
    if a < b then a else b
  }

  function Max(a: nat, b: nat): nat {
    if a < b then b else a
  }

  /** `p` is strictly better than `q` for an order resting on `side`: the sort
      order of the two price maps (descending bids, ascending asks). */
  predicate Better(side: Side, p: Price, q: Price) {
    if side.Buy? then p > q else p < q
  }

  /** The incoming order may trade against a resting order at price `p`. */
  predicate Crosses(taker: Order, p: Price) {
    taker.orderType.Market? || (if taker.side.Buy? then p <= taker.price else taker.price <= p)
  }
}
