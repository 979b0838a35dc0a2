/** What the greedy matcher means, without recursion: which makers are hit,
    for how much, at which price, and what is left. */
module Matching {
  import opened Types
  import opened Book

  /** Remaining quantity of the first `k` orders. */
  function Prefix(queue: seq<Order>, k: nat): nat
    requires k <= |queue|
  {
    if k == 0 then 0 else queue[0].remainingQuantity + Prefix(queue[1..], k - 1)
  }

  /** How many orders at the front the taker may trade against. */
  function Crossing(taker: Order, queue: seq<Order>): (n: nat)
    ensures n <= |queue|
    ensures forall k :: 0 <= k < n ==> Crosses(taker, queue[k].price)
    ensures n < |queue| ==> !Crosses(taker, queue[n].price)
  {
    if queue == [] || !Crosses(taker, queue[0].price) then 0 else 1 + Crossing(taker, queue[1..])
  }

  ghost predicate Positive(queue: seq<Order>) {
    forall k :: 0 <= k < |queue| ==> queue[k].remainingQuantity > 0
  }

  /** Quantity all crossing makers offer together. */
  function Liquidity(taker: Order, queue: seq<Order>): nat {
    Prefix(queue, Crossing(taker, queue))
  }

  function Traded(trades: seq<Trade>): nat {
    if trades == [] then 0 else trades[0].quantity + Traded(trades[1..])
  }

  /** Quantity traded at one price. */
  function TradedAt(trades: seq<Trade>, p: Price): nat {
    if trades == [] then 0
    else
      var last := trades[|trades| - 1];
      TradedAt(trades[..|trades| - 1], p) + if last.price == p then last.quantity else 0
  }

  lemma TradedAtAppend(trades: seq<Trade>, t: Trade, p: Price)
    ensures TradedAt(trades + [t], p) == TradedAt(trades, p) + if t.price == p then t.quantity else 0
  {
  }

  lemma {:induction false} TradedAtConcat(a: seq<Trade>, b: seq<Trade>, p: Price)
    ensures TradedAt(a + b, p) == TradedAt(a, p) + TradedAt(b, p)
  {
    if b == [] {
      assert a + b == a;
    } else {
      TradedAtConcat(a, b[..|b| - 1], p);
      TradedAtAppend(a + b[..|b| - 1], b[|b| - 1], p);
      assert a + b == (a + b[..|b| - 1]) + [b[|b| - 1]];
    }
  }

  /** Maker `k` is hit exactly when the makers ahead of it cannot fill the
      taker, and then for whatever the taker still needs, up to its own size. */
  ghost predicate TradesAreDue(taker: Order, queue: seq<Order>, trades: seq<Trade>) {
    && |trades| <= Crossing(taker, queue)
    && (forall k :: 0 <= k < |trades| ==>
          && Prefix(queue, k) < taker.remainingQuantity
          && trades[k] == TradeOf(taker, queue[k],
                            Min(queue[k].remainingQuantity, taker.remainingQuantity - Prefix(queue, k))))
    && (|trades| < Crossing(taker, queue) ==> taker.remainingQuantity <= Prefix(queue, |trades|))
  }

  /** After `n` hits only the last hit maker can still have quantity. */
  ghost predicate RestIsDue(taker: Order, queue: seq<Order>, n: nat, rest: seq<Order>)
    requires n <= |queue|
  {
    var over := Prefix(queue, n) - taker.remainingQuantity;
    if n > 0 && over > 0 then
      && over < U32
      && rest == [queue[n - 1].(remainingQuantity := over)] + queue[n..]
    else
      rest == queue[n..]
  }

  /** The fill that price-time priority calls for. */
  ghost predicate IsFill(taker: Order, queue: seq<Order>, f: Fill) {
    && TradesAreDue(taker, queue, f.trades)
    && RestIsDue(taker, queue, |f.trades|, f.rest)
    && f.taker
       == taker.(remainingQuantity := taker.remainingQuantity - Min(taker.remainingQuantity, Liquidity(taker, queue)))
  }

  lemma {:induction false} PrefixMonotone(queue: seq<Order>, j: nat, k: nat)
    requires j <= k <= |queue|
    ensures Prefix(queue, j) <= Prefix(queue, k)
  {
    if j > 0 { PrefixMonotone(queue[1..], j - 1, k - 1); }
  }

  lemma {:induction false} PrefixStep(queue: seq<Order>, k: nat)
    requires k < |queue|
    ensures Prefix(queue, k + 1) == Prefix(queue, k) + queue[k].remainingQuantity
  {
    if k > 0 { PrefixStep(queue[1..], k - 1); }
  }

  /** Crossing does not look at the taker's quantity. */
  lemma CrossingIgnoresQuantity(taker: Order, quantity: Quantity, queue: seq<Order>)
    ensures Crossing(taker.(remainingQuantity := quantity), queue) == Crossing(taker, queue)
  {
  }

  /** Using up the first maker leaves the trades due for the others. */
  lemma TradesAreDueTail(taker: Order, taker': Order, queue: seq<Order>, tail: seq<Trade>)
    requires Positive(queue) && queue != [] && Crosses(taker, queue[0].price)
    requires queue[0].remainingQuantity <= taker.remainingQuantity
    requires taker' == taker.(remainingQuantity := taker.remainingQuantity - queue[0].remainingQuantity)
    requires TradesAreDue(taker', queue[1..], tail)
    ensures TradesAreDue(taker, queue, [TradeOf(taker, queue[0], queue[0].remainingQuantity)] + tail)
  {
    var trades := [TradeOf(taker, queue[0], queue[0].remainingQuantity)] + tail;
    CrossingIgnoresQuantity(taker, taker'.remainingQuantity, queue[1..]);
    forall k | 0 <= k < |trades|
      ensures Prefix(queue, k) < taker.remainingQuantity
      ensures trades[k] == TradeOf(taker, queue[k],
                             Min(queue[k].remainingQuantity, taker.remainingQuantity - Prefix(queue, k)))
    {
      if k > 0 {
        assert trades[k] == tail[k - 1] && queue[k] == queue[1..][k - 1];
      }
    }
  }

  lemma RestIsDueTail(taker: Order, taker': Order, queue: seq<Order>, n: nat, rest: seq<Order>)
    requires Positive(queue) && n < |queue|
    requires queue[0].remainingQuantity <= taker.remainingQuantity
    requires taker' == taker.(remainingQuantity := taker.remainingQuantity - queue[0].remainingQuantity)
    requires RestIsDue(taker', queue[1..], n, rest)
    ensures RestIsDue(taker, queue, n + 1, rest)
  {
  }

  /** The first maker alone satisfies the taker. */
  lemma {:induction false} FirstMakerSuffices(taker: Order, queue: seq<Order>)
    requires Positive(queue) && queue != [] && Crosses(taker, queue[0].price)
    requires 0 < taker.remainingQuantity < queue[0].remainingQuantity
    ensures IsFill(taker, queue, Greedy(taker, queue))
  {
    var f := Greedy(taker, queue);
    assert f.trades == [TradeOf(taker, queue[0], taker.remainingQuantity)];
    assert Prefix(queue, 0) == 0 && Prefix(queue, 1) == queue[0].remainingQuantity;
    PrefixMonotone(queue, 1, Crossing(taker, queue));
    assert TradesAreDue(taker, queue, f.trades);
    assert RestIsDue(taker, queue, 1, f.rest);
  }

  lemma LiquidityTail(taker: Order, quantity: Quantity, queue: seq<Order>)
    requires queue != [] && Crosses(taker, queue[0].price)
    ensures Liquidity(taker, queue)
         == queue[0].remainingQuantity + Liquidity(taker.(remainingQuantity := quantity), queue[1..])
  {
  }

  lemma NothingToFill(taker: Order, queue: seq<Order>)
    requires queue == [] || taker.remainingQuantity == 0 || !Crosses(taker, queue[0].price)
    ensures IsFill(taker, queue, Fill([], queue, taker))
  {
  }

  lemma FirstMakerUsedUp(taker: Order, taker': Order, queue: seq<Order>, g: Fill)
    requires Positive(queue) && queue != [] && Crosses(taker, queue[0].price)
    requires queue[0].remainingQuantity <= taker.remainingQuantity
    requires taker' == taker.(remainingQuantity := taker.remainingQuantity - queue[0].remainingQuantity)
    requires IsFill(taker', queue[1..], g)
    ensures IsFill(taker, queue,
                   Fill([TradeOf(taker, queue[0], queue[0].remainingQuantity)] + g.trades, g.rest, g.taker))
  {
    LiquidityTail(taker, taker'.remainingQuantity, queue);
    var trades := [TradeOf(taker, queue[0], queue[0].remainingQuantity)] + g.trades;
    assert TradesAreDue(taker, queue, trades) by { TradesAreDueTail(taker, taker', queue, g.trades); }
    assert RestIsDue(taker, queue, |trades|, g.rest) by { RestIsDueTail(taker, taker', queue, |g.trades|, g.rest); }
  }

  /** The greedy loop computes the fill that priority calls for. */
  lemma {:induction false} GreedyIsFill(taker: Order, queue: seq<Order>)
    requires Positive(queue)
    ensures IsFill(taker, queue, Greedy(taker, queue))
    decreases |queue|
  {
    if queue == [] || taker.remainingQuantity == 0 || !Crosses(taker, queue[0].price) {
      NothingToFill(taker, queue);
    } else if taker.remainingQuantity < queue[0].remainingQuantity {
      FirstMakerSuffices(taker, queue);
    } else {
      var taker' := taker.(remainingQuantity := taker.remainingQuantity - queue[0].remainingQuantity);
      var g := Greedy(taker', queue[1..]);
      GreedyIsFill(taker', queue[1..]);
      FirstMakerUsedUp(taker, taker', queue, g);
      assert Greedy(taker, queue)
          == Fill([TradeOf(taker, queue[0], queue[0].remainingQuantity)] + g.trades, g.rest, g.taker);
    }
  }

  /** Trade number `i` of a fill. */
  lemma TradeNumber(taker: Order, queue: seq<Order>, i: nat)
    requires Positive(queue)
    requires i < |Greedy(taker, queue).trades|
    ensures var trades := Greedy(taker, queue).trades;
            && |trades| <= |queue|
            && Crosses(taker, queue[i].price)
            && trades[i].makerOrderId == queue[i].orderId && trades[i].takerOrderId == taker.orderId
            && trades[i].price == queue[i].price
            && 0 < trades[i].quantity <= queue[i].remainingQuantity
            && (i < |trades| - 1 ==> trades[i].quantity == queue[i].remainingQuantity)
  {
    GreedyIsFill(taker, queue);
    TradeDue(taker, queue, Greedy(taker, queue).trades, i);
  }

  lemma TradeDue(taker: Order, queue: seq<Order>, trades: seq<Trade>, i: nat)
    requires Positive(queue) && TradesAreDue(taker, queue, trades) && i < |trades|
    ensures Crosses(taker, queue[i].price)
    ensures trades[i].makerOrderId == queue[i].orderId && trades[i].takerOrderId == taker.orderId
    ensures trades[i].price == queue[i].price
    ensures 0 < trades[i].quantity <= queue[i].remainingQuantity
    ensures i < |trades| - 1 ==> trades[i].quantity == queue[i].remainingQuantity
  {
    PrefixStep(queue, i);
    assert i < |trades| - 1 ==> Prefix(queue, i + 1) < taker.remainingQuantity;
  }

  lemma FillsAgree(taker: Order, queue: seq<Order>, f: Fill, g: Fill)
    requires IsFill(taker, queue, f) && IsFill(taker, queue, g) && |f.trades| <= |g.trades|
    ensures f == g
  {
  }

  /** No other outcome satisfies the characterisation, so it pins the matcher. */
  lemma FillIsUnique(taker: Order, queue: seq<Order>, f: Fill)
    requires Positive(queue)
    ensures IsFill(taker, queue, f) <==> f == Greedy(taker, queue)
  {
    var g := Greedy(taker, queue);
    GreedyIsFill(taker, queue);
    if IsFill(taker, queue, f) {
      if |f.trades| <= |g.trades| { FillsAgree(taker, queue, f, g); } else { FillsAgree(taker, queue, g, f); }
    }
  }
}
