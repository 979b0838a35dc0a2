/** Algebraic laws of the engine: splitting a taker, undoing a submission, and
    when operations may be exchanged. */
module Laws {
  import opened Types
  import opened Book
  import opened Matching
  import opened Queues
  import opened Runs

  // -------------------------------------------------------- taker splitting

  /** Quantity the maker `id` gave in the given trades. */
  function FilledOf(trades: seq<Trade>, id: OrderId): nat {
    if trades == [] then 0
    else (if trades[0].makerOrderId == id then trades[0].quantity else 0) + FilledOf(trades[1..], id)
  }

  predicate SameTerms(x: Order, y: Order) {
    x.side == y.side && x.orderType == y.orderType && x.price == y.price
  }

  /** Two takers on the same terms, one after the other, do to the opposite
      queue what one taker of their joint quantity does. */
  lemma {:induction false} GreedySplits(whole: Order, first: Order, second: Order, queue: seq<Order>, id: OrderId)
    requires Positive(queue) && SameTerms(whole, first) && SameTerms(whole, second)
    requires whole.remainingQuantity == first.remainingQuantity + second.remainingQuantity
    ensures var w, f := Greedy(whole, queue), Greedy(first, queue);
            var s := Greedy(second, f.rest);
            && w.rest == s.rest
            && w.taker.remainingQuantity == f.taker.remainingQuantity + s.taker.remainingQuantity
            && FilledOf(w.trades, id) == FilledOf(f.trades, id) + FilledOf(s.trades, id)
    decreases |queue|
  {
    if queue == [] || !Crosses(whole, queue[0].price) || whole.remainingQuantity == 0 {
      return;
    }
    var maker, tail := queue[0], queue[1..];
    if maker.remainingQuantity <= first.remainingQuantity {
      GreedyStep(whole, queue, id);
      GreedyStep(first, queue, id);
      GreedySplits(Reduce(whole, maker), Reduce(first, maker), second, tail, id);
    } else {
      var maker' := maker.(remainingQuantity := maker.remainingQuantity - first.remainingQuantity);
      var f := Greedy(first, queue);
      var none := first.(remainingQuantity := 0);
      PartialFill(first, queue, id);
      assert f.rest[1..] == tail;
      if maker'.remainingQuantity <= second.remainingQuantity {
        GreedyStep(whole, queue, id);
        GreedyStep(second, f.rest, id);
        GreedySplits(Reduce(whole, maker), none, Reduce(second, maker'), tail, id);
      } else {
        PartialFill(second, f.rest, id);
        PartialFill(whole, queue, id);
      }
    }
  }

  function Reduce(taker: Order, maker: Order): Order
    requires maker.remainingQuantity <= taker.remainingQuantity
  {
    taker.(remainingQuantity := taker.remainingQuantity - maker.remainingQuantity)
  }

  lemma GreedyStep(taker: Order, queue: seq<Order>, id: OrderId)
    requires queue != [] && Crosses(taker, queue[0].price)
    requires 0 < queue[0].remainingQuantity <= taker.remainingQuantity
    ensures var f, g := Greedy(taker, queue), Greedy(Reduce(taker, queue[0]), queue[1..]);
            && f.rest == g.rest && f.taker == g.taker
            && FilledOf(f.trades, id)
               == (if queue[0].orderId == id then queue[0].remainingQuantity else 0) + FilledOf(g.trades, id)
  {
    var f, g := Greedy(taker, queue), Greedy(Reduce(taker, queue[0]), queue[1..]);
    assert f.trades == [TradeOf(taker, queue[0], queue[0].remainingQuantity)] + g.trades;
    assert f.trades[1..] == g.trades;
  }

  /** Volume on an order's own side after it was matched and, if it may, rests. */
  lemma OwnVolume(b: Book, order: Order)
    requires Accepts(b, order)
    ensures Volume(Submit(b, order).book.Queue(order.side))
         == Volume(b.Queue(order.side))
            + if order.orderType.Limit?
              then Greedy(Effective(order), b.Queue(Opposite(order.side))).taker.remainingQuantity else 0
  {
    var fill := Greedy(Effective(order), b.Queue(Opposite(order.side)));
    GreedyConserves(Effective(order), b.Queue(Opposite(order.side)));
    InsertContents(b.Queue(order.side), fill.taker);
  }

  lemma SecondIsAccepted(book: Book, first: Order, second: Order)
    requires WellFormed(book) && Accepts(book, first)
    requires second.initialQuantity > 0 && (second.orderType.Limit? ==> second.price > 0)
    requires second.orderId != first.orderId && second.orderId !in BookIds(book)
    ensures Accepts(Submit(book, first).book, second)
  {
    var mine, other := book.Queue(first.side), book.Queue(Opposite(first.side));
    var fill := Greedy(Effective(first), other);
    var at := GreedyThins(Effective(first), other);
    ThinnedKeepsSide(Opposite(first.side), other, fill.rest, at);
    GreedyConserves(Effective(first), other);
    InsertContents(mine, fill.taker);
  }

  lemma PartialFill(taker: Order, queue: seq<Order>, id: OrderId)
    requires queue != [] && Crosses(taker, queue[0].price)
    requires taker.remainingQuantity < queue[0].remainingQuantity
    ensures var f, m := Greedy(taker, queue), queue[0];
            && f.rest == [m.(remainingQuantity := m.remainingQuantity - taker.remainingQuantity)] + queue[1..]
            && f.taker == taker.(remainingQuantity := 0)
            && FilledOf(f.trades, id) == if m.orderId == id then taker.remainingQuantity else 0
  {
  }

  /** An order of quantity `a + b` and the orders of quantity `a` and then `b` on
      the same terms leave the same opposite queue, take the same quantity from
      every maker, and leave the same volume on their own side. */
  lemma SplitOrder(book: Book, order: Order, a: Quantity, b: Quantity, id2: OrderId, maker: OrderId)
    requires WellFormed(book) && Accepts(book, order)
    requires a > 0 && b > 0 && Effective(order).remainingQuantity == a + b
    requires id2 != order.orderId && id2 !in BookIds(book)
    ensures var r := Submit(book, order);
            var r1 := Submit(book, order.(initialQuantity := a, remainingQuantity := a));
            var r2 := Submit(r1.book, order.(orderId := id2, initialQuantity := b, remainingQuantity := b));
            && r1.ok && r2.ok
            && r.book.Queue(Opposite(order.side)) == r2.book.Queue(Opposite(order.side))
            && Volume(r.book.Queue(order.side)) == Volume(r2.book.Queue(order.side))
            && FilledOf(r.trades, maker) == FilledOf(r1.trades, maker) + FilledOf(r2.trades, maker)
  {
    var first := order.(initialQuantity := a, remainingQuantity := a);
    var second := order.(orderId := id2, initialQuantity := b, remainingQuantity := b);
    var other := book.Queue(Opposite(order.side));
    var r1 := Submit(book, first);
    SecondIsAccepted(book, first, second);
    GreedySplits(Effective(order), first, second, other, maker);
    assert r1.book.Queue(Opposite(order.side)) == Greedy(first, other).rest;
    OwnVolume(book, order);
    OwnVolume(book, first);
    OwnVolume(r1.book, second);
  }

  // ------------------------------------------------------- undoing a submit

  /** The incoming order finds nothing to trade with. */
  predicate Passive(b: Book, order: Order) {
    var other := b.Queue(Opposite(order.side));
    other == [] || !Crosses(order, other[0].price)
  }

  lemma {:induction false} RemoveInserted(queue: seq<Order>, order: Order)
    requires order.orderId !in Ids(queue)
    ensures Remove(Insert(queue, order), order.orderId) == queue
  {
    if queue == [] || Better(order.side, order.price, queue[0].price) {
      assert ([order] + queue)[1..] == queue;
      RemoveAbsent(queue, order.orderId);
    } else {
      RemoveInserted(queue[1..], order);
    }
  }

  /** Cancelling an accepted order right after submitting it restores the book
      exactly when the order did not cross. */
  lemma CancelUndoesSubmit(b: Book, order: Order)
    requires WellFormed(b) && Accepts(b, order)
    ensures Cancel(Submit(b, order).book, order.orderId).book == b <==> Passive(b, order)
  {
    var mine, other := b.Queue(order.side), b.Queue(Opposite(order.side));
    var taker := Effective(order);
    var f := Greedy(taker, other);
    RemoveAbsent(other, order.orderId);
    RemoveAbsent(mine, order.orderId);
    if Passive(b, order) {
      RemoveInserted(mine, taker);
    } else {
      GreedyConserves(taker, other);
      assert Traded(f.trades) >= f.trades[0].quantity > 0;
      assert Volume(f.rest) < Volume(other);
      var at := GreedyThins(taker, other);
      ThinnedKeepsSide(Opposite(order.side), other, f.rest, at);
      RemoveAbsent(f.rest, order.orderId);
    }
  }

  // ------------------------------------------------------ exchanging cancels

  lemma {:induction false} RemovesCommute(queue: seq<Order>, i: OrderId, j: OrderId)
    ensures Remove(Remove(queue, i), j) == Remove(Remove(queue, j), i)
  {
    if queue != [] { RemovesCommute(queue[1..], i, j); }
  }

  /** Two cancels may be exchanged, and each answers the same either way. */
  lemma CancelsCommute(b: Book, i: OrderId, j: OrderId)
    requires WellFormed(b) && i != j
    ensures Cancel(Cancel(b, i).book, j).book == Cancel(Cancel(b, j).book, i).book
    ensures Cancel(Cancel(b, i).book, j).ok == Cancel(b, j).ok
  {
    RemovesCommute(b.bids, i, j);
    RemovesCommute(b.asks, i, j);
    CancelKeepsWellFormed(b, i);
  }

  // ------------------------------------- exchanging a cancel with a submission

  /** The resting order `id` would be hit by the incoming one. */
  ghost predicate WouldHit(b: Book, order: Order, id: OrderId) {
    var taker, queue := Effective(order), b.Queue(Opposite(order.side));
    && Accepts(b, order)
    && exists k :: 0 <= k < Crossing(taker, queue)
                && queue[k].orderId == id && Prefix(queue, k) < taker.remainingQuantity
  }

  predicate Hits(trades: seq<Trade>, id: OrderId) {
    exists k :: 0 <= k < |trades| && trades[k].makerOrderId == id
  }

  lemma HitsAreDue(taker: Order, queue: seq<Order>, id: OrderId)
    requires Positive(queue)
    ensures Hits(Greedy(taker, queue).trades, id)
       <==> exists k :: 0 <= k < Crossing(taker, queue)
                     && queue[k].orderId == id && Prefix(queue, k) < taker.remainingQuantity
  {
    var trades := Greedy(taker, queue).trades;
    GreedyIsFill(taker, queue);
    forall k | 0 <= k < Crossing(taker, queue) && Prefix(queue, k) < taker.remainingQuantity
      ensures k < |trades|
    {
      if |trades| <= k { PrefixMonotone(queue, |trades|, k); }
    }
  }

  lemma {:induction false} RemoveHead(side: Side, queue: seq<Order>, id: OrderId)
    requires Sorted(side, queue) && Remove(queue, id) != []
    ensures queue != [] && !Better(side, Remove(queue, id)[0].price, queue[0].price)
  {
    if queue[0].orderId == id {
      assert Sorted(side, queue[1..]);
      RemoveHead(side, queue[1..], id);
      assert !Better(side, queue[1].price, queue[0].price);
    }
  }

  lemma HitsTail(taker: Order, queue: seq<Order>, id: OrderId)
    requires queue != [] && Crosses(taker, queue[0].price)
    requires 0 < queue[0].remainingQuantity <= taker.remainingQuantity
    ensures Hits(Greedy(taker, queue).trades, id)
       <==> queue[0].orderId == id || Hits(Greedy(Reduce(taker, queue[0]), queue[1..]).trades, id)
  {
    var f, g := Greedy(taker, queue), Greedy(Reduce(taker, queue[0]), queue[1..]);
    assert f.trades == [TradeOf(taker, queue[0], queue[0].remainingQuantity)] + g.trades;
    assert f.trades[0].makerOrderId == queue[0].orderId;
    forall k | 0 <= k < |g.trades| ensures g.trades[k] == f.trades[k + 1] {}
  }

  /** The maker at the front of `queue` is used up; the rest of the matching is
      the same with or without the order `id`. */
  lemma {:induction false} UnhitStep(taker: Order, queue: seq<Order>, id: OrderId)
    requires queue != [] && Crosses(taker, queue[0].price) && queue[0].orderId != id
    requires 0 < queue[0].remainingQuantity <= taker.remainingQuantity
    requires var g := Greedy(Reduce(taker, queue[0]), queue[1..]);
             Greedy(Reduce(taker, queue[0]), Remove(queue[1..], id)) == Fill(g.trades, Remove(g.rest, id), g.taker)
    ensures var f := Greedy(taker, queue);
            Greedy(taker, Remove(queue, id)) == Fill(f.trades, Remove(f.rest, id), f.taker)
  {
    var removed := Remove(queue, id);
    assert removed == [queue[0]] + Remove(queue[1..], id);
    assert removed[1..] == Remove(queue[1..], id);
  }

  /** The front maker is hit for the last of the taker. */
  lemma UnhitLast(taker: Order, queue: seq<Order>, id: OrderId)
    requires queue != [] && Crosses(taker, queue[0].price) && 0 < taker.remainingQuantity < queue[0].remainingQuantity
    requires !Hits(Greedy(taker, queue).trades, id)
    ensures var f := Greedy(taker, queue);
            Greedy(taker, Remove(queue, id)) == Fill(f.trades, Remove(f.rest, id), f.taker)
  {
    var f := Greedy(taker, queue);
    assert f.trades[0].makerOrderId == queue[0].orderId;
    assert Remove(queue, id)[1..] == Remove(queue[1..], id);
    assert f.rest[1..] == queue[1..];
  }

  /** An order that is not hit does not influence the matching. */
  lemma {:induction false} UnhitIsIrrelevant(taker: Order, queue: seq<Order>, id: OrderId)
    requires Positive(queue) && Sorted(Opposite(taker.side), queue)
    requires !Hits(Greedy(taker, queue).trades, id)
    ensures var f := Greedy(taker, queue);
            Greedy(taker, Remove(queue, id)) == Fill(f.trades, Remove(f.rest, id), f.taker)
    decreases |queue|
  {
    if queue == [] {
    } else if taker.remainingQuantity == 0 || !Crosses(taker, queue[0].price) {
      if Remove(queue, id) != [] { RemoveHead(Opposite(taker.side), queue, id); }
    } else if queue[0].remainingQuantity <= taker.remainingQuantity {
      HitsTail(taker, queue, id);
      UnhitIsIrrelevant(Reduce(taker, queue[0]), queue[1..], id);
      UnhitStep(taker, queue, id);
    } else {
      UnhitLast(taker, queue, id);
    }
  }

  lemma {:induction false} InsertRemoveCommute(side: Side, queue: seq<Order>, order: Order, id: OrderId)
    requires Sorted(side, queue) && order.side == side && order.orderId != id
    ensures Remove(Insert(queue, order), id) == Insert(Remove(queue, id), order)
  {
    if queue == [] {
    } else if Better(side, order.price, queue[0].price) {
      assert ([order] + queue)[1..] == queue;
      if Remove(queue, id) != [] { RemoveHead(side, queue, id); }
    } else {
      assert Sorted(side, queue[1..]);
      InsertRemoveCommute(side, queue[1..], order, id);
    }
  }

  lemma RemovedIsNotHit(taker: Order, queue: seq<Order>, id: OrderId)
    requires Positive(queue) && Distinct(queue)
    ensures !Hits(Greedy(taker, Remove(queue, id)).trades, id)
  {
    var removed := Remove(queue, id);
    var at := RemoveThins(queue, id);
    RemoveContents(queue, id);
    forall k | 0 <= k < |removed| ensures removed[k].orderId != id { IdsAt(removed, k); }
    forall k | 0 <= k < |Greedy(taker, removed).trades|
      ensures Greedy(taker, removed).trades[k].makerOrderId != id
    {
      TradeNumber(taker, removed, k);
    }
  }

  lemma UnhitCancelCommutes(b: Book, order: Order, id: OrderId)
    requires WellFormed(b) && id != order.orderId && Accepts(b, order)
    requires !Hits(Submit(b, order).trades, id)
    ensures var late, early := Submit(b, order), Submit(Cancel(b, id).book, order);
            early.ok && early.trades == late.trades && early.book == Cancel(late.book, id).book
  {
    var taker := Effective(order);
    CancelKeepsWellFormed(b, id);
    UnhitIsIrrelevant(taker, b.Queue(Opposite(order.side)), id);
    GreedyConserves(taker, b.Queue(Opposite(order.side)));
    InsertRemoveCommute(order.side, b.Queue(order.side), Greedy(taker, b.Queue(Opposite(order.side))).taker, id);
  }

  lemma HitCancelMatters(b: Book, order: Order, id: OrderId)
    requires WellFormed(b) && id != order.orderId && Accepts(b, order)
    requires Hits(Submit(b, order).trades, id)
    ensures Submit(Cancel(b, id).book, order).ok
    ensures Submit(Cancel(b, id).book, order).trades != Submit(b, order).trades
  {
    CancelKeepsWellFormed(b, id);
    RemovedIsNotHit(Effective(order), b.Queue(Opposite(order.side)), id);
  }

  /** Cancelling some other order before or after a submission makes no
      difference - same answer, same trades, same book - exactly when the
      cancelled order is not one the submission would hit. In particular it
      makes none for an order on the incoming order's own side. */
  lemma {:induction false} CancelCommutesWithSubmit(b: Book, order: Order, id: OrderId)
    requires WellFormed(b) && id != order.orderId
    ensures var late, early := Submit(b, order), Submit(Cancel(b, id).book, order);
            early.ok == late.ok
            && ((early.trades == late.trades && early.book == Cancel(late.book, id).book) <==> !WouldHit(b, order, id))
    ensures id !in Ids(b.Queue(Opposite(order.side))) ==> !WouldHit(b, order, id)
  {
    var taker, queue := Effective(order), b.Queue(Opposite(order.side));
    CancelKeepsWellFormed(b, id);
    HitsAreDue(taker, queue, id);
    if Accepts(b, order) {
      if Hits(Submit(b, order).trades, id) {
        HitCancelMatters(b, order, id);
      } else {
        UnhitCancelCommutes(b, order, id);
      }
    }
    forall k | 0 <= k < |queue| ensures queue[k].orderId in Ids(queue) { IdsAt(queue, k); }
  }
}
