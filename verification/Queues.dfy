/** How the primitive queue operations of the simple form act on identifiers,
    order, quantity and priority. */
module Queues {
  import opened Types
  import opened Book
  import opened Matching

  ghost predicate Distinct(queue: seq<Order>) {
    forall j, k :: 0 <= j < k < |queue| ==> queue[j].orderId != queue[k].orderId
  }

  ghost predicate Sorted(side: Side, queue: seq<Order>) {
    forall j, k :: 0 <= j < k < |queue| ==> !Better(side, queue[k].price, queue[j].price)
  }

  ghost predicate Rests(side: Side, order: Order) {
    order.side == side && order.orderType.Limit? && order.price > 0 && order.remainingQuantity > 0
  }

  ghost predicate SideOk(side: Side, queue: seq<Order>) {
    && (forall k :: 0 <= k < |queue| ==> Rests(side, queue[k]))
    && Sorted(side, queue)
    && Distinct(queue)
  }

  // ----------------------------------------------------------- identifiers

  lemma {:induction false} IdsAt(queue: seq<Order>, k: nat)
    requires k < |queue|
    ensures queue[k].orderId in Ids(queue)
  {
    if k > 0 { IdsAt(queue[1..], k - 1); }
  }

  lemma {:induction false} IdsIndex(queue: seq<Order>, id: OrderId) returns (k: nat)
    requires id in Ids(queue)
    ensures k < |queue| && queue[k].orderId == id
  {
    if queue[0].orderId == id {
      k := 0;
    } else {
      k := IdsIndex(queue[1..], id);
      k := k + 1;
    }
  }

  lemma {:induction false} IdsConcat(a: seq<Order>, b: seq<Order>)
    ensures Ids(a + b) == Ids(a) + Ids(b)
  {
    if a == [] {
      assert a + b == b;
    } else {
      assert (a + b)[1..] == a[1..] + b;
      IdsConcat(a[1..], b);
    }
  }

  lemma {:induction false} VolumeConcat(a: seq<Order>, b: seq<Order>)
    ensures Volume(a + b) == Volume(a) + Volume(b)
  {
    if a == [] {
      assert a + b == b;
    } else {
      assert (a + b)[1..] == a[1..] + b;
      VolumeConcat(a[1..], b);
    }
  }

  lemma Spliced(a: seq<Order>, order: Order, b: seq<Order>)
    ensures Ids(a + [order] + b) == Ids(a) + {order.orderId} + Ids(b) && Ids(a + b) == Ids(a) + Ids(b)
    ensures Volume(a + [order] + b) == Volume(a) + order.remainingQuantity + Volume(b)
    ensures Volume(a + b) == Volume(a) + Volume(b)
  {
    IdsConcat(a, b);
    IdsConcat(a + [order], b);
    IdsConcat(a, [order]);
    VolumeConcat(a, b);
    VolumeConcat(a + [order], b);
    VolumeConcat(a, [order]);
  }

  // ---------------------------------------------------------- thinning out

  /** `t` holds orders of `s`, in the same relative order; `at` says which. An
      order may have lost quantity, nothing else. */
  ghost predicate Thinned(s: seq<Order>, t: seq<Order>, at: seq<nat>) {
    && |at| == |t|
    && (forall k :: 0 <= k < |at| ==> at[k] < |s| && SameButQuantity(s[at[k]], t[k]))
    && (forall j, k :: 0 <= j < k < |at| ==> at[j] < at[k])
  }

  predicate SameButQuantity(x: Order, y: Order) {
    y.remainingQuantity > 0 && y == x.(remainingQuantity := y.remainingQuantity)
  }

  lemma ThinnedKeepsSide(side: Side, s: seq<Order>, t: seq<Order>, at: seq<nat>)
    requires SideOk(side, s) && Thinned(s, t, at)
    ensures SideOk(side, t)
    ensures Ids(t) <= Ids(s)
    ensures t != [] ==> s != [] && !Better(side, t[0].price, s[0].price)
  {
    forall k | 0 <= k < |t| ensures Rests(side, t[k]) {
      assert Rests(side, s[at[k]]);
    }
    forall j, k | 0 <= j < k < |t| ensures !Better(side, t[k].price, t[j].price) {
      assert !Better(side, s[at[k]].price, s[at[j]].price);
    }
    forall j, k | 0 <= j < k < |t| ensures t[j].orderId != t[k].orderId {
      assert s[at[j]].orderId != s[at[k]].orderId;
    }
    forall id | id in Ids(t) ensures id in Ids(s) {
      var k := IdsIndex(t, id);
      IdsAt(s, at[k]);
    }
    if t != [] && at[0] > 0 { assert !Better(side, s[at[0]].price, s[0].price); }
  }

  // ------------------------------------------------------------- insertion

  function Position(queue: seq<Order>, order: Order): (n: nat)
    ensures n <= |queue|
  {
    if queue == [] || Better(order.side, order.price, queue[0].price) then 0
    else 1 + Position(queue[1..], order)
  }

  lemma {:induction false} InsertAt(queue: seq<Order>, order: Order)
    ensures var n := Position(queue, order);
            && Insert(queue, order) == queue[..n] + [order] + queue[n..]
            && (forall k :: 0 <= k < n ==> !Better(order.side, order.price, queue[k].price))
            && (n < |queue| ==> Better(order.side, order.price, queue[n].price))
  {
    var n := Position(queue, order);
    if queue != [] && !Better(order.side, order.price, queue[0].price) {
      InsertAt(queue[1..], order);
      assert [queue[0]] + queue[1..][..n - 1] == queue[..n];
      assert queue[1..][n - 1..] == queue[n..];
      assert forall k :: 1 <= k < n ==> queue[k] == queue[1..][k - 1];
    }
  }

  lemma InsertContents(queue: seq<Order>, order: Order)
    ensures Ids(Insert(queue, order)) == Ids(queue) + {order.orderId}
    ensures Volume(Insert(queue, order)) == Volume(queue) + order.remainingQuantity
  {
  }

  /** The order found at position `k` after an insertion. */
  lemma InsertedAt(queue: seq<Order>, order: Order, k: nat)
    requires k <= |queue|
    ensures var n := Position(queue, order);
            && |Insert(queue, order)| == |queue| + 1
            && Insert(queue, order)[k] == (if k < n then queue[k] else if k == n then order else queue[k - 1])
            && (k < n ==> !Better(order.side, order.price, queue[k].price))
            && (n < |queue| ==> Better(order.side, order.price, queue[n].price))
  {
    InsertAt(queue, order);
  }

  lemma InsertKeepsPair(side: Side, queue: seq<Order>, order: Order, j: nat, k: nat)
    requires SideOk(side, queue) && Rests(side, order) && order.orderId !in Ids(queue)
    requires j < k <= |queue|
    ensures |Insert(queue, order)| == |queue| + 1
    ensures Insert(queue, order)[j].orderId != Insert(queue, order)[k].orderId
    ensures !Better(side, Insert(queue, order)[k].price, Insert(queue, order)[j].price)
  {
    var n := Position(queue, order);
    InsertedAt(queue, order, j);
    InsertedAt(queue, order, k);
    if j == n {
      IdsAt(queue, k - 1);
      if n < k - 1 { assert !Better(side, queue[k - 1].price, queue[n].price); }
    } else if k == n {
      IdsAt(queue, j);
    } else {
      var j', k' := if j < n then j else j - 1, if k < n then k else k - 1;
      assert !Better(side, queue[k'].price, queue[j'].price) && queue[j'].orderId != queue[k'].orderId;
    }
  }

  lemma InsertKeepsSide(side: Side, queue: seq<Order>, order: Order)
    requires SideOk(side, queue) && Rests(side, order) && order.orderId !in Ids(queue)
    ensures SideOk(side, Insert(queue, order))
  {
    var inserted := Insert(queue, order);
    InsertedAt(queue, order, 0);
    forall k | 0 <= k < |inserted| ensures Rests(side, inserted[k]) {
      InsertedAt(queue, order, k);
    }
    forall j, k | 0 <= j < k < |inserted|
      ensures inserted[j].orderId != inserted[k].orderId
      ensures !Better(side, inserted[k].price, inserted[j].price)
    {
      InsertKeepsPair(side, queue, order, j, k);
    }
  }

  // --------------------------------------------------------------- removal

  function Remaining(queue: seq<Order>, id: OrderId): nat {
    match Find(queue, id)
    case None => 0
    case Some(order) => order.remainingQuantity
  }

  lemma {:induction false} RemoveAbsent(queue: seq<Order>, id: OrderId)
    requires id !in Ids(queue)
    ensures Remove(queue, id) == queue && Find(queue, id) == None
  {
    if queue != [] { RemoveAbsent(queue[1..], id); }
  }

  lemma {:induction false} RemoveConcat(a: seq<Order>, b: seq<Order>, id: OrderId)
    ensures Remove(a + b, id) == Remove(a, id) + Remove(b, id)
  {
    if a == [] {
      assert a + b == b;
    } else {
      assert (a + b)[1..] == a[1..] + b;
      RemoveConcat(a[1..], b, id);
    }
  }

  lemma AbsentAround(queue: seq<Order>, k: nat)
    requires Distinct(queue) && k < |queue|
    ensures queue[k].orderId !in Ids(queue[..k]) && queue[k].orderId !in Ids(queue[k + 1..])
  {
    var id := queue[k].orderId;
    if id in Ids(queue[..k]) { var j := IdsIndex(queue[..k], id); }
    if id in Ids(queue[k + 1..]) { var j := IdsIndex(queue[k + 1..], id); }
  }

  /** Removing the order at position `k` closes the gap and moves nothing else. */
  lemma RemoveAt(queue: seq<Order>, k: nat)
    requires Distinct(queue) && k < |queue|
    ensures Remove(queue, queue[k].orderId) == queue[..k] + queue[k + 1..]
    ensures Find(queue, queue[k].orderId) == Some(queue[k])
  {
    var id := queue[k].orderId;
    var a, b := queue[..k], queue[k..];
    assert queue == a + b && b[1..] == queue[k + 1..];
    AbsentAround(queue, k);
    RemoveConcat(a, b, id);
    RemoveAbsent(a, id);
    RemoveAbsent(b[1..], id);
    FindConcat(a, b, id);
  }

  lemma {:induction false} FindConcat(a: seq<Order>, b: seq<Order>, id: OrderId)
    ensures Find(a + b, id) == if id in Ids(a) then Find(a, id) else Find(b, id)
  {
    if a == [] {
      assert a + b == b;
    } else {
      assert (a + b)[1..] == a[1..] + b;
      FindConcat(a[1..], b, id);
    }
  }

  lemma RemoveContents(queue: seq<Order>, id: OrderId)
    requires Distinct(queue)
    ensures Ids(Remove(queue, id)) == Ids(queue) - {id}
    ensures Volume(Remove(queue, id)) + Remaining(queue, id) == Volume(queue)
  {
    if id in Ids(queue) {
      var k := IdsIndex(queue, id);
      RemoveAt(queue, k);
      AbsentAround(queue, k);
      assert queue == queue[..k] + [queue[k]] + queue[k + 1..];
      Spliced(queue[..k], queue[k], queue[k + 1..]);
    } else {
      RemoveAbsent(queue, id);
    }
  }

  lemma GapThins(queue: seq<Order>, n: nat, at: seq<nat>)
    requires Positive(queue) && n < |queue| && |at| == |queue| - 1
    requires forall k :: 0 <= k < |at| ==> at[k] == if k < n then k else k + 1
    ensures Thinned(queue, queue[..n] + queue[n + 1..], at)
  {
  }

  /** Removal keeps the relative order of everything else. */
  lemma RemoveThins(queue: seq<Order>, id: OrderId) returns (at: seq<nat>)
    requires Distinct(queue) && Positive(queue)
    ensures Thinned(queue, Remove(queue, id), at)
  {
    if id in Ids(queue) {
      var n := IdsIndex(queue, id);
      RemoveAt(queue, n);
      at := seq(|queue| - 1, k requires 0 <= k => if k < n then k else k + 1);
      GapThins(queue, n, at);
    } else {
      RemoveAbsent(queue, id);
      at := seq(|queue|, k requires 0 <= k => k);
    }
  }

  // -------------------------------------------------------------- matching

  /** Whatever is matched comes off the front; only the new head can change,
      and only in its remaining quantity. */
  lemma GreedyTrims(taker: Order, queue: seq<Order>)
    requires Positive(queue)
    ensures var rest := Greedy(taker, queue).rest;
            && |rest| <= |queue|
            && (rest != [] ==> SameButQuantity(queue[|queue| - |rest|], rest[0]))
            && (rest != [] ==> rest[1..] == queue[|queue| - |rest| + 1..])
  {
    GreedyIsFill(taker, queue);
    var f := Greedy(taker, queue);
    var n := |f.trades|;
    if n > 0 && Prefix(queue, n) > taker.remainingQuantity {
      assert f.rest[1..] == queue[n..];
    } else {
      assert f.rest == queue[n..];
    }
  }

  lemma SuffixThins(queue: seq<Order>, rest: seq<Order>, at: seq<nat>)
    requires |at| == |rest| <= |queue|
    requires forall k :: 0 <= k < |at| ==> at[k] == |queue| - |rest| + k
    requires rest != [] ==> SameButQuantity(queue[|queue| - |rest|], rest[0])
    requires rest != [] ==> rest[1..] == queue[|queue| - |rest| + 1..]
    requires Positive(queue)
    ensures Thinned(queue, rest, at)
  {
  }

  lemma GreedyThins(taker: Order, queue: seq<Order>) returns (at: seq<nat>)
    requires Positive(queue)
    ensures Thinned(queue, Greedy(taker, queue).rest, at)
  {
    var rest := Greedy(taker, queue).rest;
    GreedyTrims(taker, queue);
    at := seq(|rest|, k requires 0 <= k => |queue| - |rest| + k);
    SuffixThins(queue, rest, at);
  }

  lemma {:induction false} GreedyConserves(taker: Order, queue: seq<Order>)
    ensures var f := Greedy(taker, queue);
            && Traded(f.trades) + Volume(f.rest) == Volume(queue)
            && Traded(f.trades) + f.taker.remainingQuantity == taker.remainingQuantity
            && f.taker == taker.(remainingQuantity := f.taker.remainingQuantity)
            && (f.taker.remainingQuantity > 0 && f.rest != [] ==> !Crosses(taker, f.rest[0].price))
    decreases |queue|
  {
    if queue == [] || taker.remainingQuantity == 0 || !Crosses(taker, queue[0].price) {
    } else if taker.remainingQuantity < queue[0].remainingQuantity {
      assert Greedy(taker, queue).rest[1..] == queue[1..];
    } else {
      var taker' := taker.(remainingQuantity := taker.remainingQuantity - queue[0].remainingQuantity);
      var g := Greedy(taker', queue[1..]);
      GreedyConserves(taker', queue[1..]);
      var first := [TradeOf(taker, queue[0], queue[0].remainingQuantity)];
      assert (first + g.trades)[1..] == g.trades;
    }
  }
}
