/** The ring buffer itself: an array, a mask and two 64-bit counters. The calls
    are taken one at a time here; `SpscMachine` takes them apart. */
module SpscRing {
  import opened Types
  import opened Words

  type Counter = n: nat | n < 0x1_0000_0000_0000_0000

  // ----------------------------------------------------------- the capacity

  /** `power` after `k` turns of the rounding loop. */
  function Shifted(k: nat): Counter {
    if k == 0 then 1 else Shifted(k - 1) * 2 % 0x1_0000_0000_0000_0000
  }

  lemma NextPower(p: nat, q: nat)
    requires IsPowerOfTwo(p) && IsPowerOfTwo(q) && p < q
    ensures 2 * p <= q
  {
  }

  /** One turn of the rounding loop on a power of two. */
  lemma Turn(p: Counter)
    requires IsPowerOfTwo(p) && p <= 0x8000_0000_0000_0000
    ensures p < 0x8000_0000_0000_0000 ==>
      p * 2 % 0x1_0000_0000_0000_0000 == 2 * p <= 0x8000_0000_0000_0000 && IsPowerOfTwo(2 * p)
    ensures p == 0x8000_0000_0000_0000 ==> p * 2 % 0x1_0000_0000_0000_0000 == 0
  {
    if p < 0x8000_0000_0000_0000 {
      WordIsPower();
      NextPower(p, 0x8000_0000_0000_0000);
      PowerDoubles(p);
    }
  }

  /** The least power of two at or above `val`. */
  method RoundUpPowerOfTwo(val: nat) returns (power: Counter)
    requires val <= 0x8000_0000_0000_0000
    ensures IsPowerOfTwo(power) && val <= power <= 0x8000_0000_0000_0000
    ensures forall q: nat :: IsPowerOfTwo(q) && val <= q ==> power <= q
  {
    power := 1;
    ghost var last: nat := 0;
    while power < val
      invariant IsPowerOfTwo(power) && power <= 0x8000_0000_0000_0000
      invariant power == 1 || (last < val && power == 2 * last)
      decreases val - power
    {
      Turn(power);
      last := power;
      power := power * 2 % 0x1_0000_0000_0000_0000;
    }
    forall q: nat | IsPowerOfTwo(q) && val <= q ensures power <= q {
      if q < power { NextPower(q, power); }
    }
  }

  lemma {:induction false} ShiftedShape(k: nat)
    ensures Shifted(k) == 0 || (IsPowerOfTwo(Shifted(k)) && Shifted(k) <= 0x8000_0000_0000_0000)
  {
    if k > 0 {
      ShiftedShape(k - 1);
      if Shifted(k - 1) != 0 { Turn(Shifted(k - 1)); }
    }
  }

  lemma ShiftedReaches(val: nat, k: nat) returns (n: nat)
    requires val <= 0x8000_0000_0000_0000 && Shifted(k) > 0
    ensures val <= Shifted(n)
    decreases 0x8000_0000_0000_0000 - Shifted(k)
  {
    ShiftedShape(k);
    if Shifted(k) >= val {
      n := k;
    } else {
      Turn(Shifted(k));
      n := ShiftedReaches(val, k + 1);
    }
  }

  /** The rounding loop ends for exactly the requests up to 2^63: beyond, the
      shifted value falls to zero and stays there. */
  lemma RoundingEnds(val: Counter)
    ensures (exists k :: Shifted(k) >= val) <==> val <= 0x8000_0000_0000_0000
  {
    if val <= 0x8000_0000_0000_0000 {
      assert Shifted(0) == 1;
      var n := ShiftedReaches(val, 0);
    } else {
      forall k ensures Shifted(k) < val { ShiftedShape(k); }
    }
  }

  // -------------------------------------------------------------- the queue

  class SpscQueue<T(0)> {
    const capacity: Counter
    const mask: Counter
    const buffer: array<T>
    var tail: Counter
    var head: Counter
    /** How often the counters were advanced, without wrapping. */
    ghost var pushes: nat
    ghost var pops: nat

    ghost predicate Valid()
      reads this, buffer
    {
      && IsPowerOfTwo(capacity) && capacity <= 0x8000_0000_0000_0000
      && buffer.Length == capacity && mask == capacity - 1
      && pops <= pushes <= pops + capacity
      && tail == pushes % 0x1_0000_0000_0000_0000 && head == pops % 0x1_0000_0000_0000_0000
    }

    ghost function Contents(): (items: seq<T>)
      requires Valid()
      reads this, buffer
      ensures |items| == pushes - pops
      ensures forall k :: 0 <= k < |items| ==> items[k] == buffer[Ring(pops + k, capacity)]
    {
      seq(pushes - pops, k requires 0 <= k reads this, buffer requires Valid() => buffer[Ring(pops + k, capacity)])
    }

    constructor (requested: Counter)
      requires requested <= 0x8000_0000_0000_0000
      ensures Valid() && Contents() == [] && fresh(buffer)
      ensures requested <= capacity && forall q: nat :: IsPowerOfTwo(q) && requested <= q ==> capacity <= q
    {
      var power := RoundUpPowerOfTwo(requested);
      capacity, mask, buffer := power, power - 1, new T[power];
      tail, head, pushes, pops := 0, 0, 0, 0;
    }

    /** Which slot a counter value leads to. */
    lemma SlotIs(counter: Counter, n: nat)
      requires Valid() && counter == n % 0x1_0000_0000_0000_0000
      ensures BitAnd(counter, mask) == Ring(n, capacity)
    {
      MaskIsRemainder(counter, capacity);
      WrapIsInvisible(n, capacity);
      RingIsRemainder(n, capacity);
    }

    function Available(): (n: Counter)
      reads this, buffer
    {
      (tail + (0x1_0000_0000_0000_0000 - head)) % 0x1_0000_0000_0000_0000
    }

    lemma AvailableIs()
      requires Valid()
      ensures Available() == |Contents()|
      ensures head == tail <==> Contents() == []
    {
      WordDifference(pushes, pops);
    }

    method Empty() returns (empty: bool)
      requires Valid()
      ensures empty <==> Contents() == []
    {
      AvailableIs();
      empty := head == tail;
    }

    method Push(item: T) returns (ok: bool)
      requires Valid()
      modifies this`tail, this`pushes, buffer
      ensures Valid()
      ensures ok <==> |old(Contents())| < capacity
      ensures Contents() == if ok then old(Contents()) + [item] else old(Contents())
    {
      AvailableIs();
      if Available() >= capacity {
        return false;
      }
      ghost var before := Contents();
      Put(item, before);
      WordAdds(pushes, 1);
      tail := (tail + 1) % 0x1_0000_0000_0000_0000;
      pushes := pushes + 1;
      WindowMoved(pops, before + [item], 0);
      ok := true;
    }

    /** The slot behind the window is none of the window's. */
    method Put(item: T, ghost items: seq<T>)
      requires Valid() && |items| < capacity && pushes == pops + |items|
      requires forall j :: 0 <= j < |items| ==> Holds(pops, items, j)
      modifies buffer
      ensures forall j :: 0 <= j <= |items| ==> Holds(pops, items + [item], j)
    {
      SlotIs(tail, pushes);
      buffer[BitAnd(tail, mask)] := item;
      forall j | 0 <= j < |items| ensures Holds(pops, items + [item], j) {
        assert old(Holds(pops, items, j));
        RingApart(pops + j, pushes, capacity);
      }
    }

    /** Slot number `j` from `base` on holds item number `j`. */
    ghost predicate Holds(base: nat, items: seq<T>, j: nat)
      requires capacity > 0 && buffer.Length == capacity && j < |items|
      reads buffer
    {
      buffer[Ring(base + j, capacity)] == items[j]
    }

    /** Item number `i` is moved out of its slot, which is left unspecified. */
    method Take(counter: Counter, ghost items: seq<T>, ghost i: nat) returns (item: T)
      requires Valid() && i < |items| <= capacity && counter == (pops + i) % 0x1_0000_0000_0000_0000
      requires forall j :: i <= j < |items| ==> Holds(pops, items, j)
      modifies buffer
      ensures item == items[i]
      ensures forall j :: i < j < |items| ==> Holds(pops, items, j)
    {
      SlotIs(counter, pops + i);
      assert Holds(pops, items, i);
      item := buffer[BitAnd(counter, mask)];
      buffer[BitAnd(counter, mask)] := *;
      forall j | i < j < |items| ensures Holds(pops, items, j) {
        assert old(Holds(pops, items, j));
        RingApart(pops + i, pops + j, capacity);
      }
    }

    lemma WindowMoved(base: nat, before: seq<T>, count: nat)
      requires Valid() && count <= |before| && pops == base + count && pushes == base + |before|
      requires forall j :: count <= j < |before| ==> Holds(base, before, j)
      ensures Contents() == before[count..]
    {
      forall k | 0 <= k < |Contents()| ensures Contents()[k] == before[count..][k] {
        assert Holds(base, before, k + count) && base + (k + count) == pops + k;
      }
    }

    method Pop() returns (ok: bool, item: T)
      requires Valid()
      modifies this`head, this`pops, buffer
      ensures Valid()
      ensures ok <==> old(Contents()) != []
      ensures ok ==> item == old(Contents())[0] && Contents() == old(Contents())[1..]
      ensures !ok ==> Contents() == old(Contents())
    {
      AvailableIs();
      if head == tail {
        item := *;
        return false, item;
      }
      ghost var before := Contents();
      item := Take(head, before, 0);
      WordAdds(pops, 1);
      head := (head + 1) % 0x1_0000_0000_0000_0000;
      pops := pops + 1;
      WindowMoved(pops - 1, before, 1);
      ok := true;
    }

    /** The first `count` items are moved out of their slots, oldest first. */
    method TakeFirst(outItems: seq<T>, ghost queued: seq<T>, count: Counter) returns (items: seq<T>)
      requires Valid() && count <= |queued| <= capacity
      requires forall j :: 0 <= j < |queued| ==> Holds(pops, queued, j)
      modifies buffer
      ensures items == outItems + queued[..count]
      ensures forall j :: count <= j < |queued| ==> Holds(pops, queued, j)
    {
      items := outItems;
      for i := 0 to count
        invariant items == outItems + queued[..i]
        invariant forall j :: i <= j < |queued| ==> Holds(pops, queued, j)
      {
        WordAdds(pops, i);
        var item := Take((head + i) % 0x1_0000_0000_0000_0000, queued, i);
        assert queued[..i + 1] == queued[..i] + [queued[i]];
        items := items + [item];
      }
    }

    /** Up to `max` items, oldest first, are appended to what the caller has. */
    method PopBatch(outItems: seq<T>, max: Counter) returns (count: Counter, items: seq<T>)
      requires Valid()
      modifies this`head, this`pops, buffer
      ensures Valid()
      ensures count == Min(|old(Contents())|, max)
      ensures items == outItems + old(Contents())[..count]
      ensures Contents() == old(Contents())[count..]
    {
      AvailableIs();
      ghost var before := Contents();
      var available := Available();
      if available == 0 {
        return 0, outItems;
      }
      count := if available < max then available else max;
      items := TakeFirst(outItems, before, count);
      WordAdds(pops, count);
      head := (head + count) % 0x1_0000_0000_0000_0000;
      pops := pops + count;
      WindowMoved(pops - count, before, count);
    }
  }

  lemma WordDifference(a: nat, b: nat)
    requires b <= a < b + 0x1_0000_0000_0000_0000
    ensures (a % 0x1_0000_0000_0000_0000 + (0x1_0000_0000_0000_0000 - b % 0x1_0000_0000_0000_0000))
              % 0x1_0000_0000_0000_0000 == a - b
    ensures a % 0x1_0000_0000_0000_0000 == b % 0x1_0000_0000_0000_0000 <==> a == b
  {
  }

  lemma WordAdds(n: nat, k: nat)
    ensures (n % 0x1_0000_0000_0000_0000 + k) % 0x1_0000_0000_0000_0000 == (n + k) % 0x1_0000_0000_0000_0000
  {
  }
}
