/** The ring buffer as a step machine. Every atomic load, slot write, slot read
    and atomic store of `push`, `pop` and `pop_batch` is a step of its own, and
    the steps of the one producer and the one consumer interleave freely. */
module SpscMachine {
  import opened Types
  import opened Words

  // ------------------------------------------------------------- arithmetic

  /** The counters of the original are 64-bit and wrap; the simple form of the
      machine counts without bound. */
  datatype Width = Unbounded | Bits64

  function Plus(w: Width, a: nat, b: nat): nat {
    if w.Unbounded? then a + b else (a + b) % 0x1_0000_0000_0000_0000
  }

  function Minus(w: Width, a: nat, b: nat): nat {
    if w.Unbounded? then (if a < b then 0 else a - b)
    else (a + (0x1_0000_0000_0000_0000 - b % 0x1_0000_0000_0000_0000)) % 0x1_0000_0000_0000_0000
  }

  function SlotOf(w: Width, i: nat, capacity: nat): (k: nat)
    requires capacity > 0
    ensures k < capacity
  {
    if w.Unbounded? then Ring(i, capacity) else BitAnd(i, capacity - 1)
  }

  // ------------------------------------------------------------------ state

  datatype Producer<T> =
    | Away
    | GotTail(item: T, tail: nat)
    | GotHead(item: T, tail: nat, head: nat)
    | Wrote(item: T, tail: nat)

  datatype Consumer<T> =
    | Resting
    | Entered(max: nat, head: nat)
    | Looked(max: nat, head: nat, tail: nat)
    | Taking(max: nat, head: nat, count: nat, got: seq<T>)

  /** What the two threads observe, at the step where the call takes effect. */
  datatype Event<T> =
    | Pushed(item: T)
    | WasFull
    | Saw(available: nat)
    | Popped(max: nat, items: seq<T>)

  datatype State<T> = State(
    capacity: nat,
    slots: seq<T>,
    head: nat,
    tail: nat,
    producer: Producer<T>,
    consumer: Consumer<T>,
    log: seq<Event<T>>)

  /** `PopRead` carries what the move leaves behind in the slot. `pop` takes the
      steps of `pop_batch` with a maximum of one. */
  datatype Action<T> =
    | PushLoadTail(item: T)
    | PushLoadHead
    | PushWrite
    | PushStore
    | PopLoadHead(max: nat)
    | PopLoadTail
    | PopDecide
    | PopRead(leftover: T)
    | PopStore

  predicate Shaped<T>(s: State<T>) {
    s.capacity > 0 && |s.slots| == s.capacity
  }

  // ------------------------------------------------------------------ steps

  /** A step that the thread concerned is not ready for changes nothing. */
  function Next<T>(w: Width, s: State<T>, a: Action<T>): (s': State<T>)
    requires Shaped(s)
    ensures Shaped(s') && s'.capacity == s.capacity
  {
    match a
    case PushLoadTail(item) =>
      if s.producer.Away? then s.(producer := GotTail(item, s.tail)) else s
    case PushLoadHead =>
      if s.producer.GotTail? then
        var p := s.producer;
        if Minus(w, p.tail, s.head) >= s.capacity then s.(producer := Away, log := s.log + [WasFull])
        else s.(producer := GotHead(p.item, p.tail, s.head))
      else s
    case PushWrite =>
      if s.producer.GotHead? then
        var p := s.producer;
        s.(slots := s.slots[SlotOf(w, p.tail, s.capacity) := p.item], producer := Wrote(p.item, p.tail))
      else s
    case PushStore =>
      if s.producer.Wrote? then
        s.(tail := Plus(w, s.producer.tail, 1), producer := Away, log := s.log + [Pushed(s.producer.item)])
      else s
    case PopLoadHead(max) =>
      if s.consumer.Resting? then s.(consumer := Entered(max, s.head)) else s
    case PopLoadTail =>
      if s.consumer.Entered? then
        var c := s.consumer;
        s.(consumer := Looked(c.max, c.head, s.tail), log := s.log + [Saw(Minus(w, s.tail, c.head))])
      else s
    case PopDecide =>
      if s.consumer.Looked? then
        var c := s.consumer;
        var available := Minus(w, c.tail, c.head);
        s.(consumer := if available == 0 then Resting else Taking(c.max, c.head, Min(available, c.max), []))
      else s
    case PopRead(leftover) =>
      if s.consumer.Taking? && |s.consumer.got| < s.consumer.count then
        var c := s.consumer;
        var k := SlotOf(w, Plus(w, c.head, |c.got|), s.capacity);
        s.(slots := s.slots[k := leftover], consumer := c.(got := c.got + [s.slots[k]]))
      else s
    case PopStore =>
      if s.consumer.Taking? && |s.consumer.got| == s.consumer.count then
        var c := s.consumer;
        s.(head := Plus(w, c.head, c.count), consumer := Resting, log := s.log + [Popped(c.max, c.got)])
      else s
  }

  function Start<T>(slots: seq<T>): State<T> {
    State(|slots|, slots, 0, 0, Away, Resting, [])
  }

  /** The state after any interleaving of steps. */
  function Exec<T>(w: Width, s: State<T>, actions: seq<Action<T>>): (s': State<T>)
    requires Shaped(s)
    ensures Shaped(s') && s'.capacity == s.capacity
  {
    if actions == [] then s else Next(w, Exec(w, s, actions[..|actions| - 1]), actions[|actions| - 1])
  }

  // -------------------------------------------------- the queue it stands for

  /** A bounded first-in first-out queue, and how much the consumer last saw. */
  datatype Fifo<T> = Fifo(items: seq<T>, seen: nat)

  /** The queue after an event: a push adds at the back, a pop takes what was
      there when the consumer looked, up to its maximum, from the front. */
  function After<T>(q: Fifo<T>, e: Event<T>): Fifo<T> {
    match e
    case Pushed(item) => q.(items := q.items + [item])
    case WasFull => q
    case Saw(available) => q.(seen := available)
    case Popped(max, items) => if |items| <= |q.items| then q.(items := q.items[|items|..]) else q
  }

  predicate Allowed<T(==)>(capacity: nat, q: Fifo<T>, e: Event<T>) {
    match e
    case Pushed(item) => |q.items| < capacity
    case WasFull => |q.items| == capacity
    case Saw(available) => available == |q.items|
    case Popped(max, items) => 0 < q.seen <= |q.items| && items == q.items[..Min(q.seen, max)]
  }

  function Replay<T>(log: seq<Event<T>>): Fifo<T> {
    if log == [] then Fifo([], 0) else After(Replay(log[..|log| - 1]), log[|log| - 1])
  }

  /** Every event of the log was allowed by the queue at its point. */
  predicate Legal<T(==)>(capacity: nat, log: seq<Event<T>>) {
    log == [] || (Legal(capacity, log[..|log| - 1]) && Allowed(capacity, Replay(log[..|log| - 1]), log[|log| - 1]))
  }

  /** All items pushed so far, and all items popped so far. */
  function In<T>(log: seq<Event<T>>): seq<T> {
    if log == [] then []
    else In(log[..|log| - 1]) + if log[|log| - 1].Pushed? then [log[|log| - 1].item] else []
  }

  function Out<T>(log: seq<Event<T>>): seq<T> {
    if log == [] then []
    else Out(log[..|log| - 1]) + if log[|log| - 1].Popped? then log[|log| - 1].items else []
  }

  lemma {:induction false} NothingIsLost<T>(capacity: nat, log: seq<Event<T>>)
    requires Legal(capacity, log)
    ensures In(log) == Out(log) + Replay(log).items
    ensures |Replay(log).items| <= capacity
  {
    if log != [] {
      NothingIsLost(capacity, log[..|log| - 1]);
    }
  }

  lemma WithoutLast<T>(a: seq<T>, b: seq<T>)
    requires b != []
    ensures (a + b)[..|a + b| - 1] == a + b[..|b| - 1] && (a + b)[|a + b| - 1] == b[|b| - 1]
  {
  }
}
