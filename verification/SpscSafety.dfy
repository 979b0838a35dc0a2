/** The ring buffer is a first-in first-out queue in every interleaving, and the
    wrapping counters of the original count as well as unbounded ones. */
module SpscSafety {
  import opened Types
  import opened SpscMachine
  import opened Words

  // ------------------------------------------------------------- invariant

  function Items<T>(s: State<T>): seq<T> {
    Replay(s.log).items
  }

  /** How many of the queued items the consumer has moved out of their slots. */
  function Taken<T>(s: State<T>): nat {
    if s.consumer.Taking? then |s.consumer.got| else 0
  }

  ghost predicate ProducerOk<T>(s: State<T>)
    requires Shaped(s)
  {
    match s.producer
    case Away => true
    case GotTail(item, t) => t == s.tail
    case GotHead(item, t, h) => t == s.tail && h <= s.head && t < h + s.capacity
    case Wrote(item, t) => t == s.tail && |Items(s)| < s.capacity && s.slots[Ring(t, s.capacity)] == item
  }

  ghost predicate ConsumerOk<T>(s: State<T>) {
    match s.consumer
    case Resting => true
    case Entered(max, h) => h == s.head
    case Looked(max, h, t) => h == s.head && h <= t <= s.tail && Replay(s.log).seen == t - h
    case Taking(max, h, count, got) =>
      h == s.head && count == Min(Replay(s.log).seen, max) && 0 < Replay(s.log).seen <= |Items(s)|
      && |got| <= count && got == Items(s)[..|got|]
  }

  /** Slot number `j` of the window holds queued item number `j`. */
  ghost predicate SlotHolds<T>(s: State<T>, j: nat)
    requires Shaped(s) && j < |Items(s)|
  {
    s.slots[Ring(s.head + j, s.capacity)] == Items(s)[j]
  }

  ghost predicate Inv<T>(s: State<T>) {
    && Shaped(s)
    && Legal(s.capacity, s.log)
    && s.tail == s.head + |Items(s)| && |Items(s)| <= s.capacity
    && s.tail == |In(s.log)|
    && (forall j :: Taken(s) <= j < |Items(s)| ==> SlotHolds(s, j))
    && ProducerOk(s)
    && ConsumerOk(s)
  }

  lemma Logged<T>(capacity: nat, log: seq<Event<T>>, e: Event<T>)
    ensures Replay(log + [e]) == After(Replay(log), e)
    ensures Legal(capacity, log + [e]) <==> Legal(capacity, log) && Allowed(capacity, Replay(log), e)
    ensures In(log + [e]) == In(log) + if e.Pushed? then [e.item] else []
    ensures Out(log + [e]) == Out(log) + if e.Popped? then e.items else []
  {
  }

  /** The slots were not written and the window did not move. */
  lemma WindowKept<T>(s: State<T>, s': State<T>)
    requires Shaped(s) && Shaped(s') && s'.slots == s.slots && s'.capacity == s.capacity && s'.head == s.head
    requires Items(s') == Items(s) && Taken(s) <= Taken(s')
    requires forall j :: Taken(s) <= j < |Items(s)| ==> SlotHolds(s, j)
    ensures forall j :: Taken(s') <= j < |Items(s')| ==> SlotHolds(s', j)
  {
    forall j | Taken(s') <= j < |Items(s')| ensures SlotHolds(s', j) { assert SlotHolds(s, j); }
  }

  lemma PushKeepsInv<T>(s: State<T>, a: Action<T>)
    requires Inv(s) && (a.PushLoadTail? || a.PushLoadHead?)
    ensures Inv(Next(Unbounded, s, a))
  {
    Logged(s.capacity, s.log, WasFull);
    WindowKept(s, Next(Unbounded, s, a));
  }

  /** The slot behind the window is none of the window's. */
  lemma WriteKeepsWindow<T>(s: State<T>, j: nat)
    requires Shaped(s) && s.producer.GotHead? && s.producer.tail == s.head + |Items(s)| < s.head + s.capacity
    requires j < |Items(s)| && SlotHolds(s, j)
    ensures SlotHolds(Next(Unbounded, s, PushWrite), j)
  {
    RingApart(s.head + j, s.producer.tail, s.capacity);
  }

  lemma WriteKeepsInv<T>(s: State<T>)
    requires Inv(s)
    ensures Inv(Next(Unbounded, s, PushWrite))
  {
    if s.producer.GotHead? {
      var s' := Next(Unbounded, s, PushWrite);
      forall j | Taken(s') <= j < |Items(s')| ensures SlotHolds(s', j) { WriteKeepsWindow(s, j); }
    }
  }

  /** More items behind do not disturb the consumer. */
  lemma ConsumerKept<T>(s: State<T>, s': State<T>)
    requires ConsumerOk(s) && s'.consumer == s.consumer && s'.head == s.head && s.tail <= s'.tail
    requires Replay(s'.log).seen == Replay(s.log).seen && Items(s) <= Items(s')
    ensures ConsumerOk(s')
  {
  }

  lemma WindowLonger<T>(s: State<T>, s': State<T>, item: T, j: nat)
    requires Shaped(s) && Shaped(s') && s'.slots == s.slots && s'.capacity == s.capacity && s'.head == s.head
    requires Items(s') == Items(s) + [item] && j <= |Items(s)|
    requires if j < |Items(s)| then SlotHolds(s, j) else s.slots[Ring(s.head + j, s.capacity)] == item
    ensures SlotHolds(s', j)
  {
  }

  lemma StoreKeepsInv<T>(s: State<T>)
    requires Inv(s)
    ensures Inv(Next(Unbounded, s, PushStore))
  {
    if s.producer.Wrote? {
      var s' := Next(Unbounded, s, PushStore);
      Logged(s.capacity, s.log, Pushed(s.producer.item));
      ConsumerKept(s, s');
      forall j | Taken(s') <= j < |Items(s')| ensures SlotHolds(s', j) { WindowLonger(s, s', s.producer.item, j); }
    }
  }

  lemma LookKeepsInv<T>(s: State<T>, a: Action<T>)
    requires Inv(s) && (a.PopLoadHead? || a.PopLoadTail? || a.PopDecide?)
    ensures Inv(Next(Unbounded, s, a))
  {
    if s.consumer.Entered? {
      Logged(s.capacity, s.log, Saw(s.tail - s.consumer.head));
    }
    WindowKept(s, Next(Unbounded, s, a));
  }

  ghost predicate Reading<T>(s: State<T>) {
    s.consumer.Taking? && |s.consumer.got| < s.consumer.count
  }

  lemma ReadKeepsWindow<T>(s: State<T>, leftover: T, j: nat)
    requires Inv(s) && Reading(s) && |s.consumer.got| < j < |Items(s)|
    ensures SlotHolds(Next(Unbounded, s, PopRead(leftover)), j)
  {
    assert SlotHolds(s, j);
    RingApart(s.head + |s.consumer.got|, s.head + j, s.capacity);
  }

  lemma ReadKeepsProducer<T>(s: State<T>, leftover: T)
    requires Inv(s) && Reading(s)
    ensures ProducerOk(Next(Unbounded, s, PopRead(leftover)))
  {
    if s.producer.Wrote? { RingApart(s.head + |s.consumer.got|, s.tail, s.capacity); }
  }

  lemma ReadGetsItem<T>(s: State<T>, leftover: T)
    requires Inv(s) && Reading(s)
    ensures ConsumerOk(Next(Unbounded, s, PopRead(leftover)))
  {
    var n := |s.consumer.got|;
    assert SlotHolds(s, n);
    assert Items(s)[..n + 1] == Items(s)[..n] + [Items(s)[n]];
  }

  lemma ReadKeepsInv<T>(s: State<T>, leftover: T)
    requires Inv(s)
    ensures Inv(Next(Unbounded, s, PopRead(leftover)))
  {
    if Reading(s) {
      ReadKeepsProducer(s, leftover);
      ReadGetsItem(s, leftover);
      forall j | |s.consumer.got| < j < |Items(s)| ensures SlotHolds(Next(Unbounded, s, PopRead(leftover)), j) {
        ReadKeepsWindow(s, leftover, j);
      }
    }
  }

  /** The batch was read: what is left of the window moves up. */
  lemma CommitMovesWindow<T>(s: State<T>, s': State<T>, count: nat, j: nat)
    requires Shaped(s) && Shaped(s') && s'.slots == s.slots && s'.capacity == s.capacity && s'.head == s.head + count
    requires count <= |Items(s)| && Items(s') == Items(s)[count..] && j < |Items(s')| && SlotHolds(s, j + count)
    ensures SlotHolds(s', j)
  {
  }

  lemma CommitKeepsInv<T>(s: State<T>)
    requires Inv(s)
    ensures Inv(Next(Unbounded, s, PopStore))
  {
    if s.consumer.Taking? && |s.consumer.got| == s.consumer.count {
      var s' := Next(Unbounded, s, PopStore);
      Logged(s.capacity, s.log, Popped(s.consumer.max, s.consumer.got));
      forall j | Taken(s') <= j < |Items(s')| ensures SlotHolds(s', j) {
        assert SlotHolds(s, j + s.consumer.count);
        CommitMovesWindow(s, s', s.consumer.count, j);
      }
    }
  }

  lemma NextKeepsInv<T>(s: State<T>, a: Action<T>)
    requires Inv(s)
    ensures Inv(Next(Unbounded, s, a))
  {
    match a
    case PushLoadTail(_) => PushKeepsInv(s, a);
    case PushLoadHead => PushKeepsInv(s, a);
    case PushWrite => WriteKeepsInv(s);
    case PushStore => StoreKeepsInv(s);
    case PopLoadHead(_) => LookKeepsInv(s, a);
    case PopLoadTail => LookKeepsInv(s, a);
    case PopDecide => LookKeepsInv(s, a);
    case PopRead(leftover) => ReadKeepsInv(s, leftover);
    case PopStore => CommitKeepsInv(s);
  }

  lemma {:induction false} ExecKeepsInv<T>(slots: seq<T>, actions: seq<Action<T>>)
    requires slots != []
    ensures Inv(Exec(Unbounded, Start(slots), actions))
  {
    if actions != [] {
      ExecKeepsInv(slots, actions[..|actions| - 1]);
      NextKeepsInv(Exec(Unbounded, Start(slots), actions[..|actions| - 1]), actions[|actions| - 1]);
    }
  }

  /** The producer never writes a slot the consumer still has to read, be it a
      queued item or one of a half-finished batch. */
  lemma NeverOverwrites<T>(s: State<T>, j: nat)
    requires Inv(s) && s.producer.GotHead? && j < |Items(s)|
    ensures SlotOf(Unbounded, s.producer.tail, s.capacity) != Ring(s.head + j, s.capacity)
  {
    RingApart(s.head + j, s.tail, s.capacity);
  }
}
