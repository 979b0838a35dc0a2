/** The machine of the original, with 64-bit counters and a mask, does step for
    step what the machine with unbounded counters does. */
module SpscWrap {
  import opened Words
  import opened SpscMachine
  import opened SpscSafety

  function Word(n: nat): nat {
    n % 0x1_0000_0000_0000_0000
  }

  function WrapProducer<T>(p: Producer<T>): Producer<T> {
    match p
    case Away => Away
    case GotTail(item, t) => GotTail(item, Word(t))
    case GotHead(item, t, h) => GotHead(item, Word(t), Word(h))
    case Wrote(item, t) => Wrote(item, Word(t))
  }

  function WrapConsumer<T>(c: Consumer<T>): Consumer<T> {
    match c
    case Resting => Resting
    case Entered(max, h) => Entered(max, Word(h))
    case Looked(max, h, t) => Looked(max, Word(h), Word(t))
    case Taking(max, h, count, got) => Taking(max, Word(h), count, got)
  }

  /** The same state with every counter cut to 64 bits. */
  function Wrap<T>(s: State<T>): State<T> {
    State(s.capacity, s.slots, Word(s.head), Word(s.tail), WrapProducer(s.producer), WrapConsumer(s.consumer), s.log)
  }

  lemma WrappedSum(a: nat, b: nat)
    ensures Plus(Bits64, Word(a), b) == Word(a + b)
  {
  }

  lemma WrappedDifference(a: nat, b: nat)
    requires b <= a < b + 0x1_0000_0000_0000_0000
    ensures Minus(Bits64, Word(a), Word(b)) == a - b
  {
  }

  lemma WrappedSlot(i: nat, capacity: nat)
    requires IsPowerOfTwo(capacity) && capacity <= 0x8000_0000_0000_0000
    ensures SlotOf(Bits64, Word(i), capacity) == SlotOf(Unbounded, i, capacity)
  {
    MaskIsRemainder(Word(i), capacity);
    WrapIsInvisible(i, capacity);
    RingIsRemainder(i, capacity);
  }

  ghost predicate Sized<T>(s: State<T>) {
    Shaped(s) && IsPowerOfTwo(s.capacity) && s.capacity <= 0x8000_0000_0000_0000
  }

  lemma ReadWraps<T>(s: State<T>, leftover: T)
    requires Sized(s)
    ensures Next(Bits64, Wrap(s), PopRead(leftover)) == Wrap(Next(Unbounded, s, PopRead(leftover)))
  {
    if s.consumer.Taking? {
      WrappedSum(s.consumer.head, |s.consumer.got|);
      WrappedSlot(s.consumer.head + |s.consumer.got|, s.capacity);
    }
  }

  lemma WriteWraps<T>(s: State<T>)
    requires Sized(s)
    ensures Next(Bits64, Wrap(s), PushWrite) == Wrap(Next(Unbounded, s, PushWrite))
  {
    if s.producer.GotHead? { WrappedSlot(s.producer.tail, s.capacity); }
  }

  lemma StoresWrap<T>(s: State<T>, a: Action<T>)
    requires Shaped(s) && (a.PushStore? || a.PopStore? || a.PushLoadTail? || a.PopLoadHead?)
    ensures Next(Bits64, Wrap(s), a) == Wrap(Next(Unbounded, s, a))
  {
    if a.PushStore? && s.producer.Wrote? { WrappedSum(s.producer.tail, 1); }
    if a.PopStore? && s.consumer.Taking? { WrappedSum(s.consumer.head, s.consumer.count); }
  }

  lemma ChecksWrap<T>(s: State<T>, a: Action<T>)
    requires Shaped(s) && (a.PushLoadHead? || a.PopLoadTail? || a.PopDecide?)
    requires s.producer.GotTail? ==> s.head <= s.producer.tail < s.head + 0x1_0000_0000_0000_0000
    requires s.consumer.Entered? ==> s.consumer.head <= s.tail < s.consumer.head + 0x1_0000_0000_0000_0000
    requires s.consumer.Looked? ==> s.consumer.head <= s.consumer.tail < s.consumer.head + 0x1_0000_0000_0000_0000
    ensures Next(Bits64, Wrap(s), a) == Wrap(Next(Unbounded, s, a))
  {
    match a
    case PushLoadHead => if s.producer.GotTail? { WrappedDifference(s.producer.tail, s.head); }
    case PopLoadTail => if s.consumer.Entered? { WrappedDifference(s.tail, s.consumer.head); }
    case PopDecide => if s.consumer.Looked? { WrappedDifference(s.consumer.tail, s.consumer.head); }
  }

  /** Cutting the counters and taking a step commute. */
  lemma NextWraps<T>(s: State<T>, a: Action<T>)
    requires Inv(s) && Sized(s)
    ensures Next(Bits64, Wrap(s), a) == Wrap(Next(Unbounded, s, a))
  {
    match a
    case PushLoadTail(_) => StoresWrap(s, a);
    case PushLoadHead => ChecksWrap(s, a);
    case PushWrite => WriteWraps(s);
    case PushStore => StoresWrap(s, a);
    case PopLoadHead(_) => StoresWrap(s, a);
    case PopLoadTail => ChecksWrap(s, a);
    case PopDecide => ChecksWrap(s, a);
    case PopRead(leftover) => ReadWraps(s, leftover);
    case PopStore => StoresWrap(s, a);
  }

  lemma {:induction false} ExecWraps<T>(slots: seq<T>, actions: seq<Action<T>>)
    requires IsPowerOfTwo(|slots|) && |slots| <= 0x8000_0000_0000_0000
    ensures Exec(Bits64, Start(slots), actions) == Wrap(Exec(Unbounded, Start(slots), actions))
  {
    if actions != [] {
      var before := actions[..|actions| - 1];
      ExecWraps(slots, before);
      ExecKeepsInv(slots, before);
      NextWraps(Exec(Unbounded, Start(slots), before), actions[|actions| - 1]);
    }
  }

  /** The queue of the original is linearizable: in every interleaving of single
      steps, stale snapshots and half-finished batches included, what the threads
      observe is a legal history of a bounded first-in first-out queue. Items come
      out exactly once, in the order they went in. */
  lemma QueueIsLinearizable<T>(slots: seq<T>, actions: seq<Action<T>>)
    requires IsPowerOfTwo(|slots|) && |slots| <= 0x8000_0000_0000_0000
    ensures var log := Exec(Bits64, Start(slots), actions).log;
            && Legal(|slots|, log)
            && In(log) == Out(log) + Replay(log).items
            && |Replay(log).items| <= |slots|
  {
    ExecWraps(slots, actions);
    ExecKeepsInv(slots, actions);
    NothingIsLost(|slots|, Exec(Unbounded, Start(slots), actions).log);
  }
}
