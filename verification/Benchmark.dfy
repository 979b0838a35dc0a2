/** The benchmark's commands: both loops, on the order book. */
module Benchmark {
  import opened Types
  import opened Book
  import opened SpscMachine
  import opened SpscWrap
  import Pipeline
  import OpenLoop
  import ClosedLoop
  import RingOpenLoop
  import RingClosedLoop
  import ClosedLoopProgress
  import RingOpenLoopProgress
  import RingClosedLoopProgress

  // -------------------------------------------------------------- open loop

  datatype Completion = Completion(ingressTimestamp: nat)

  /** Executed for the effect on the book; nobody is told. */
  const OPEN: Pipeline.Program<Book, Op, Completion> :=
    Pipeline.Program(EMPTY, (b: Book, op: Op) => Apply(b, op).book, (b: Book, op: Op) => None)

  lemma {:induction false} OpenFoldIsRun(ops: seq<Op>)
    ensures Pipeline.FoldBook(OPEN, ops) == Run(EMPTY, ops)
  {
    if ops != [] { OpenFoldIsRun(ops[..|ops| - 1]); }
  }

  /** Whatever the schedule, batch sizes and queue capacity, the open loop ends in
      the book of executing the actions one after the other; and it can end. */
  lemma OpenLoopResult(ops: seq<Op>, capacity: nat, turns: seq<OpenLoop.Turn>, max: nat)
    returns (more: seq<OpenLoop.Turn>)
    requires capacity > 0 && max > 0
    ensures var s := OpenLoop.Play(OPEN, ops, capacity, turns);
            s.matcher.Exited? ==> s.executed == ops && s.book == Run(EMPTY, ops)
    ensures OpenLoop.Play(OPEN, ops, capacity, turns + more).matcher.Exited?
  {
    OpenLoop.AllExecuted(OPEN, ops, capacity, turns);
    OpenFoldIsRun(ops);
    more := OpenLoop.CanEnd(OPEN, ops, capacity, turns, max);
  }

  /** The same on the ring buffer, in every interleaving of single steps. The open
      loop has no second queue; `spare` stays unused. */
  lemma OpenLoopOnRing(ops: seq<Op>, inSlots: seq<Op>, spare: seq<Completion>, turns: seq<RingOpenLoop.Turn<Op>>,
                       max: nat) returns (more: seq<RingOpenLoop.Turn<Op>>)
    requires Sized(Start(inSlots)) && Sized(Start(spare)) && max > 0
    ensures var s := RingOpenLoop.Play(Bits64, OPEN, ops, inSlots, spare, turns);
            s.phase.Left? ==> s.executed == ops && s.book == Run(EMPTY, ops)
    ensures RingOpenLoop.Play(Bits64, OPEN, ops, inSlots, spare, turns + more).phase.Left?
  {
    RingOpenLoop.AllExecuted(OPEN, ops, inSlots, spare, turns);
    OpenFoldIsRun(ops);
    more := RingOpenLoopProgress.CanEnd(OPEN, ops, inSlots, spare, turns, max, inSlots[0]);
  }

  // ------------------------------------------------------------ closed loop

  datatype Message = Message(op: Op, ingressTimestamp: nat)

  /** Every message is executed and acknowledged with its own stamp. */
  const CLOSED: Pipeline.Program<Book, Message, Completion> :=
    Pipeline.Program(EMPTY,
                     (b: Book, m: Message) => Apply(b, m.op).book,
                     (b: Book, m: Message) => Some(Completion(m.ingressTimestamp)))

  /** The actions to submit, stamped with the clock before each attempt to push. */
  function LoadOf(ops: seq<Op>): ClosedLoop.Load<Message> {
    ClosedLoop.Load(|ops|, (i: nat, now: nat) => Message(if i < |ops| then ops[i] else ClearOp, now))
  }

  function Acks(stamps: seq<nat>): (acks: seq<Completion>)
    ensures |acks| == |stamps| && forall k :: 0 <= k < |acks| ==> acks[k] == Completion(stamps[k])
  {
    seq(|stamps|, k requires 0 <= k < |stamps| => Completion(stamps[k]))
  }

  lemma {:induction false} ClosedFoldIsRun(ops: seq<Op>, stamps: seq<nat>)
    requires |stamps| <= |ops|
    ensures Pipeline.FoldBook(CLOSED, ClosedLoop.Made(LoadOf(ops), stamps)) == Run(EMPTY, ops[..|stamps|])
  {
    if stamps != [] {
      var n := |stamps| - 1;
      var messages := ClosedLoop.Made(LoadOf(ops), stamps);
      ClosedFoldIsRun(ops, stamps[..n]);
      assert messages[..n] == ClosedLoop.Made(LoadOf(ops), stamps[..n]);
      assert ops[..n + 1][..n] == ops[..n];
    }
  }

  /** Every message made is acknowledged with its own stamp, in order. */
  lemma ClosedRepliesAreAcks(ops: seq<Op>, stamps: seq<nat>)
    ensures Pipeline.FoldReplies(CLOSED, ClosedLoop.Made(LoadOf(ops), stamps)) == Acks(stamps)
  {
    Pipeline.RepliesAre(CLOSED, ClosedLoop.Made(LoadOf(ops), stamps), Acks(stamps));
  }

  /** The closed loop ends in that book too, and its client has a completion for
      every action, in order, with the stamp it was pushed with; and, with a window
      and queues of at least one, it can end. */
  lemma ClosedLoopResult(ops: seq<Op>, window: nat, inCapacity: nat, outCapacity: nat, turns: seq<ClosedLoop.Turn>,
                         now: nat, max: nat) returns (more: seq<ClosedLoop.Turn>)
    requires window < 0x1_0000_0000_0000_0000
    ensures var begin := ClosedLoop.Begin(CLOSED, inCapacity, outCapacity);
            var s, t := ClosedLoop.Play(CLOSED, LoadOf(ops), window, begin, turns),
                        ClosedLoop.Play(CLOSED, LoadOf(ops), window, begin, turns + more);
            && (s.client.Ended? ==>
                  s.core.book == Run(EMPTY, ops) && |s.stamps| == |ops| && s.core.collected == Acks(s.stamps))
            && (window > 0 && inCapacity > 0 && outCapacity > 0 && max > 0 ==>
                t.client.Ended? && t.core.matcher.Exited?)
  {
    var s := ClosedLoop.Play(CLOSED, LoadOf(ops), window, ClosedLoop.Begin(CLOSED, inCapacity, outCapacity), turns);
    ClosedLoop.AllAcknowledged(CLOSED, LoadOf(ops), window, inCapacity, outCapacity, turns);
    if s.client.Ended? {
      ClosedFoldIsRun(ops, s.stamps);
      ClosedRepliesAreAcks(ops, s.stamps);
      assert ops[..|ops|] == ops;
    }
    more := [];
    if window > 0 && inCapacity > 0 && outCapacity > 0 && max > 0 {
      more := ClosedLoopProgress.CanEnd(CLOSED, LoadOf(ops), window, inCapacity, outCapacity, turns, now, max);
    }
  }

  /** The same on the two ring buffers, in every interleaving of single steps. */
  lemma ClosedLoopOnRings(ops: seq<Op>, window: nat, inSlots: seq<Message>, outSlots: seq<Completion>,
                          turns: seq<RingClosedLoop.Turn<Message, Completion>>, now: nat, max: nat)
    returns (more: seq<RingClosedLoop.Turn<Message, Completion>>)
    requires window < 0x1_0000_0000_0000_0000
    requires Sized(Start(inSlots)) && Sized(Start(outSlots))
    ensures var s, t := RingClosedLoop.Play(Bits64, CLOSED, LoadOf(ops), window, inSlots, outSlots, turns),
                        RingClosedLoop.Play(Bits64, CLOSED, LoadOf(ops), window, inSlots, outSlots, turns + more);
            && (s.client.Ended? ==>
                  s.whole.book == Run(EMPTY, ops) && |s.stamps| == |ops| &&
                    Out(s.whole.responses.log) == Acks(s.stamps))
            && (window > 0 && max > 0 ==> t.client.Ended? && t.whole.phase.Left?)
  {
    var s := RingClosedLoop.Play(Bits64, CLOSED, LoadOf(ops), window, inSlots, outSlots, turns);
    RingClosedLoop.AllAcknowledged(CLOSED, LoadOf(ops), window, inSlots, outSlots, turns);
    if s.client.Ended? {
      ClosedFoldIsRun(ops, s.stamps);
      ClosedRepliesAreAcks(ops, s.stamps);
      assert ops[..|ops|] == ops;
    }
    more := [];
    if window > 0 && max > 0 {
      more := RingClosedLoopProgress.CanEnd(CLOSED, LoadOf(ops), window, inSlots, outSlots, turns, now, outSlots[0],
                                            max,
                                            inSlots[0]);
    }
  }
}
