/** The closed loop can always end on its two ring buffers, too: no thread gets stuck
    inside a queue call. */
module RingClosedLoopProgress {
  import opened SpscMachine
  import opened RingPipeline
  import opened RingProgress
  import opened Loop = RingClosedLoop
  import Ideal = ClosedLoopProgress

  /** The single steps left of the draining that is under way or comes next. */
  function InDrain<T>(s: State<T>): nat {
    match s.consumer
    case Resting => 1
    case Entered(_, _) => 0
    case Looked(_, h, t) => if h == t then 0 else s.capacity + 1
    case Taking(_, _, count, got) => if |got| < count then count - |got| else 0
  }

  /** What is left to do, in steps of the ideal loop first and in single steps within
      queue calls second. */
  ghost function LoopAhead<B, M, R>(count: nat, s: RingLoop<B, M, R>): int {
    Ideal.WorkLeft(count, Abstraction(s)) + if AsksForNothing(s.whole.ingress.consumer) then 4 else 0
  }

  function LoopWithin<B, M, R>(s: RingLoop<B, M, R>): nat {
    InCall(s.whole) + InPush(s.whole.ingress.producer) + InDrain(s.whole.responses)
  }

  ghost predicate LoopCloser<B, M, R>(count: nat, s: RingLoop<B, M, R>, s': RingLoop<B, M, R>) {
    LoopAhead(count, s') < LoopAhead(count, s)
    || (LoopAhead(count, s') == LoopAhead(count, s) && LoopWithin(s') < LoopWithin(s))
  }

  // ------------------------------------------------------ the matching thread

  lemma MatcherIsCloserHere<B, M, R>(p: P.Program<B, M, R>, count: nat, s: RingLoop<B, M, R>, max: nat, leftover: M)
    requires Linked(s.whole) && P.Inv(p, false, Abstract(s.whole)) && Progress.Employed(Abstract(s.whole)) && max > 0
    ensures LoopCloser(count, s, s.(whole := Matching(Unbounded, p, s.whole, max, leftover)))
  {
    EachStepCounts(p, s.whole, max, leftover);
    MatchingKeepsProducer(p, s.whole, max, leftover);
    MatchingKeepsClient(p, s.whole, max, leftover);
    NearerIsCloser(count, s, Matching(Unbounded, p, s.whole, max, leftover));
  }

  lemma AheadIs<B, M, R>(count: nat, s: RingLoop<B, M, R>)
    ensures LoopAhead(count, s)
         == 100 * (count - |In(s.whole.ingress.log)|) + 20 * (|In(s.whole.ingress.log)| - |Out(s.whole.responses.log)|)
            + Steps(s.whole) + Ideal.ClientRank(Abstraction(s))
  {
  }

  lemma SameRank<B, M, R>(s: RingLoop<B, M, R>, s': RingLoop<B, M, R>)
    requires s'.client == s.client && Seen(s'.whole.responses) == Seen(s.whole.responses)
    ensures Ideal.ClientRank(Abstraction(s')) == Ideal.ClientRank(Abstraction(s))
  {
  }

  lemma NearerIsCloser<B, M, R>(count: nat, s: RingLoop<B, M, R>, whole: Whole<B, M, R>)
    requires Nearer(s.whole, whole)
    requires whole.ingress.producer == s.whole.ingress.producer && In(whole.ingress.log) == In(s.whole.ingress.log)
    requires whole.responses.consumer == s.whole.responses.consumer
    requires Out(whole.responses.log) == Out(s.whole.responses.log)
    requires Seen(whole.responses) == Seen(s.whole.responses)
    requires whole.responses.capacity == s.whole.responses.capacity
    ensures LoopCloser(count, s, s.(whole := whole))
  {
    AheadIs(count, s);
    AheadIs(count, s.(whole := whole));
    SameRank(s, s.(whole := whole));
  }

  // -------------------------------------------------------------- the client

  lemma DrainMovesOn<T>(s: State<T>, drained: T)
    requires Shaped(s)
    requires s.consumer.Looked? ==> s.consumer.head <= s.consumer.tail <= s.consumer.head + s.capacity
    requires s.consumer.Looked? ==> s.consumer.head != s.consumer.tail
    requires s.consumer.Taking? ==> |s.consumer.got| < s.consumer.count
    requires !s.consumer.Entered?
    ensures InDrain(Next(Unbounded, s, PopAction(s.consumer, 64, drained))) < InDrain(s)
  {
  }

  lemma PushingMovesOn<B, M, R>(p: P.Program<B, M, R>, load: L.Load<M>, s: RingLoop<B, M, R>, stamp: nat)
    requires Ready(s) && !s.whole.ingress.producer.Wrote? && !Refused(s.whole.ingress)
    ensures var s' := PushStep(Unbounded, p, load, s, stamp);
            && InCall(s'.whole) == InCall(s.whole) && LoopWithin(s') < LoopWithin(s)
            && s'.whole.ingress.consumer == s.whole.ingress.consumer
  {
    PushMovesOn(s.whole.ingress, load.make(s.next, stamp));
  }

  lemma LookingMovesOn<B, M, R>(p: P.Program<B, M, R>, s: RingLoop<B, M, R>, back: L.Return, drained: R)
    requires Ready(s) && s.whole.responses.consumer.Resting?
    ensures var s' := LookStep(Unbounded, p, s, back, drained);
            && InCall(s'.whole) == InCall(s.whole) && LoopWithin(s') < LoopWithin(s)
            && s'.whole.ingress.consumer == s.whole.ingress.consumer
  {
  }

  lemma CollectingMovesOn<B, M, R>(p: P.Program<B, M, R>, s: RingLoop<B, M, R>, back: L.Return, drained: R)
    requires Ready(s)
    requires var c := s.whole.responses.consumer;
             (c.Looked? && c.head < c.tail <= c.head + s.whole.responses.capacity) || (c.Taking? && |c.got| < c.count)
    ensures var s' := CollectStep(Unbounded, p, s, back, drained);
            && InCall(s'.whole) == InCall(s.whole) && LoopWithin(s') < LoopWithin(s)
            && s'.whole.ingress.consumer == s.whole.ingress.consumer
  {
    DrainMovesOn(s.whole.responses, drained);
  }

  /** A client turn that is not yet a turn of the ideal loop moves on within its call. */
  lemma ClientMovesOn<B, M, R>(p: P.Program<B, M, R>, load: L.Load<M>, window: nat, s: RingLoop<B, M, R>, now: nat,
                               drained: R)
    requires Ready(s) && Loop.Docked(load, s) && TurnOf(s, ClientTurn(now, drained)) == []
    requires var c := s.whole.responses.consumer;
             c.Looked? ==> c.head <= c.tail <= c.head + s.whole.responses.capacity
    ensures var s' := LoopStep(Unbounded, p, load, window, s, ClientTurn(now, drained));
            LoopWithin(s') < LoopWithin(s) && s'.whole.ingress.consumer == s.whole.ingress.consumer
  {
    match s.client
    case AtPush(stamp) => PushingMovesOn(p, load, s, stamp);
    case AtLook(back) => LookingMovesOn(p, s, back, drained);
    case AtCollect(back) => CollectingMovesOn(p, s, back, drained);
  }

  lemma ClientKeepsMatcher<B, M, R>(p: P.Program<B, M, R>, load: L.Load<M>, window: nat, s: RingLoop<B, M, R>,
                                    now: nat, drained: R)
    requires Ready(s)
    ensures LoopStep(Unbounded, p, load, window, s, ClientTurn(now, drained)).whole.ingress.consumer
         == s.whole.ingress.consumer
  {
  }

  lemma StutterIsCloser<B, M, R>(count: nat, s: RingLoop<B, M, R>, s': RingLoop<B, M, R>)
    requires Abstraction(s') == Abstraction(s) && LoopWithin(s') < LoopWithin(s)
    requires s'.whole.ingress.consumer == s.whole.ingress.consumer
    ensures LoopCloser(count, s, s')
  {
  }

  lemma ActingIsCloser<B, M, R>(count: nat, s: RingLoop<B, M, R>, s': RingLoop<B, M, R>)
    requires Ideal.WorkLeft(count, Abstraction(s')) < Ideal.WorkLeft(count, Abstraction(s))
    requires s'.whole.ingress.consumer == s.whole.ingress.consumer
    ensures LoopCloser(count, s, s')
  {
  }

  lemma ClientIsCloser<B(!new), M(!new), R>(p: P.Program<B, M, R>, load: L.Load<M>, window: nat, s: RingLoop<B, M, R>,
                                            now: nat, drained: R)
    requires Running(p, load, window, s) && L.Answers(p) && 0 < window < 0x1_0000_0000_0000_0000
    requires !Progress.Employed(Abstract(s.whole)) && !s.client.Ended?
    ensures LoopCloser(load.count, s, LoopStep(Unbounded, p, load, window, s, ClientTurn(now, drained)))
  {
    var t := ClientTurn(now, drained);
    var s' := LoopStep(Unbounded, p, load, window, s, t);
    StepKeepsRunning(p, load, window, s, t);
    if TurnOf(s, t) == [] {
      LookedWithin(s);
      ClientMovesOn(p, load, window, s, now, drained);
      StutterIsCloser(load.count, s, s');
    } else {
      ClientKeepsMatcher(p, load, window, s, now, drained);
      Ideal.UsefulProgresses(p, load, window, Abstraction(s), now, 1);
      ActingIsCloser(load.count, s, s');
    }
  }

  lemma LookedWithin<B, M, R>(s: RingLoop<B, M, R>)
    requires Linked(s.whole)
    ensures var c := s.whole.responses.consumer;
            c.Looked? ==> c.head <= c.tail <= c.head + s.whole.responses.capacity
  {
  }

  // ---------------------------------------------------------------- both

  /** The matching thread works while it has something to do; otherwise the client. */
  function UsefulTurn<B, M, R>(s: RingLoop<B, M, R>, now: nat, drained: R, max: nat, leftover: M): Turn<M, R> {
    if Progress.Employed(Abstract(s.whole)) then MatcherTurn(max, leftover) else ClientTurn(now, drained)
  }

  lemma RunningMeans<B(!new), M(!new), R>(p: P.Program<B, M, R>, load: L.Load<M>, window: nat, s: RingLoop<B, M, R>)
    requires Running(p, load, window, s)
    ensures Linked(s.whole) && P.Inv(p, false, Abstract(s.whole))
  {
  }

  lemma MatcherTurnIs<B, M, R>(p: P.Program<B, M, R>, load: L.Load<M>, window: nat, s: RingLoop<B, M, R>, max: nat,
                               leftover: M)
    requires Ready(s)
    ensures LoopStep(Unbounded, p, load, window, s, MatcherTurn(max, leftover))
         == s.(whole := Matching(Unbounded, p, s.whole, max, leftover))
  {
  }

  lemma MatcherTurnIsCloser<B(!new), M(!new), R>(p: P.Program<B, M, R>, load: L.Load<M>, window: nat,
      s: RingLoop<B, M, R>, max: nat, leftover: M)
    requires Running(p, load, window, s) && Progress.Employed(Abstract(s.whole)) && max > 0
    ensures LoopCloser(load.count, s, LoopStep(Unbounded, p, load, window, s, MatcherTurn(max, leftover)))
  {
    RunningMeans(p, load, window, s);
    MatcherTurnIs(p, load, window, s, max, leftover);
    MatcherIsCloserHere(p, load.count, s, max, leftover);
  }

  lemma UsefulTurnIsCloser<B(!new), M(!new), R>(p: P.Program<B, M, R>, load: L.Load<M>, window: nat,
      s: RingLoop<B, M, R>, now: nat, drained: R, max: nat, leftover: M)
    requires Running(p, load, window, s) && L.Answers(p) && 0 < window < 0x1_0000_0000_0000_0000 && max > 0
    requires !(s.client.Ended? && s.whole.phase.Left?)
    ensures var t := UsefulTurn(s, now, drained, max, leftover);
            LoopCloser(load.count, s, LoopStep(Unbounded, p, load, window, s, t))
  {
    if Progress.Employed(Abstract(s.whole)) {
      MatcherTurnIsCloser(p, load, window, s, max, leftover);
    } else {
      if s.client.Ended? {
        Ideal.EndedIsEmployed(p, load, window, Abstraction(s));
      }
      ClientIsCloser(p, load, window, s, now, drained);
    }
  }

  lemma OneTurnMore<B, M, R>(w: Width, p: P.Program<B, M, R>, load: L.Load<M>, window: nat, inSlots: seq<M>,
                             outSlots: seq<R>, turns: seq<Turn<M, R>>, turn: Turn<M, R>)
    requires inSlots != [] && outSlots != []
    ensures Play(w, p, load, window, inSlots, outSlots, turns + [turn])
         == LoopStep(w, p, load, window, Play(w, p, load, window, inSlots, outSlots, turns), turn)
  {
    Split(turns, turn, []);
  }

  lemma CanEndUnbounded<B(!new), M(!new), R>(p: P.Program<B, M, R>, load: L.Load<M>, window: nat, inSlots: seq<M>,
      outSlots: seq<R>, turns: seq<Turn<M, R>>, now: nat, drained: R, max: nat, leftover: M)
    returns (more: seq<Turn<M, R>>)
    requires L.Answers(p) && 0 < window < 0x1_0000_0000_0000_0000 && inSlots != [] && outSlots != [] && max > 0
    ensures var s := Play(Unbounded, p, load, window, inSlots, outSlots, turns + more);
            s.client.Ended? && s.whole.phase.Left?
    decreases LoopAhead(load.count, Play(Unbounded, p, load, window, inSlots, outSlots, turns)),
              LoopWithin(Play(Unbounded, p, load, window, inSlots, outSlots, turns))
  {
    var s := Play(Unbounded, p, load, window, inSlots, outSlots, turns);
    if s.client.Ended? && s.whole.phase.Left? {
      more := [];
      assert turns + [] == turns;
    } else {
      var turn := UsefulTurn(s, now, drained, max, leftover);
      PlayKeepsRunning(p, load, window, inSlots, outSlots, turns);
      Ideal.WorkIsLeft(p, load, window, Abstraction(s));
      UsefulTurnIsCloser(p, load, window, s, now, drained, max, leftover);
      OneTurnMore(Unbounded, p, load, window, inSlots, outSlots, turns, turn);
      var rest := CanEndUnbounded(p, load, window, inSlots, outSlots, turns + [turn], now, drained, max, leftover);
      Split(turns, turn, rest);
      more := [turn] + rest;
    }
  }

  /** On the two ring buffers with 64-bit counters and with a window of at least one,
      from every state the threads' single steps lead to, some continuation ends the
      client and lets the matching thread leave. */
  lemma CanEnd<B(!new), M(!new), R>(p: P.Program<B, M, R>, load: L.Load<M>, window: nat, inSlots: seq<M>,
                                    outSlots: seq<R>, turns: seq<Turn<M, R>>, now: nat, drained: R, max: nat,
                                    leftover: M) returns (more: seq<Turn<M, R>>)
    requires L.Answers(p) && 0 < window < 0x1_0000_0000_0000_0000 && max > 0
    requires Wrapping.Sized(Start(inSlots)) && Wrapping.Sized(Start(outSlots))
    ensures var s := Play(Bits64, p, load, window, inSlots, outSlots, turns + more);
            s.client.Ended? && s.whole.phase.Left?
  {
    more := CanEndUnbounded(p, load, window, inSlots, outSlots, turns, now, drained, max, leftover);
    PlayWraps(p, load, window, inSlots, outSlots, turns + more);
  }

  /** A client that waits for credit has all of its window unacknowledged. */
  lemma CreditIsUsed<B(!new), M(!new), R>(p: P.Program<B, M, R>, load: L.Load<M>, window: nat, inSlots: seq<M>,
                                          outSlots: seq<R>, turns: seq<Turn<M, R>>)
    requires L.Answers(p) && window < 0x1_0000_0000_0000_0000
    requires Wrapping.Sized(Start(inSlots)) && Wrapping.Sized(Start(outSlots))
    ensures var s := Play(Bits64, p, load, window, inSlots, outSlots, turns);
            s.client == L.AtLook(L.ToCredit) ==> |In(s.whole.ingress.log)| - |Out(s.whole.responses.log)| == window
  {
    PlayWraps(p, load, window, inSlots, outSlots, turns);
    PlayKeepsRunning(p, load, window, inSlots, outSlots, turns);
  }
}
