/** The open loop can always end on the ring buffer, too: no thread gets stuck inside
    a queue call. */
module RingOpenLoopProgress {
  import opened SpscMachine
  import opened RingPipeline
  import opened RingProgress
  import opened RingOpenLoop

  /** What is left to do, in steps of the ideal loop first and in single steps within
      queue calls second. */
  function Ahead<B, M, R>(actions: seq<M>, s: Whole<B, M, R>): int {
    64 * (|actions| - |In(s.ingress.log)|) + Steps(s) + if s.stopped then 0 else 1
  }

  function Within<B, M, R>(s: Whole<B, M, R>): nat {
    InCall(s) + InPush(s.ingress.producer)
  }

  predicate Closer<B, M, R>(actions: seq<M>, s: Whole<B, M, R>, s': Whole<B, M, R>) {
    Ahead(actions, s') < Ahead(actions, s)
    || (Ahead(actions, s') == Ahead(actions, s) && Within(s') < Within(s))
  }

  /** The producer works while it has room, and the matching thread otherwise. */
  function Useful<B, M, R>(actions: seq<M>, s: Whole<B, M, R>, max: nat, leftover: M): Turn<M> {
    if !s.stopped && (|In(s.ingress.log)| == |actions| || |Replay(s.ingress.log).items| < s.ingress.capacity)
    then ProducerTurn else MatcherTurn(max, leftover)
  }

  lemma MatcherIsCloser<B(!new), M(!new), R>(p: P.Program<B, M, R>, actions: seq<M>, s: Whole<B, M, R>, max: nat,
                                             leftover: M)
    requires Running(p, actions, s) && !s.phase.Left? && max > 0
    requires s.stopped || Replay(s.ingress.log).items != []
    ensures Closer(actions, s, Matching(Unbounded, p, s, max, leftover))
  {
    EachStepCounts(p, s, max, leftover);
    MatchingKeepsProducer(p, s, max, leftover);
  }

  /** Pushing a message costs less than it brings. */
  lemma PushPays<B, M, R>(p: P.Program<B, M, R>, s: P.Core<B, M, R>, m: M)
    requires |s.ingress.items| < s.inCapacity
    ensures var s' := P.Advance(p, false, s, P.EnvPush(m));
            Progress.Work(s') <= Progress.Work(s) + 30 && |s'.pushed| == |s.pushed| + 1
  {
  }

  /** A push that has room moves on, or is completed. */
  lemma PushIsCloser<B, M, R>(p: P.Program<B, M, R>, actions: seq<M>, s: Whole<B, M, R>, item: M)
    requires Fit(s)
    requires s.ingress.producer.GotTail? ==>
      Minus(Unbounded, s.ingress.producer.tail, s.ingress.head) < s.ingress.capacity
    requires |Replay(s.ingress.log).items| < s.ingress.capacity
    requires var t := ClientPush(PushAction(s.ingress.producer, item));
             Abstract(Take(Unbounded, p, s, t)) == Follow(p, Abstract(s), StepOf(s, t))
    ensures Closer(actions, s, Take(Unbounded, p, s, ClientPush(PushAction(s.ingress.producer, item))))
  {
    PushMovesOn(s.ingress, item);
    var s' := Take(Unbounded, p, s, ClientPush(PushAction(s.ingress.producer, item)));
    assert Abstract(s').pushed == In(s'.ingress.log) && Abstract(s).pushed == In(s.ingress.log);
    if s.ingress.producer.Wrote? {
      PushPays(p, Abstract(s), s.ingress.producer.item);
    } else {
      assert Abstract(s') == Abstract(s);
    }
  }

  lemma ProducerIsCloser<B(!new), M(!new), R>(p: P.Program<B, M, R>, actions: seq<M>, s: Whole<B, M, R>)
    requires Running(p, actions, s) && !s.stopped
    requires |In(s.ingress.log)| == |actions| || |Replay(s.ingress.log).items| < s.ingress.capacity
    ensures Closer(actions, s, Take(Unbounded, p, s, StepFor(actions, s, ProducerTurn)))
  {
    var n := |In(s.ingress.log)|;
    if n < |actions| {
      TakeRefines(p, s, ClientPush(PushAction(s.ingress.producer, actions[n])));
      PushEffect(s.ingress, PushAction(s.ingress.producer, actions[n]));
      PushIsCloser(p, actions, s, actions[n]);
    }
  }

  lemma UsefulIsCloser<B(!new), M(!new), R>(p: P.Program<B, M, R>, actions: seq<M>, s: Whole<B, M, R>, max: nat,
                                            leftover: M)
    requires Running(p, actions, s) && !s.phase.Left? && max > 0
    ensures Closer(actions, s, Take(Unbounded, p, s, StepFor(actions, s, Useful(actions, s, max, leftover))))
  {
    if Useful(actions, s, max, leftover).ProducerTurn? {
      ProducerIsCloser(p, actions, s);
    } else {
      MatcherIsCloser(p, actions, s, max, leftover);
    }
  }

  lemma AheadIsLeft<B(!new), M(!new), R>(p: P.Program<B, M, R>, actions: seq<M>, s: Whole<B, M, R>)
    requires Running(p, actions, s)
    ensures Ahead(actions, s) >= 0
  {
    Progress.WorkIsLeft(p, Abstract(s));
  }

  lemma OneMoreTurn<B, M, R>(w: Width, p: P.Program<B, M, R>, actions: seq<M>, inSlots: seq<M>, spare: seq<R>,
                             turns: seq<Turn<M>>, turn: Turn<M>)
    requires inSlots != [] && spare != []
    ensures var s := Play(w, p, actions, inSlots, spare, turns);
            Play(w, p, actions, inSlots, spare, turns + [turn]) == Take(w, p, s, StepFor(actions, s, turn))
  {
    Split(turns, turn, []);
  }

  lemma CanEndUnbounded<B(!new), M(!new), R>(p: P.Program<B, M, R>, actions: seq<M>, inSlots: seq<M>, spare: seq<R>,
                                             turns: seq<Turn<M>>, max: nat, leftover: M) returns (more: seq<Turn<M>>)
    requires OpenLoop.Silent(p) && inSlots != [] && spare != [] && max > 0
    ensures Play(Unbounded, p, actions, inSlots, spare, turns + more).phase.Left?
    decreases Ahead(actions, Play(Unbounded, p, actions, inSlots, spare, turns)),
              Within(Play(Unbounded, p, actions, inSlots, spare, turns))
  {
    var s := Play(Unbounded, p, actions, inSlots, spare, turns);
    if s.phase.Left? {
      more := [];
      assert turns + [] == turns;
    } else {
      var turn := Useful(actions, s, max, leftover);
      PlayKeepsRunning(p, actions, inSlots, spare, turns);
      AheadIsLeft(p, actions, s);
      UsefulIsCloser(p, actions, s, max, leftover);
      OneMoreTurn(Unbounded, p, actions, inSlots, spare, turns, turn);
      var rest := CanEndUnbounded(p, actions, inSlots, spare, turns + [turn], max, leftover);
      Split(turns, turn, rest);
      more := [turn] + rest;
    }
  }

  /** On the ring buffer with 64-bit counters, from every state the threads' single
      steps lead to, some continuation lets the matching thread leave. */
  lemma CanEnd<B(!new), M(!new), R>(p: P.Program<B, M, R>, actions: seq<M>, inSlots: seq<M>, spare: seq<R>,
                                    turns: seq<Turn<M>>, max: nat, leftover: M) returns (more: seq<Turn<M>>)
    requires OpenLoop.Silent(p) && Wrapping.Sized(Start(inSlots)) && Wrapping.Sized(Start(spare)) && max > 0
    ensures Play(Bits64, p, actions, inSlots, spare, turns + more).phase.Left?
  {
    more := CanEndUnbounded(p, actions, inSlots, spare, turns, max, leftover);
    PlayWraps(p, actions, inSlots, spare, turns + more);
  }
}
