/** The open loop on its ring buffer: the producer's pushes, too, are taken apart
    into single loads, slot writes and stores. */
module RingOpenLoop {
  import opened SpscMachine
  import opened RingPipeline
  import OpenLoop

  datatype Turn<M> = ProducerTurn | MatcherTurn(max: nat, leftover: M)

  /** What a thread does next. A refused push starts over with the same action. */
  function StepFor<B, M, R>(actions: seq<M>, s: Whole<B, M, R>, turn: Turn<M>): Step<M, R> {
    match turn
    case ProducerTurn =>
      var n := |In(s.ingress.log)|;
      if n < |actions| then ClientPush(PushAction(s.ingress.producer, actions[n])) else ClientStop
    case MatcherTurn(max, leftover) => MatcherStep(max, leftover)
  }

  /** `spare` is the response ring of the machine, which the open loop does not use. */
  function Play<B, M, R>(w: Width, p: P.Program<B, M, R>, actions: seq<M>, inSlots: seq<M>, spare: seq<R>,
                         turns: seq<Turn<M>>): (s: Whole<B, M, R>)
    requires inSlots != [] && spare != []
    ensures Fit(s)
  {
    if turns == [] then Begin(p, inSlots, spare)
    else
      var before := Play(w, p, actions, inSlots, spare, turns[..|turns| - 1]);
      Take(w, p, before, StepFor(actions, before, turns[|turns| - 1]))
  }

  /** A push that is under way is that of the next action. */
  ghost predicate OnTheNext<B, M, R>(actions: seq<M>, s: Whole<B, M, R>) {
    !s.ingress.producer.Away? ==>
      |In(s.ingress.log)| < |actions| && s.ingress.producer.item == actions[|In(s.ingress.log)|]
  }

  lemma ProducerStaysOn<B, M, R>(p: P.Program<B, M, R>, actions: seq<M>, s: Whole<B, M, R>)
    requires Fit(s) && OnTheNext(actions, s) && |In(s.ingress.log)| < |actions|
    requires var a := PushAction(s.ingress.producer, actions[|In(s.ingress.log)|]);
             PushFacts(s.ingress, a, Next(Unbounded, s.ingress, a))
    ensures OnTheNext(actions, Take(Unbounded, p, s, StepFor(actions, s, ProducerTurn)))
  {
  }

  lemma MatcherLetsOn<B, M, R>(p: P.Program<B, M, R>, actions: seq<M>, s: Whole<B, M, R>, max: nat, leftover: M)
    requires Fit(s) && OnTheNext(actions, s)
    requires s.phase.Popping? ==>
      var a := PopAction(s.ingress.consumer, max, leftover); PopFacts(s.ingress, a, Next(Unbounded, s.ingress, a))
    ensures OnTheNext(actions, Matching(Unbounded, p, s, max, leftover))
  {
  }

  /** The turn of the open loop on ideal queues that a single step amounts to. */
  function TurnOf<B, M, R>(actions: seq<M>, s: Whole<B, M, R>, turn: Turn<M>): seq<OpenLoop.Turn> {
    match turn
    case ProducerTurn =>
      if |In(s.ingress.log)| < |actions| && !s.ingress.producer.Wrote? then [] else [OpenLoop.ProducerTurn]
    case MatcherTurn(max, leftover) =>
      match StepOf(s, MatcherStep(max, leftover))
      case Some(a) => if a.Match? then [OpenLoop.MatcherTurn(a.max)] else []
      case None => []
  }

  lemma PushTurn<B, M, R>(p: P.Program<B, M, R>, actions: seq<M>, s: Whole<B, M, R>)
    requires Linked(s) && OnTheNext(actions, s) && |In(s.ingress.log)| < |actions|
    ensures OnTheNext(actions, Take(Unbounded, p, s, StepFor(actions, s, ProducerTurn)))
  {
    PushEffect(s.ingress, PushAction(s.ingress.producer, actions[|In(s.ingress.log)|]));
    ProducerStaysOn(p, actions, s);
  }

  lemma MatchTurn<B, M, R>(p: P.Program<B, M, R>, actions: seq<M>, s: Whole<B, M, R>, max: nat, leftover: M)
    requires Linked(s) && OnTheNext(actions, s)
    ensures OnTheNext(actions, Take(Unbounded, p, s, MatcherStep(max, leftover)))
  {
    if s.phase.Popping? { PopEffect(s.ingress, PopAction(s.ingress.consumer, max, leftover)); }
    MatcherLetsOn(p, actions, s, max, leftover);
  }

  /** In order of steps, nothing changes with the flag set before the push. */
  lemma TurnAdvances<B, M, R>(p: P.Program<B, M, R>, actions: seq<M>, s: Whole<B, M, R>, turn: Turn<M>)
    requires OnTheNext(actions, s) && (s.stopped ==> In(s.ingress.log) == actions)
    ensures var core, turns := Abstract(s), TurnOf(actions, s, turn);
            Follow(p, core, StepOf(s, StepFor(actions, s, turn)))
              == if turns == [] then core else OpenLoop.Act(p, actions, core, turns[0])
  {
  }

  ghost predicate Running<B(!new), M(!new), R>(p: P.Program<B, M, R>, actions: seq<M>, s: Whole<B, M, R>) {
    && Linked(s) && OnTheNext(actions, s)
    && P.Inv(p, true, Abstract(s)) && OpenLoop.Produced(actions, s.ingress.capacity, Abstract(s))
  }

  lemma TurnKeepsRunning<B(!new), M(!new), R>(p: P.Program<B, M, R>, actions: seq<M>, s: Whole<B, M, R>, turn: Turn<M>)
    requires OpenLoop.Silent(p) && Running(p, actions, s)
    ensures Running(p, actions, Take(Unbounded, p, s, StepFor(actions, s, turn)))
  {
    TakeRefines(p, s, StepFor(actions, s, turn));
    TakeKeepsSize(Unbounded, p, s, StepFor(actions, s, turn));
    TurnAdvances(p, actions, s, turn);
    match turn {
      case ProducerTurn => if |In(s.ingress.log)| < |actions| { PushTurn(p, actions, s); }
      case MatcherTurn(max, leftover) => MatchTurn(p, actions, s, max, leftover);
    }
    var turns := TurnOf(actions, s, turn);
    if turns != [] { OpenLoop.ActKeepsInv(p, actions, s.ingress.capacity, Abstract(s), turns[0]); }
  }

  lemma {:induction false} PlayKeepsRunning<B(!new), M(!new), R>(p: P.Program<B, M, R>, actions: seq<M>,
                                                                 inSlots: seq<M>, spare: seq<R>,
                                                                 turns: seq<Turn<M>>)
    requires OpenLoop.Silent(p) && inSlots != [] && spare != []
    ensures Running(p, actions, Play(Unbounded, p, actions, inSlots, spare, turns))
  {
    if turns == [] {
      WalkRefines(p, inSlots, spare, []);
    } else {
      PlayKeepsRunning(p, actions, inSlots, spare, turns[..|turns| - 1]);
      TurnKeepsRunning(p, actions, Play(Unbounded, p, actions, inSlots, spare, turns[..|turns| - 1]),
                       turns[|turns| - 1]);
    }
  }

  lemma SameStep<B, M, R>(actions: seq<M>, s: Whole<B, M, R>, turn: Turn<M>)
    ensures StepFor(actions, WrapWhole(s), turn) == StepFor(actions, s, turn)
  {
  }

  lemma {:induction false} PlayWraps<B(!new), M(!new), R>(p: P.Program<B, M, R>, actions: seq<M>, inSlots: seq<M>,
                                                          spare: seq<R>,
                                                          turns: seq<Turn<M>>)
    requires OpenLoop.Silent(p) && Wrapping.Sized(Start(inSlots)) && Wrapping.Sized(Start(spare))
    ensures var s := Play(Unbounded, p, actions, inSlots, spare, turns);
            && Play(Bits64, p, actions, inSlots, spare, turns) == WrapWhole(s)
            && s.ingress.capacity == |inSlots| && s.responses.capacity == |spare|
  {
    if turns != [] {
      var before := Play(Unbounded, p, actions, inSlots, spare, turns[..|turns| - 1]);
      var turn := turns[|turns| - 1];
      PlayWraps(p, actions, inSlots, spare, turns[..|turns| - 1]);
      PlayKeepsRunning(p, actions, inSlots, spare, turns[..|turns| - 1]);
      SameStep(actions, before, turn);
      TakeWraps(p, before, StepFor(actions, before, turn));
      TakeKeepsSize(Unbounded, p, before, StepFor(actions, before, turn));
    }
  }

  lemma Finished<B(!new), M(!new), R>(p: P.Program<B, M, R>, actions: seq<M>, s: Whole<B, M, R>)
    requires Running(p, actions, s) && s.phase.Left?
    ensures s.executed == actions && s.book == P.FoldBook(p, actions)
  {
  }

  /** On the ring buffer, 64-bit counters and all: when the matching thread has left
      its loop, every action was executed exactly once, in order. */
  lemma AllExecuted<B(!new), M(!new), R>(p: P.Program<B, M, R>, actions: seq<M>, inSlots: seq<M>, spare: seq<R>,
                                         turns: seq<Turn<M>>)
    requires OpenLoop.Silent(p) && Wrapping.Sized(Start(inSlots)) && Wrapping.Sized(Start(spare))
    ensures var s := Play(Bits64, p, actions, inSlots, spare, turns);
            s.phase.Left? ==> s.executed == actions && s.book == P.FoldBook(p, actions)
  {
    PlayWraps(p, actions, inSlots, spare, turns);
    PlayKeepsRunning(p, actions, inSlots, spare, turns);
    if Play(Unbounded, p, actions, inSlots, spare, turns).phase.Left? {
      Finished(p, actions, Play(Unbounded, p, actions, inSlots, spare, turns));
    }
  }
}
