/** The closed loop on its two ring buffers: the client's pushes and its draining of
    completions are taken apart into single loads, slot reads, slot writes and
    stores, like those of the matching thread. */
module RingClosedLoop {
  import opened Types
  import opened SpscMachine
  import opened RingPipeline
  import L = ClosedLoop

  datatype RingLoop<B, M, R> = RingLoop(whole: Whole<B, M, R>, client: L.Client, next: nat, inFlight: nat,
                                        stamps: seq<nat>)

  datatype Turn<M, R> = ClientTurn(now: nat, drained: R) | MatcherTurn(max: nat, leftover: M)

  predicate Ready<B, M, R>(s: RingLoop<B, M, R>) {
    Fit(s.whole)
  }

  /** The client at its push: the next single step of it. */
  function PushStep<B, M, R>(w: Width, p: P.Program<B, M, R>, load: L.Load<M>, s: RingLoop<B, M, R>,
                             stamp: nat): RingLoop<B, M, R>
    requires Ready(s)
  {
    var q := s.whole.ingress.producer;
    var whole := Take(w, p, s.whole, ClientPush(PushAction(q, load.make(s.next, stamp))));
    if q.Wrote? then s.(whole := whole, stamps := s.stamps + [stamp], client := L.AtCount)
    else if q.GotTail? && whole.ingress.producer.Away? then s.(whole := whole, client := L.AtLook(L.ToPush))
    else s.(whole := whole)
  }

  /** The client before it has seen how many completions there are. */
  function LookStep<B, M, R>(w: Width, p: P.Program<B, M, R>, s: RingLoop<B, M, R>, back: L.Return,
                             drained: R): RingLoop<B, M, R>
    requires Ready(s)
  {
    var c := s.whole.responses.consumer;
    s.(whole := Take(w, p, s.whole, ClientPop(PopAction(c, 64, drained))),
       client := if c.Entered? then L.AtCollect(back) else s.client)
  }

  /** And after. */
  function CollectStep<B, M, R>(w: Width, p: P.Program<B, M, R>, s: RingLoop<B, M, R>, back: L.Return,
                                drained: R): RingLoop<B, M, R>
    requires Ready(s)
  {
    var c := s.whole.responses.consumer;
    var whole := Take(w, p, s.whole, ClientPop(PopAction(c, 64, drained)));
    if c.Looked? && whole.responses.consumer.Resting? then s.(whole := whole, client := L.Back(back))
    else if c.Taking? && |c.got| >= c.count then
      s.(whole := whole, client := if |c.got| == 0 then L.Back(back) else L.AtSettle(|c.got|, back))
    else s.(whole := whole)
  }

  function ClientStep<B, M, R>(w: Width, p: P.Program<B, M, R>, load: L.Load<M>, window: nat, s: RingLoop<B, M, R>,
                               now: nat, drained: R): (s': RingLoop<B, M, R>)
    requires Ready(s)
    ensures Ready(s')
  {
    match s.client
    case AtPush(stamp) => PushStep(w, p, load, s, stamp)
    case AtLook(back) => LookStep(w, p, s, back, drained)
    case AtCollect(back) => CollectStep(w, p, s, back, drained)
    case AtStop => s.(whole := Take(w, p, s.whole, ClientStop), client := L.Ended)
    case _ =>
      var (client, next, inFlight) := L.Local(load.count, window, s.client, s.next, s.inFlight, now);
      s.(client := client, next := next, inFlight := inFlight)
  }

  function LoopStep<B, M, R>(w: Width, p: P.Program<B, M, R>, load: L.Load<M>, window: nat, s: RingLoop<B, M, R>,
                             t: Turn<M, R>): (s': RingLoop<B, M, R>)
    requires Ready(s)
    ensures Ready(s')
  {
    match t
    case ClientTurn(now, drained) => ClientStep(w, p, load, window, s, now, drained)
    case MatcherTurn(max, leftover) => s.(whole := Take(w, p, s.whole, MatcherStep(max, leftover)))
  }

  function Fresh<B, M, R>(p: P.Program<B, M, R>, inSlots: seq<M>, outSlots: seq<R>): RingLoop<B, M, R> {
    RingLoop(Begin(p, inSlots, outSlots), L.AtCredit, 0, 0, [])
  }

  function Play<B, M, R>(w: Width, p: P.Program<B, M, R>, load: L.Load<M>, window: nat, inSlots: seq<M>,
                         outSlots: seq<R>,
                         turns: seq<Turn<M, R>>): (s: RingLoop<B, M, R>)
    requires inSlots != [] && outSlots != []
    ensures Ready(s)
  {
    if turns == [] then Fresh(p, inSlots, outSlots)
    else LoopStep(w, p, load, window, Play(w, p, load, window, inSlots, outSlots, turns[..|turns| - 1]),
                  turns[|turns| - 1])
  }

  // ------------------------------------------------------------- refinement

  /** No push ever met a full queue. */
  ghost predicate NeverFull<T>(log: seq<Event<T>>) {
    forall k :: 0 <= k < |log| ==> !log[k].WasFull?
  }

  ghost function Abstraction<B, M, R>(s: RingLoop<B, M, R>): L.Loop<B, M, R> {
    L.Loop(Abstract(s.whole), s.client, s.next, s.inFlight, s.stamps,
           !(NeverFull(s.whole.ingress.log) && NeverFull(s.whole.responses.log)))
  }

  /** The producer is about to find the queue full. */
  predicate Refused<T>(s: State<T>) {
    s.producer.GotTail? && Minus(Unbounded, s.producer.tail, s.head) >= s.capacity
  }

  /** The turn on ideal queues that a single step amounts to, if any. */
  function TurnOf<B, M, R>(s: RingLoop<B, M, R>, t: Turn<M, R>): seq<L.Turn> {
    match t
    case ClientTurn(now, _) =>
      var c := s.whole.responses.consumer;
      var stays :=
        match s.client
        case AtPush(_) => !s.whole.ingress.producer.Wrote? && !Refused(s.whole.ingress)
        case AtLook(_) => !c.Entered?
        case AtCollect(_) => (c.Looked? && c.head != c.tail) || (c.Taking? && |c.got| < c.count)
        case _ => false;
      if stays then [] else [L.ClientTurn(now)]
    case MatcherTurn(max, leftover) =>
      match StepOf(s.whole, MatcherStep(max, leftover))
      case Some(a) => if a.Match? then [L.MatcherTurn(a.max)] else []
      case None => if s.whole.phase.Sending? && Refused(s.whole.responses) then [L.MatcherTurn(max)] else []
  }

  /** The client is inside a queue call exactly when its program counter says so. */
  ghost predicate Docked<B, M, R>(load: L.Load<M>, s: RingLoop<B, M, R>) {
    && (!s.whole.ingress.producer.Away? ==>
          s.client.AtPush? && s.whole.ingress.producer.item == load.make(s.next, s.client.stamp))
    && (match s.whole.responses.consumer
        case Resting => !s.client.AtCollect?
        case Entered(max, _) => s.client.AtLook? && max == 64
        case Looked(max, _, _) => s.client.AtCollect? && max == 64
        case Taking(max, _, _, _) => s.client.AtCollect? && max == 64)
  }

  lemma FullEffect<T>(s: State<T>, a: Action<T>)
    requires Shaped(s)
    ensures NeverFull(Next(Unbounded, s, a).log) <==> NeverFull(s.log) && !(a.PushLoadHead? && Refused(s))
  {
    var log := Next(Unbounded, s, a).log;
    if |log| == |s.log| + 1 {
      assert log[..|s.log|] == s.log;
      assert NeverFull(log) <==> NeverFull(s.log) && !log[|s.log|].WasFull?;
    }
  }

  lemma RefusedMeansFull<T>(s: State<T>)
    requires Safety.Inv(s) && s.producer.GotTail?
    ensures Refused(s) <==> |Replay(s.log).items| >= s.capacity
  {
  }
  ghost predicate Simulates<B, M, R>(p: P.Program<B, M, R>, load: L.Load<M>, window: nat, s: RingLoop<B, M, R>,
                                     t: Turn<M, R>)
    requires Ready(s)
  {
    Abstraction(LoopStep(Unbounded, p, load, window, s, t))
      == if TurnOf(s, t) == [] then Abstraction(s) else L.LoopStep(p, load, window, Abstraction(s), TurnOf(s, t)[0])
  }

  function PushOf<B, M, R>(load: L.Load<M>, s: RingLoop<B, M, R>): Action<M>
    requires s.client.AtPush?
  {
    PushAction(s.whole.ingress.producer, load.make(s.next, s.client.stamp))
  }

  function DrainOf<B, M, R>(s: RingLoop<B, M, R>, drained: R): Action<R> {
    PopAction(s.whole.responses.consumer, 64, drained)
  }

  lemma PushStarts<B, M, R>(p: P.Program<B, M, R>, load: L.Load<M>, window: nat, s: RingLoop<B, M, R>, now: nat,
                            drained: R)
    requires Ready(s) && s.client.AtPush? && Docked(load, s) && !s.whole.stopped
    requires s.whole.ingress.producer.Away? || s.whole.ingress.producer.GotHead?
    requires PushFacts(s.whole.ingress, PushOf(load, s), Next(Unbounded, s.whole.ingress, PushOf(load, s)))
    ensures Simulates(p, load, window, s, ClientTurn(now, drained))
  {
    FullEffect(s.whole.ingress, PushOf(load, s));
    ClientPushRefines(p, s.whole, PushOf(load, s));
  }

  lemma PushChecks<B, M, R>(p: P.Program<B, M, R>, load: L.Load<M>, window: nat, s: RingLoop<B, M, R>, now: nat,
                            drained: R)
    requires Ready(s) && s.client.AtPush? && Docked(load, s) && !s.whole.stopped && s.whole.ingress.producer.GotTail?
    requires PushFacts(s.whole.ingress, PushOf(load, s), Next(Unbounded, s.whole.ingress, PushOf(load, s)))
    requires Refused(s.whole.ingress) <==> |Replay(s.whole.ingress.log).items| >= s.whole.ingress.capacity
    ensures Simulates(p, load, window, s, ClientTurn(now, drained))
  {
    FullEffect(s.whole.ingress, PushOf(load, s));
    ClientPushRefines(p, s.whole, PushOf(load, s));
  }

  lemma PushCompletes<B, M, R>(p: P.Program<B, M, R>, load: L.Load<M>, window: nat, s: RingLoop<B, M, R>, now: nat,
                               drained: R)
    requires Ready(s) && s.client.AtPush? && Docked(load, s) && !s.whole.stopped && s.whole.ingress.producer.Wrote?
    requires PushFacts(s.whole.ingress, PushOf(load, s), Next(Unbounded, s.whole.ingress, PushOf(load, s)))
    ensures Simulates(p, load, window, s, ClientTurn(now, drained))
  {
    FullEffect(s.whole.ingress, PushOf(load, s));
    ClientPushRefines(p, s.whole, PushOf(load, s));
  }

  lemma LookSimulates<B, M, R>(p: P.Program<B, M, R>, load: L.Load<M>, window: nat, s: RingLoop<B, M, R>, now: nat,
                               drained: R)
    requires Ready(s) && s.client.AtLook? && Docked(load, s)
    requires PopFacts(s.whole.responses, DrainOf(s, drained), Next(Unbounded, s.whole.responses, DrainOf(s, drained)))
    ensures Simulates(p, load, window, s, ClientTurn(now, drained))
  {
    FullEffect(s.whole.responses, DrainOf(s, drained));
    ClientPopRefines(p, s.whole, DrainOf(s, drained));
  }

  lemma DecideSimulates<B, M, R>(p: P.Program<B, M, R>, load: L.Load<M>, window: nat, s: RingLoop<B, M, R>, now: nat,
                                 drained: R)
    requires Ready(s) && s.client.AtCollect? && s.whole.responses.consumer.Looked? && Docked(load, s)
    requires PopFacts(s.whole.responses, DrainOf(s, drained), Next(Unbounded, s.whole.responses, DrainOf(s, drained)))
    ensures Simulates(p, load, window, s, ClientTurn(now, drained))
  {
    FullEffect(s.whole.responses, DrainOf(s, drained));
    ClientPopRefines(p, s.whole, DrainOf(s, drained));
  }

  lemma ReadSimulates<B, M, R>(p: P.Program<B, M, R>, load: L.Load<M>, window: nat, s: RingLoop<B, M, R>, now: nat,
                               drained: R)
    requires Ready(s) && Docked(load, s) && s.client.AtCollect? && s.whole.responses.consumer.Taking?
    requires |s.whole.responses.consumer.got| < s.whole.responses.consumer.count
    requires PopFacts(s.whole.responses, DrainOf(s, drained), Next(Unbounded, s.whole.responses, DrainOf(s, drained)))
    ensures Simulates(p, load, window, s, ClientTurn(now, drained))
  {
    FullEffect(s.whole.responses, DrainOf(s, drained));
    ClientPopRefines(p, s.whole, DrainOf(s, drained));
  }

  lemma CommitSimulates<B, M, R>(p: P.Program<B, M, R>, load: L.Load<M>, window: nat, s: RingLoop<B, M, R>, now: nat,
                                 drained: R)
    requires Ready(s) && Docked(load, s) && s.client.AtCollect? && s.whole.responses.consumer.Taking?
    requires |s.whole.responses.consumer.got| == s.whole.responses.consumer.count
    requires PopFacts(s.whole.responses, DrainOf(s, drained), Next(Unbounded, s.whole.responses, DrainOf(s, drained)))
    ensures Simulates(p, load, window, s, ClientTurn(now, drained))
  {
    FullEffect(s.whole.responses, DrainOf(s, drained));
    ClientPopRefines(p, s.whole, DrainOf(s, drained));
  }

  lemma StopSimulates<B, M, R>(p: P.Program<B, M, R>, load: L.Load<M>, window: nat, s: RingLoop<B, M, R>, now: nat,
                               drained: R)
    requires Ready(s) && s.client.AtStop?
    ensures Simulates(p, load, window, s, ClientTurn(now, drained))
  {
  }

  lemma LocalSimulates<B, M, R>(p: P.Program<B, M, R>, load: L.Load<M>, window: nat, s: RingLoop<B, M, R>, now: nat,
                                drained: R)
    requires Ready(s) && !s.client.AtPush? && !s.client.AtLook? && !s.client.AtCollect? && !s.client.AtStop?
    ensures Simulates(p, load, window, s, ClientTurn(now, drained))
  {
  }

  /** A step of the matching thread, seen as a turn. */
  lemma MatcherGlue<B, M, R>(p: P.Program<B, M, R>, load: L.Load<M>, window: nat, s: RingLoop<B, M, R>,
                             whole: Whole<B, M, R>, max: nat)
    requires Abstract(whole) == P.MatcherStep(p, Abstract(s.whole), max)
    requires NeverFull(whole.ingress.log) <==> NeverFull(s.whole.ingress.log)
    requires var core := Abstract(s.whole);
             var full := core.matcher.AtReply? && |core.responses.items| >= core.outCapacity;
             NeverFull(whole.responses.log) <==> NeverFull(s.whole.responses.log) && !full
    ensures Abstraction(s.(whole := whole)) == L.LoopStep(p, load, window, Abstraction(s), L.MatcherTurn(max))
  {
  }

  lemma LocalLeavesRings<B, M, R>(p: P.Program<B, M, R>, s: Whole<B, M, R>, max: nat, leftover: M)
    requires Fit(s) && !s.phase.Popping? && !s.phase.Sending?
    ensures var s' := Matching(Unbounded, p, s, max, leftover); s'.ingress == s.ingress && s'.responses == s.responses
    ensures StepOf(s, MatcherStep(max, leftover)) == Some(P.Match(max)) && !Abstract(s).matcher.AtReply?
  {
  }

  lemma StutterGlue<B, M, R>(s: RingLoop<B, M, R>, whole: Whole<B, M, R>)
    requires Abstract(whole) == Abstract(s.whole)
    requires NeverFull(whole.ingress.log) <==> NeverFull(s.whole.ingress.log)
    requires NeverFull(whole.responses.log) <==> NeverFull(s.whole.responses.log)
    ensures Abstraction(s.(whole := whole)) == Abstraction(s)
  {
  }

  lemma PoppingLeavesResponses<B, M, R>(p: P.Program<B, M, R>, s: Whole<B, M, R>, max: nat, leftover: M)
    requires Fit(s) && s.phase.Popping?
    ensures var s' := Matching(Unbounded, p, s, max, leftover);
            s'.responses == s.responses &&
              s'.ingress == Next(Unbounded, s.ingress, PopAction(s.ingress.consumer, max, leftover))
    ensures StepOf(s, MatcherStep(max, leftover)).Some? ==> StepOf(s, MatcherStep(max, leftover)).value.Match?
    ensures !Abstract(s).matcher.AtReply?
  {
  }

  lemma SendingLeavesIngress<B, M, R>(p: P.Program<B, M, R>, s: Whole<B, M, R>, max: nat, leftover: M)
    requires Fit(s) && s.phase.Sending?
    ensures var s' := Matching(Unbounded, p, s, max, leftover);
            && s'.ingress == s.ingress
            && s'.responses == Next(Unbounded, s.responses, PushAction(s.responses.producer, s.phase.response))
    ensures Abstract(s).matcher.AtReply?
  {
  }

  lemma PopAdvances<B, M, R>(p: P.Program<B, M, R>, load: L.Load<M>, window: nat, s: RingLoop<B, M, R>, max: nat,
                             leftover: M)
    requires Ready(s) && s.whole.phase.Popping? && StepOf(s.whole, MatcherStep(max, leftover)).Some?
    requires Abstract(Matching(Unbounded, p, s.whole, max, leftover))
          == Follow(p, Abstract(s.whole), StepOf(s.whole, MatcherStep(max, leftover)))
    ensures Simulates(p, load, window, s, MatcherTurn(max, leftover))
  {
    FullEffect(s.whole.ingress, PopAction(s.whole.ingress.consumer, max, leftover));
    PoppingLeavesResponses(p, s.whole, max, leftover);
    MatcherGlue(p, load, window, s, Matching(Unbounded, p, s.whole, max, leftover),
                StepOf(s.whole, MatcherStep(max, leftover)).value.max);
  }

  lemma PopStutters<B, M, R>(p: P.Program<B, M, R>, load: L.Load<M>, window: nat, s: RingLoop<B, M, R>, max: nat,
                             leftover: M)
    requires Ready(s) && s.whole.phase.Popping? && StepOf(s.whole, MatcherStep(max, leftover)).None?
    requires Abstract(Matching(Unbounded, p, s.whole, max, leftover))
          == Follow(p, Abstract(s.whole), StepOf(s.whole, MatcherStep(max, leftover)))
    ensures Simulates(p, load, window, s, MatcherTurn(max, leftover))
  {
    FullEffect(s.whole.ingress, PopAction(s.whole.ingress.consumer, max, leftover));
    PoppingLeavesResponses(p, s.whole, max, leftover);
    StutterGlue(s, Matching(Unbounded, p, s.whole, max, leftover));
  }

  lemma MatcherPops<B, M, R>(p: P.Program<B, M, R>, load: L.Load<M>, window: nat, s: RingLoop<B, M, R>, max: nat,
                             leftover: M)
    requires Ready(s) && s.whole.phase.Popping?
    requires Abstract(Matching(Unbounded, p, s.whole, max, leftover))
          == Follow(p, Abstract(s.whole), StepOf(s.whole, MatcherStep(max, leftover)))
    ensures Simulates(p, load, window, s, MatcherTurn(max, leftover))
  {
    if StepOf(s.whole, MatcherStep(max, leftover)).Some? {
      PopAdvances(p, load, window, s, max, leftover);
    } else {
      PopStutters(p, load, window, s, max, leftover);
    }
  }

  lemma MatcherPrepares<B, M, R>(p: P.Program<B, M, R>, load: L.Load<M>, window: nat, s: RingLoop<B, M, R>, max: nat,
                                 leftover: M)
    requires Ready(s) && s.whole.phase.Sending? && !Refused(s.whole.responses) && !s.whole.responses.producer.Wrote?
    requires Abstract(Matching(Unbounded, p, s.whole, max, leftover))
          == Follow(p, Abstract(s.whole), StepOf(s.whole, MatcherStep(max, leftover)))
    ensures Simulates(p, load, window, s, MatcherTurn(max, leftover))
  {
    FullEffect(s.whole.responses, PushAction(s.whole.responses.producer, s.whole.phase.response));
    SendingLeavesIngress(p, s.whole, max, leftover);
    StutterGlue(s, Matching(Unbounded, p, s.whole, max, leftover));
  }

  lemma MatcherIsRefused<B, M, R>(p: P.Program<B, M, R>, load: L.Load<M>, window: nat, s: RingLoop<B, M, R>, max: nat,
                                  leftover: M)
    requires Ready(s) && s.whole.phase.Sending? && Refused(s.whole.responses)
    requires |Replay(s.whole.responses.log).items| >= s.whole.responses.capacity
    requires Abstract(Matching(Unbounded, p, s.whole, max, leftover))
          == Follow(p, Abstract(s.whole), StepOf(s.whole, MatcherStep(max, leftover)))
    ensures Simulates(p, load, window, s, MatcherTurn(max, leftover))
  {
    FullEffect(s.whole.responses, PushAction(s.whole.responses.producer, s.whole.phase.response));
    SendingLeavesIngress(p, s.whole, max, leftover);
    assert P.MatcherStep(p, Abstract(s.whole), max) == Abstract(s.whole);
    MatcherGlue(p, load, window, s, Matching(Unbounded, p, s.whole, max, leftover), max);
  }

  lemma MatcherSends<B, M, R>(p: P.Program<B, M, R>, load: L.Load<M>, window: nat, s: RingLoop<B, M, R>, max: nat,
                              leftover: M)
    requires Ready(s) && s.whole.phase.Sending? && s.whole.responses.producer.Wrote?
    requires |Replay(s.whole.responses.log).items| < s.whole.responses.capacity
    requires Abstract(Matching(Unbounded, p, s.whole, max, leftover))
          == Follow(p, Abstract(s.whole), StepOf(s.whole, MatcherStep(max, leftover)))
    ensures Simulates(p, load, window, s, MatcherTurn(max, leftover))
  {
    FullEffect(s.whole.responses, PushAction(s.whole.responses.producer, s.whole.phase.response));
    SendingLeavesIngress(p, s.whole, max, leftover);
    MatcherGlue(p, load, window, s, Matching(Unbounded, p, s.whole, max, leftover), max);
  }

  lemma MatcherWorks<B, M, R>(p: P.Program<B, M, R>, load: L.Load<M>, window: nat, s: RingLoop<B, M, R>, max: nat,
                              leftover: M)
    requires Ready(s) && !s.whole.phase.Popping? && !s.whole.phase.Sending?
    requires Abstract(Matching(Unbounded, p, s.whole, max, leftover))
          == Follow(p, Abstract(s.whole), StepOf(s.whole, MatcherStep(max, leftover)))
    ensures Simulates(p, load, window, s, MatcherTurn(max, leftover))
  {
    LocalLeavesRings(p, s.whole, max, leftover);
    MatcherGlue(p, load, window, s, Matching(Unbounded, p, s.whole, max, leftover), max);
  }

  lemma ClientSimulates<B, M, R>(p: P.Program<B, M, R>, load: L.Load<M>, window: nat, s: RingLoop<B, M, R>, now: nat,
                                 drained: R)
    requires Linked(s.whole) && Docked(load, s) && (s.whole.stopped ==> !s.client.AtPush?)
    ensures Simulates(p, load, window, s, ClientTurn(now, drained))
  {
    match s.client
    case AtPush(_) =>
      PushEffect(s.whole.ingress, PushOf(load, s));
      match s.whole.ingress.producer {
        case GotTail(_, _) => RefusedMeansFull(s.whole.ingress); PushChecks(p, load, window, s, now, drained);
        case Wrote(_, _) => PushCompletes(p, load, window, s, now, drained);
        case _ => PushStarts(p, load, window, s, now, drained);
      }
    case AtLook(_) =>
      PopEffect(s.whole.responses, DrainOf(s, drained));
      LookSimulates(p, load, window, s, now, drained);
    case AtCollect(_) =>
      PopEffect(s.whole.responses, DrainOf(s, drained));
      match s.whole.responses.consumer {
        case Looked(_, _, _) => DecideSimulates(p, load, window, s, now, drained);
        case Taking(_, _, count, got) =>
          if |got| < count { ReadSimulates(p, load, window, s, now, drained); } else {
            CommitSimulates(p, load, window, s, now, drained);
          }
      }
    case AtStop => StopSimulates(p, load, window, s, now, drained);
    case _ => LocalSimulates(p, load, window, s, now, drained);
  }

  lemma MatcherTurnSimulates<B, M, R>(p: P.Program<B, M, R>, load: L.Load<M>, window: nat, s: RingLoop<B, M, R>,
                                      max: nat, leftover: M)
    requires Linked(s.whole)
    ensures Simulates(p, load, window, s, MatcherTurn(max, leftover))
  {
    MatcherRefines(p, s.whole, max, leftover);
    match s.whole.phase
    case Popping => MatcherPops(p, load, window, s, max, leftover);
    case Sending(_, _, r) =>
      PushEffect(s.whole.responses, PushAction(s.whole.responses.producer, r));
      if s.whole.responses.producer.GotTail? { RefusedMeansFull(s.whole.responses); }
      if s.whole.responses.producer.Wrote? {
        MatcherSends(p, load, window, s, max, leftover);
      } else if Refused(s.whole.responses) {
        MatcherIsRefused(p, load, window, s, max, leftover);
      } else {
        MatcherPrepares(p, load, window, s, max, leftover);
      }
    case _ => MatcherWorks(p, load, window, s, max, leftover);
  }

  lemma ClientStaysDocked<B, M, R>(p: P.Program<B, M, R>, load: L.Load<M>, window: nat, s: RingLoop<B, M, R>, now: nat,
                                   drained: R)
    requires Ready(s) && Docked(load, s)
    requires s.whole.responses.consumer.Taking? ==> |s.whole.responses.consumer.got| <= s.whole.responses.consumer.count
    ensures Docked(load, ClientStep(Unbounded, p, load, window, s, now, drained))
  {
  }

  lemma MatcherLeavesDocked<B, M, R>(p: P.Program<B, M, R>, load: L.Load<M>, window: nat, s: RingLoop<B, M, R>,
                                     max: nat, leftover: M)
    requires Ready(s) && Docked(load, s)
    ensures Docked(load, LoopStep(Unbounded, p, load, window, s, MatcherTurn(max, leftover)))
  {
  }

  ghost predicate Running<B(!new), M(!new), R>(p: P.Program<B, M, R>, load: L.Load<M>, window: nat,
                                               s: RingLoop<B, M, R>) {
    Linked(s.whole) && Docked(load, s) && L.LoopInv(p, load, window, Abstraction(s))
  }

  /** One turn of the loop on ideal queues keeps its invariant. */
  lemma TurnKeepsLoopInv<B(!new), M(!new), R>(p: P.Program<B, M, R>, load: L.Load<M>, window: nat, s: L.Loop<B, M, R>,
                                              t: L.Turn)
    requires L.LoopInv(p, load, window, s) && L.Answers(p) && window < 0x1_0000_0000_0000_0000
    ensures L.LoopInv(p, load, window, L.LoopStep(p, load, window, s, t))
  {
    match t
    case ClientTurn(now) => L.ClientKeepsInv(p, load, window, s, now);
    case MatcherTurn(max) => L.MatcherTurnKeepsInv(p, load, window, s, max);
  }

  /** The single step a turn takes on the rings, if any. */
  function StepTaken<B, M, R>(load: L.Load<M>, s: RingLoop<B, M, R>, t: Turn<M, R>): Option<Step<M, R>> {
    match t
    case MatcherTurn(max, leftover) => Some(MatcherStep(max, leftover))
    case ClientTurn(_, drained) =>
      match s.client
      case AtPush(_) => Some(ClientPush(PushOf(load, s)))
      case AtLook(_) => Some(ClientPop(DrainOf(s, drained)))
      case AtCollect(_) => Some(ClientPop(DrainOf(s, drained)))
      case AtStop => Some(ClientStop)
      case _ => None
  }

  lemma WholeTakes<B, M, R>(w: Width, p: P.Program<B, M, R>, load: L.Load<M>, window: nat, s: RingLoop<B, M, R>,
                            t: Turn<M, R>)
    requires Ready(s)
    ensures LoopStep(w, p, load, window, s, t).whole
         == (match StepTaken(load, s, t) case Some(step) => Take(w, p, s.whole, step) case None => s.whole)
  {
  }

  lemma StepKeepsRunning<B(!new), M(!new), R>(p: P.Program<B, M, R>, load: L.Load<M>, window: nat, s: RingLoop<B, M, R>,
                                              t: Turn<M, R>)
    requires Running(p, load, window, s) && L.Answers(p) && window < 0x1_0000_0000_0000_0000
    ensures Running(p, load, window, LoopStep(Unbounded, p, load, window, s, t))
    ensures Simulates(p, load, window, s, t)
  {
    WholeTakes(Unbounded, p, load, window, s, t);
    if StepTaken(load, s, t).Some? { TakeRefines(p, s.whole, StepTaken(load, s, t).value); }
    match t {
      case ClientTurn(now, drained) =>
        ClientSimulates(p, load, window, s, now, drained);
        ClientStaysDocked(p, load, window, s, now, drained);
      case MatcherTurn(max, leftover) =>
        MatcherTurnSimulates(p, load, window, s, max, leftover);
        MatcherLeavesDocked(p, load, window, s, max, leftover);
    }
    if TurnOf(s, t) != [] { TurnKeepsLoopInv(p, load, window, Abstraction(s), TurnOf(s, t)[0]); }
  }

  lemma {:induction false} PlayKeepsRunning<B(!new), M(!new), R>(p: P.Program<B, M, R>, load: L.Load<M>, window: nat,
                                                                 inSlots: seq<M>, outSlots: seq<R>,
                                                                 turns: seq<Turn<M, R>>)
    requires L.Answers(p) && window < 0x1_0000_0000_0000_0000 && inSlots != [] && outSlots != []
    ensures Running(p, load, window, Play(Unbounded, p, load, window, inSlots, outSlots, turns))
  {
    if turns == [] {
      WalkRefines(p, inSlots, outSlots, []);
      L.PlayKeepsInv(p, load, window, |inSlots|, |outSlots|, []);
    } else {
      PlayKeepsRunning(p, load, window, inSlots, outSlots, turns[..|turns| - 1]);
      StepKeepsRunning(p, load, window, Play(Unbounded, p, load, window, inSlots, outSlots, turns[..|turns| - 1]),
                       turns[|turns| - 1]);
    }
  }

  // ------------------------------------------------------------ 64-bit counters

  function WrapLoop<B, M, R>(s: RingLoop<B, M, R>): RingLoop<B, M, R> {
    s.(whole := WrapWhole(s.whole))
  }

  lemma SameActions<B, M, R>(s: Whole<B, M, R>, message: M, drained: R)
    ensures var c := s.responses.consumer;
            && PushAction(Wrapping.WrapProducer(s.ingress.producer), message) == PushAction(s.ingress.producer, message)
            && PopAction(Wrapping.WrapConsumer(c), 64, drained) == PopAction(c, 64, drained)
  {
  }

  lemma PushStepWraps<B, M, R>(p: P.Program<B, M, R>, load: L.Load<M>, s: RingLoop<B, M, R>, stamp: nat, drained: R)
    requires Ready(s)
    requires var step := ClientPush(PushAction(s.whole.ingress.producer, load.make(s.next, stamp)));
             Take(Bits64, p, WrapWhole(s.whole), step) == WrapWhole(Take(Unbounded, p, s.whole, step))
    ensures PushStep(Bits64, p, load, WrapLoop(s), stamp) == WrapLoop(PushStep(Unbounded, p, load, s, stamp))
  {
    SameActions(s.whole, load.make(s.next, stamp), drained);
  }

  lemma LookStepWraps<B, M, R>(p: P.Program<B, M, R>, s: RingLoop<B, M, R>, back: L.Return, message: M, drained: R)
    requires Ready(s)
    requires var step := ClientPop(DrainOf(s, drained));
             Take(Bits64, p, WrapWhole(s.whole), step) == WrapWhole(Take(Unbounded, p, s.whole, step))
    ensures LookStep(Bits64, p, WrapLoop(s), back, drained) == WrapLoop(LookStep(Unbounded, p, s, back, drained))
  {
    SameActions(s.whole, message, drained);
  }

  lemma CollectStepWraps<B, M, R>(p: P.Program<B, M, R>, s: RingLoop<B, M, R>, back: L.Return, message: M, drained: R)
    requires Ready(s)
    requires var step := ClientPop(DrainOf(s, drained));
             Take(Bits64, p, WrapWhole(s.whole), step) == WrapWhole(Take(Unbounded, p, s.whole, step))
    ensures CollectStep(Bits64, p, WrapLoop(s), back, drained) == WrapLoop(CollectStep(Unbounded, p, s, back, drained))
  {
    SameActions(s.whole, message, drained);
  }

  lemma ClientStepWraps<B, M, R>(p: P.Program<B, M, R>, load: L.Load<M>, window: nat, s: RingLoop<B, M, R>, now: nat,
                                 drained: R)
    requires Ready(s)
    requires StepTaken(load, s, ClientTurn(now, drained)).Some? ==>
      var step := StepTaken(load, s, ClientTurn(now, drained)).value;
      Take(Bits64, p, WrapWhole(s.whole), step) == WrapWhole(Take(Unbounded, p, s.whole, step))
    ensures ClientStep(Bits64, p, load, window, WrapLoop(s), now, drained)
         == WrapLoop(ClientStep(Unbounded, p, load, window, s, now, drained))
  {
    match s.client
    case AtPush(stamp) => PushStepWraps(p, load, s, stamp, drained);
    case AtLook(back) => LookStepWraps(p, s, back, load.make(s.next, now), drained);
    case AtCollect(back) => CollectStepWraps(p, s, back, load.make(s.next, now), drained);
    case _ =>
  }

  lemma LoopStepWraps<B, M, R>(p: P.Program<B, M, R>, load: L.Load<M>, window: nat, s: RingLoop<B, M, R>,
                               t: Turn<M, R>)
    requires Ready(s)
    requires StepTaken(load, s, t).Some? ==>
      var step := StepTaken(load, s, t).value;
      Take(Bits64, p, WrapWhole(s.whole), step) == WrapWhole(Take(Unbounded, p, s.whole, step))
    ensures LoopStep(Bits64, p, load, window, WrapLoop(s), t) == WrapLoop(LoopStep(Unbounded, p, load, window, s, t))
  {
    match t
    case ClientTurn(now, drained) => ClientStepWraps(p, load, window, s, now, drained);
    case MatcherTurn(_, _) =>
  }

  lemma {:induction false} PlayWraps<B(!new), M(!new), R>(p: P.Program<B, M, R>, load: L.Load<M>, window: nat,
                                                          inSlots: seq<M>, outSlots: seq<R>, turns: seq<Turn<M, R>>)
    requires L.Answers(p) && window < 0x1_0000_0000_0000_0000
    requires Wrapping.Sized(Start(inSlots)) && Wrapping.Sized(Start(outSlots))
    ensures var s := Play(Unbounded, p, load, window, inSlots, outSlots, turns);
            && Play(Bits64, p, load, window, inSlots, outSlots, turns) == WrapLoop(s)
            && s.whole.ingress.capacity == |inSlots| && s.whole.responses.capacity == |outSlots|
  {
    if turns != [] {
      var before := Play(Unbounded, p, load, window, inSlots, outSlots, turns[..|turns| - 1]);
      var t := turns[|turns| - 1];
      PlayWraps(p, load, window, inSlots, outSlots, turns[..|turns| - 1]);
      PlayKeepsRunning(p, load, window, inSlots, outSlots, turns[..|turns| - 1]);
      WholeTakes(Unbounded, p, load, window, before, t);
      if StepTaken(load, before, t).Some? {
        TakeWraps(p, before.whole, StepTaken(load, before, t).value);
        TakeKeepsSize(Unbounded, p, before.whole, StepTaken(load, before, t).value);
      }
      LoopStepWraps(p, load, window, before, t);
    }
  }

  // --------------------------------------------------------------- theorems

  lemma {:induction false} NeverRefused<B(!new), M(!new), R>(p: P.Program<B, M, R>, load: L.Load<M>, window: nat,
                                                             inSlots: seq<M>, outSlots: seq<R>, turns: seq<Turn<M, R>>)
    requires L.Answers(p) && window < 0x1_0000_0000_0000_0000
    requires Wrapping.Sized(Start(inSlots)) && Wrapping.Sized(Start(outSlots))
    requires 1 <= window <= |inSlots| && window <= |outSlots|
    ensures !Abstraction(Play(Unbounded, p, load, window, inSlots, outSlots, turns)).refused
  {
    if turns != [] {
      var before := Play(Unbounded, p, load, window, inSlots, outSlots, turns[..|turns| - 1]);
      var t := turns[|turns| - 1];
      NeverRefused(p, load, window, inSlots, outSlots, turns[..|turns| - 1]);
      PlayWraps(p, load, window, inSlots, outSlots, turns[..|turns| - 1]);
      PlayKeepsRunning(p, load, window, inSlots, outSlots, turns[..|turns| - 1]);
      StepKeepsRunning(p, load, window, before, t);
      if TurnOf(before, t) != [] { L.StepIsNeverRefused(p, load, window, Abstraction(before), TurnOf(before, t)[0]); }
    }
  }

  /** On the ring buffers: with a window of at least one that both can hold, no push
      of either thread ever finds its ring full. */
  lemma RingsAreNeverFull<B(!new), M(!new), R>(p: P.Program<B, M, R>, load: L.Load<M>, window: nat,
                                               inSlots: seq<M>, outSlots: seq<R>, turns: seq<Turn<M, R>>)
    requires L.Answers(p) && window < 0x1_0000_0000_0000_0000
    requires Wrapping.Sized(Start(inSlots)) && Wrapping.Sized(Start(outSlots))
    requires 1 <= window <= |inSlots| && window <= |outSlots|
    ensures var s := Play(Bits64, p, load, window, inSlots, outSlots, turns);
            NeverFull(s.whole.ingress.log) && NeverFull(s.whole.responses.log)
  {
    PlayWraps(p, load, window, inSlots, outSlots, turns);
    NeverRefused(p, load, window, inSlots, outSlots, turns);
  }

  lemma EndedIsComplete<B(!new), M(!new), R>(p: P.Program<B, M, R>, load: L.Load<M>, window: nat, s: L.Loop<B, M, R>)
    requires L.LoopInv(p, load, window, s) && L.Answers(p) && s.client.Ended?
    ensures var messages := L.Made(load, s.stamps);
            && |messages| == load.count && s.core.executed == messages && s.core.book == P.FoldBook(p, messages)
            && s.core.collected == P.FoldReplies(p, messages)
  {
    L.Backlog(p, s.core);
    L.OneReplyEach(p, s.core.executed);
  }

  /** On the ring buffers: the counter never exceeds the window, and when the client
      has ended every action was executed and acknowledged exactly once, in order. */
  lemma AllAcknowledged<B(!new), M(!new), R>(p: P.Program<B, M, R>, load: L.Load<M>, window: nat,
                                             inSlots: seq<M>, outSlots: seq<R>, turns: seq<Turn<M, R>>)
    requires L.Answers(p) && window < 0x1_0000_0000_0000_0000
    requires Wrapping.Sized(Start(inSlots)) && Wrapping.Sized(Start(outSlots))
    ensures var s := Play(Bits64, p, load, window, inSlots, outSlots, turns);
            var messages := L.Made(load, s.stamps);
            && s.inFlight <= window
            && (s.client.Ended? ==>
                  && |messages| == load.count
                  && s.whole.executed == messages && s.whole.book == P.FoldBook(p, messages)
                  && Out(s.whole.responses.log) == P.FoldReplies(p, messages))
  {
    PlayWraps(p, load, window, inSlots, outSlots, turns);
    PlayKeepsRunning(p, load, window, inSlots, outSlots, turns);
    var s := Play(Unbounded, p, load, window, inSlots, outSlots, turns);
    if s.client.Ended? { EndedIsComplete(p, load, window, Abstraction(s)); }
  }
}
