/** The matching thread on the ring buffers themselves: the steps of `Pipeline`
    taken apart into the single loads, stores, slot reads and slot writes of
    `SpscMachine`, with the batch pops half finished and the snapshots stale that
    this allows. What `Pipeline` says of any other side carries over here; what it
    says of an orderly one, in `RingDrain`, `RingOpenLoop` and `RingClosedLoop`. */
module RingPipeline {
  import opened Types
  import opened SpscMachine
  import Safety = SpscSafety
  import Wrapping = SpscWrap
  import P = Pipeline

  /** Where the matching thread is; inside a queue call, the queue knows more. */
  datatype Phase<R> =
    | Top
    | Check
    | Popping
    | Executing(i: nat, n: nat)
    | Sending(i: nat, n: nat, response: R)
    | Left

  datatype Whole<B, M, R> = Whole(
    ingress: State<M>,
    responses: State<R>,
    stopped: bool,
    phase: Phase<R>,
    batch: seq<M>,
    book: B,
    executed: seq<M>)

  datatype Step<M, R> =
    | ClientPush(push: Action<M>)
    | ClientPop(pop: Action<R>)
    | ClientStop
    | MatcherStep(max: nat, leftover: M)

  predicate IsPush<T>(a: Action<T>) {
    a.PushLoadTail? || a.PushLoadHead? || a.PushWrite? || a.PushStore?
  }

  predicate Fit<B, M, R>(s: Whole<B, M, R>) {
    Shaped(s.ingress) && Shaped(s.responses)
  }

  /** The consumer's next step inside `pop_batch`. */
  function PopAction<T>(c: Consumer<T>, max: nat, leftover: T): Action<T> {
    match c
    case Resting => PopLoadHead(max)
    case Entered(_, _) => PopLoadTail
    case Looked(_, _, _) => PopDecide
    case Taking(_, _, count, got) => if |got| < count then PopRead(leftover) else PopStore
  }

  /** The producer's next step inside `push`. */
  function PushAction<T>(p: Producer<T>, item: T): Action<T> {
    match p
    case Away => PushLoadTail(item)
    case GotTail(_, _) => PushLoadHead
    case GotHead(_, _, _) => PushWrite
    case Wrote(_, _) => PushStore
  }

  function Matching<B, M, R>(w: Width, p: P.Program<B, M, R>, s: Whole<B, M, R>, max: nat,
                             leftover: M): (s': Whole<B, M, R>)
    requires Fit(s)
    ensures Fit(s')
  {
    match s.phase
    case Top => s.(phase := if s.stopped then Check else Popping)
    case Check => s.(phase := if s.ingress.head == s.ingress.tail then Left else Popping)
    case Popping =>
      var c := s.ingress.consumer;
      var ring := Next(w, s.ingress, PopAction(c, max, leftover));
      if c.Taking? && |c.got| >= c.count then
        s.(ingress := ring, batch := s.batch + c.got, phase := if c.got == [] then Top else Executing(0, |c.got|))
      else if c.Looked? && ring.consumer.Resting? then s.(ingress := ring, phase := Top)
      else s.(ingress := ring)
    case Executing(i, n) =>
      if i < n then
        if i >= |s.batch| then s
        else
          var m := s.batch[i];
          var r := p.reply(s.book, m);
          s.(book := p.step(s.book, m), executed := s.executed + [m],
             phase := if r.None? then Executing(i + 1, n) else Sending(i, n, r.value))
      else s.(batch := [], phase := Top)
    case Sending(i, n, r) =>
      var ring := Next(w, s.responses, PushAction(s.responses.producer, r));
      s.(responses := ring, phase := if s.responses.producer.Wrote? then Executing(i + 1, n) else s.phase)
    case Left => s
  }

  function Take<B, M, R>(w: Width, p: P.Program<B, M, R>, s: Whole<B, M, R>, t: Step<M, R>): (s': Whole<B, M, R>)
    requires Fit(s)
    ensures Fit(s')
  {
    match t
    case ClientPush(a) => if IsPush(a) then s.(ingress := Next(w, s.ingress, a)) else s
    case ClientPop(a) => if !IsPush(a) then s.(responses := Next(w, s.responses, a)) else s
    case ClientStop => s.(stopped := true)
    case MatcherStep(max, leftover) => Matching(w, p, s, max, leftover)
  }

  function Begin<B, M, R>(p: P.Program<B, M, R>, inSlots: seq<M>, outSlots: seq<R>): Whole<B, M, R> {
    Whole(Start(inSlots), Start(outSlots), false, Top, [], p.start, [])
  }

  function Walk<B, M, R>(w: Width, p: P.Program<B, M, R>, s: Whole<B, M, R>,
                         steps: seq<Step<M, R>>): (s': Whole<B, M, R>)
    requires Fit(s)
    ensures Fit(s')
  {
    if steps == [] then s else Take(w, p, Walk(w, p, s, steps[..|steps| - 1]), steps[|steps| - 1])
  }

  // ------------------------------------------------------------- refinement

  /** The step of `Pipeline` the matching thread is at. */
  function Counter<B, M, R>(s: Whole<B, M, R>): P.Matcher<R> {
    match s.phase
    case Top => P.AtTop
    case Check => P.AtEmptyCheck
    case Popping =>
      (match s.ingress.consumer
       case Resting => P.AtPop
       case Entered(_, _) => P.AtPop
       case Looked(_, h, t) => if h == t then P.AtTop else P.AtCommit
       case Taking(_, _, _, _) => P.AtCommit)
    case Executing(i, n) => P.AtMessage(i, n)
    case Sending(i, n, r) => P.AtReply(i, n, r)
    case Left => P.Exited
  }

  /** What the collecting side saw and has not collected yet. */
  function Seen<T>(s: State<T>): nat {
    match s.consumer
    case Looked(_, h, t) => if h <= t then t - h else 0
    case Taking(_, _, _, _) => Replay(s.log).seen
    case _ => 0
  }

  function Abstract<B, M, R>(s: Whole<B, M, R>): P.Core<B, M, R> {
    P.Core(s.ingress.capacity, s.responses.capacity,
           Replay(s.ingress.log), Fifo(Replay(s.responses.log).items, Seen(s.responses)),
           s.stopped, Counter(s), s.batch, s.book,
           In(s.ingress.log), s.executed, In(s.responses.log), Out(s.responses.log))
  }

  /** A thread is inside a queue call exactly when its program counter says so. */
  ghost predicate Docked<B, M, R>(s: Whole<B, M, R>) {
    && (!s.phase.Popping? ==> s.ingress.consumer.Resting?)
    && (match s.responses.producer
        case Away => true
        case GotTail(item, _) => s.phase.Sending? && item == s.phase.response
        case GotHead(item, _, _) => s.phase.Sending? && item == s.phase.response
        case Wrote(item, _) => s.phase.Sending? && item == s.phase.response)
  }

  ghost predicate Linked<B, M, R>(s: Whole<B, M, R>) {
    Safety.Inv(s.ingress) && Safety.Inv(s.responses) && Docked(s)
  }

  /** The step of `Pipeline` that a single step amounts to, if any. */
  function StepOf<B, M, R>(s: Whole<B, M, R>, t: Step<M, R>): Option<P.Step<M>> {
    match t
    case ClientPush(a) => if a.PushStore? && s.ingress.producer.Wrote? then Some(P.EnvPush(s.ingress.producer.item))
      else None
    case ClientPop(a) =>
      var c := s.responses.consumer;
      if a.PopLoadTail? && c.Entered? then Some(P.EnvLook)
      else if a.PopStore? && c.Taking? && |c.got| == c.count then Some(P.EnvCollect(c.max))
      else None
    case ClientStop => Some(P.EnvStop)
    case MatcherStep(max, _) =>
      match s.phase
      case Popping =>
        var c := s.ingress.consumer;
        if c.Entered? then Some(P.Match(c.max))
        else if c.Taking? && |c.got| >= c.count then Some(P.Match(c.max))
        else None
      case Sending(_, _, _) => if s.responses.producer.Wrote? then Some(P.Match(max)) else None
      case _ => Some(P.Match(max))
  }

  function Follow<B, M, R>(p: P.Program<B, M, R>, core: P.Core<B, M, R>, a: Option<P.Step<M>>): P.Core<B, M, R> {
    if a.None? then core else P.Advance(p, false, core, a.value)
  }

  /** What a producer's step does to the queue the ring stands for. */
  ghost predicate PushFacts<T>(s: State<T>, a: Action<T>, s': State<T>) {
    && s'.capacity == s.capacity && s'.consumer == s.consumer && s'.head == s.head && Out(s'.log) == Out(s.log)
    && if a.PushStore? && s.producer.Wrote? then
         && |Replay(s.log).items| < s.capacity && s'.producer.Away?
         && Replay(s'.log) == After(Replay(s.log), Pushed(s.producer.item))
         && In(s'.log) == In(s.log) + [s.producer.item]
       else Replay(s'.log) == Replay(s.log) && In(s'.log) == In(s.log)
  }

  /** What a consumer's step does to it. */
  ghost predicate PopFacts<T>(s: State<T>, a: Action<T>, s': State<T>) {
    && s'.capacity == s.capacity && s'.producer == s.producer && s'.tail == s.tail && In(s'.log) == In(s.log)
    && if a.PopLoadTail? && s.consumer.Entered? then
         && Replay(s'.log) == After(Replay(s.log), Saw(|Replay(s.log).items|)) && Out(s'.log) == Out(s.log)
         && s'.consumer.Looked? && s'.consumer.head <= s'.consumer.tail
         && s'.consumer.tail - s'.consumer.head == |Replay(s.log).items|
       else if a.PopStore? && s.consumer.Taking? && |s.consumer.got| == s.consumer.count then
         && 0 < Replay(s.log).seen <= |Replay(s.log).items|
         && s.consumer.got == Replay(s.log).items[..Min(Replay(s.log).seen, s.consumer.max)]
         && Replay(s'.log) == After(Replay(s.log), Popped(s.consumer.max, s.consumer.got))
         && Out(s'.log) == Out(s.log) + s.consumer.got && s'.consumer.Resting?
       else
         && Replay(s'.log) == Replay(s.log) && Out(s'.log) == Out(s.log)
         && (s.consumer.Looked? ==>
             s.consumer.head <= s.consumer.tail && Replay(s.log).seen == s.consumer.tail - s.consumer.head)
  }

  lemma PushEffect<T>(s: State<T>, a: Action<T>)
    requires Safety.Inv(s) && IsPush(a)
    ensures Safety.Inv(Next(Unbounded, s, a)) && PushFacts(s, a, Next(Unbounded, s, a))
  {
    Safety.NextKeepsInv(s, a);
    Safety.Logged(s.capacity, s.log, WasFull);
    if s.producer.Wrote? { Safety.Logged(s.capacity, s.log, Pushed(s.producer.item)); }
  }

  lemma PopEffect<T>(s: State<T>, a: Action<T>)
    requires Safety.Inv(s) && !IsPush(a)
    ensures Safety.Inv(Next(Unbounded, s, a)) && PopFacts(s, a, Next(Unbounded, s, a))
  {
    Safety.NextKeepsInv(s, a);
    if s.consumer.Taking? {
      Safety.Logged(s.capacity, s.log, Popped(s.consumer.max, s.consumer.got));
    } else {
      LookEffect(s, a);
    }
  }

  lemma LookEffect<T>(s: State<T>, a: Action<T>)
    requires Safety.Inv(s) && !IsPush(a) && !s.consumer.Taking?
    ensures PopFacts(s, a, Next(Unbounded, s, a))
  {
    if s.consumer.Entered? {
      Safety.Logged(s.capacity, s.log, Saw(s.tail - s.consumer.head));
    }
  }

  lemma ClientPushRefines<B, M, R>(p: P.Program<B, M, R>, s: Whole<B, M, R>, a: Action<M>)
    requires Fit(s) && (IsPush(a) ==> PushFacts(s.ingress, a, Next(Unbounded, s.ingress, a)))
    ensures Abstract(Take(Unbounded, p, s, ClientPush(a))) == Follow(p, Abstract(s), StepOf(s, ClientPush(a)))
  {
  }

  lemma {:induction false} ClientPopRefines<B, M, R>(p: P.Program<B, M, R>, s: Whole<B, M, R>, a: Action<R>)
    requires Fit(s) && (!IsPush(a) ==> PopFacts(s.responses, a, Next(Unbounded, s.responses, a)))
    ensures Abstract(Take(Unbounded, p, s, ClientPop(a))) == Follow(p, Abstract(s), StepOf(s, ClientPop(a)))
  {
  }

  lemma EnteringRefines<B, M, R>(p: P.Program<B, M, R>, s: Whole<B, M, R>, max: nat, leftover: M)
    requires Fit(s) && s.phase.Popping? && s.ingress.consumer.Resting?
    requires var a := PopAction(s.ingress.consumer, max, leftover);
             PopFacts(s.ingress, a, Next(Unbounded, s.ingress, a))
    ensures Abstract(Matching(Unbounded, p, s, max, leftover))
         == Follow(p, Abstract(s), StepOf(s, MatcherStep(max, leftover)))
  {
  }

  lemma LookingRefines<B, M, R>(p: P.Program<B, M, R>, s: Whole<B, M, R>, max: nat, leftover: M)
    requires Fit(s) && s.phase.Popping? && s.ingress.consumer.Entered?
    requires var a := PopAction(s.ingress.consumer, max, leftover);
             PopFacts(s.ingress, a, Next(Unbounded, s.ingress, a))
    ensures Abstract(Matching(Unbounded, p, s, max, leftover))
         == Follow(p, Abstract(s), StepOf(s, MatcherStep(max, leftover)))
  {
    var s' := Matching(Unbounded, p, s, max, leftover);
    assert s' == s.(ingress := Next(Unbounded, s.ingress, PopLoadTail));
    assert Counter(s') == if |Replay(s.ingress.log).items| == 0 then P.AtTop else P.AtCommit;
  }

  lemma DecidingRefines<B, M, R>(p: P.Program<B, M, R>, s: Whole<B, M, R>, max: nat, leftover: M)
    requires Fit(s) && s.phase.Popping? && s.ingress.consumer.Looked?
    requires var a := PopAction(s.ingress.consumer, max, leftover);
             PopFacts(s.ingress, a, Next(Unbounded, s.ingress, a))
    ensures Abstract(Matching(Unbounded, p, s, max, leftover))
         == Follow(p, Abstract(s), StepOf(s, MatcherStep(max, leftover)))
  {
  }

  lemma ReadingRefines<B, M, R>(p: P.Program<B, M, R>, s: Whole<B, M, R>, max: nat, leftover: M)
    requires Fit(s) && s.phase.Popping? && s.ingress.consumer.Taking?
    requires |s.ingress.consumer.got| < s.ingress.consumer.count
    requires var a := PopAction(s.ingress.consumer, max, leftover);
             PopFacts(s.ingress, a, Next(Unbounded, s.ingress, a))
    ensures Abstract(Matching(Unbounded, p, s, max, leftover))
         == Follow(p, Abstract(s), StepOf(s, MatcherStep(max, leftover)))
  {
  }

  lemma CommittingRefines<B, M, R>(p: P.Program<B, M, R>, s: Whole<B, M, R>, max: nat, leftover: M)
    requires Fit(s) && s.phase.Popping? && s.ingress.consumer.Taking?
    requires |s.ingress.consumer.got| == s.ingress.consumer.count
    requires var a := PopAction(s.ingress.consumer, max, leftover);
             PopFacts(s.ingress, a, Next(Unbounded, s.ingress, a))
    ensures Abstract(Matching(Unbounded, p, s, max, leftover))
         == Follow(p, Abstract(s), StepOf(s, MatcherStep(max, leftover)))
  {
  }

  lemma PoppingRefines<B, M, R>(p: P.Program<B, M, R>, s: Whole<B, M, R>, max: nat, leftover: M)
    requires Fit(s) && s.phase.Popping?
    requires s.ingress.consumer.Taking? ==> |s.ingress.consumer.got| <= s.ingress.consumer.count
    requires var a := PopAction(s.ingress.consumer, max, leftover);
             PopFacts(s.ingress, a, Next(Unbounded, s.ingress, a))
    ensures Abstract(Matching(Unbounded, p, s, max, leftover))
         == Follow(p, Abstract(s), StepOf(s, MatcherStep(max, leftover)))
  {
    if s.ingress.consumer.Resting? {
      EnteringRefines(p, s, max, leftover);
    } else if s.ingress.consumer.Entered? {
      LookingRefines(p, s, max, leftover);
    } else if s.ingress.consumer.Looked? {
      DecidingRefines(p, s, max, leftover);
    } else if |s.ingress.consumer.got| < s.ingress.consumer.count {
      ReadingRefines(p, s, max, leftover);
    } else {
      CommittingRefines(p, s, max, leftover);
    }
  }

  lemma PreparingRefines<B, M, R>(p: P.Program<B, M, R>, s: Whole<B, M, R>, max: nat, leftover: M)
    requires Fit(s) && s.phase.Sending? && !s.responses.producer.Wrote?
    requires var a := PushAction(s.responses.producer, s.phase.response);
             PushFacts(s.responses, a, Next(Unbounded, s.responses, a))
    ensures Abstract(Matching(Unbounded, p, s, max, leftover))
         == Follow(p, Abstract(s), StepOf(s, MatcherStep(max, leftover)))
  {
  }

  /** A push does not change what the consumer saw. */
  lemma PushKeepsSeen<T>(s: State<T>, a: Action<T>, s': State<T>)
    requires PushFacts(s, a, s')
    ensures Seen(s') == Seen(s)
  {
  }

  lemma Enqueued<B, M, R>(p: P.Program<B, M, R>, s: Whole<B, M, R>, ring: State<R>, max: nat)
    requires s.phase.Sending? && s.responses.producer.Wrote? && s.responses.producer.item == s.phase.response
    requires PushFacts(s.responses, PushStore, ring)
    ensures Abstract(s.(responses := ring, phase := Executing(s.phase.i + 1, s.phase.n)))
         == P.MatcherStep(p, Abstract(s), max)
  {
    PushKeepsSeen(s.responses, PushStore, ring);
  }

  lemma EnqueuingRefines<B, M, R>(p: P.Program<B, M, R>, s: Whole<B, M, R>, max: nat, leftover: M)
    requires Fit(s) && s.phase.Sending? && s.responses.producer.Wrote? && s.responses.producer.item == s.phase.response
    requires var a := PushAction(s.responses.producer, s.phase.response);
             PushFacts(s.responses, a, Next(Unbounded, s.responses, a))
    ensures Abstract(Matching(Unbounded, p, s, max, leftover))
         == Follow(p, Abstract(s), StepOf(s, MatcherStep(max, leftover)))
  {
    Enqueued(p, s, Next(Unbounded, s.responses, PushStore), max);
  }

  lemma SendingRefines<B, M, R>(p: P.Program<B, M, R>, s: Whole<B, M, R>, max: nat, leftover: M)
    requires Fit(s) && s.phase.Sending?
    requires s.responses.producer.Wrote? ==> s.responses.producer.item == s.phase.response
    requires var a := PushAction(s.responses.producer, s.phase.response);
             PushFacts(s.responses, a, Next(Unbounded, s.responses, a))
    ensures Abstract(Matching(Unbounded, p, s, max, leftover))
         == Follow(p, Abstract(s), StepOf(s, MatcherStep(max, leftover)))
  {
    if s.responses.producer.Wrote? {
      EnqueuingRefines(p, s, max, leftover);
    } else {
      PreparingRefines(p, s, max, leftover);
    }
  }

  lemma ExecutingRefines<B, M, R>(p: P.Program<B, M, R>, s: Whole<B, M, R>, max: nat, leftover: M)
    requires Fit(s) && s.phase.Executing?
    ensures Abstract(Matching(Unbounded, p, s, max, leftover))
         == Follow(p, Abstract(s), StepOf(s, MatcherStep(max, leftover)))
  {
  }

  lemma CheckingRefines<B, M, R>(p: P.Program<B, M, R>, s: Whole<B, M, R>, max: nat, leftover: M)
    requires Fit(s) && (s.phase.Top? || s.phase.Check? || s.phase.Left?)
    requires s.ingress.consumer.Resting? && s.ingress.tail == s.ingress.head + |Replay(s.ingress.log).items|
    ensures Abstract(Matching(Unbounded, p, s, max, leftover))
         == Follow(p, Abstract(s), StepOf(s, MatcherStep(max, leftover)))
  {
    match s.phase
    case Check => assert s.ingress.head == s.ingress.tail <==> Replay(s.ingress.log).items == [];
    case _ =>
  }

  lemma StaysDocked<B, M, R>(p: P.Program<B, M, R>, s: Whole<B, M, R>, t: Step<M, R>)
    requires Fit(s) && Docked(s)
    requires s.ingress.consumer.Taking? ==> |s.ingress.consumer.got| <= s.ingress.consumer.count
    ensures Docked(Take(Unbounded, p, s, t))
  {
  }

  lemma PopTurnRefines<B, M, R>(p: P.Program<B, M, R>, s: Whole<B, M, R>, max: nat, leftover: M)
    requires Linked(s) && s.phase.Popping?
    ensures var s' := Matching(Unbounded, p, s, max, leftover);
            && Safety.Inv(s'.ingress) && Safety.Inv(s'.responses)
            && Abstract(s') == Follow(p, Abstract(s), StepOf(s, MatcherStep(max, leftover)))
  {
    PopEffect(s.ingress, PopAction(s.ingress.consumer, max, leftover));
    PoppingRefines(p, s, max, leftover);
  }

  lemma SendTurnRefines<B, M, R>(p: P.Program<B, M, R>, s: Whole<B, M, R>, max: nat, leftover: M)
    requires Linked(s) && s.phase.Sending?
    ensures var s' := Matching(Unbounded, p, s, max, leftover);
            && Safety.Inv(s'.ingress) && Safety.Inv(s'.responses)
            && Abstract(s') == Follow(p, Abstract(s), StepOf(s, MatcherStep(max, leftover)))
  {
    PushEffect(s.responses, PushAction(s.responses.producer, s.phase.response));
    SendingRefines(p, s, max, leftover);
  }

  lemma MatcherRefines<B, M, R>(p: P.Program<B, M, R>, s: Whole<B, M, R>, max: nat, leftover: M)
    requires Linked(s)
    ensures var s' := Matching(Unbounded, p, s, max, leftover);
            && Safety.Inv(s'.ingress) && Safety.Inv(s'.responses)
            && Abstract(s') == Follow(p, Abstract(s), StepOf(s, MatcherStep(max, leftover)))
  {
    match s.phase
    case Popping => PopTurnRefines(p, s, max, leftover);
    case Sending(_, _, _) => SendTurnRefines(p, s, max, leftover);
    case Executing(_, _) => ExecutingRefines(p, s, max, leftover);
    case Top => CheckingRefines(p, s, max, leftover);
    case Check => CheckingRefines(p, s, max, leftover);
    case Left => CheckingRefines(p, s, max, leftover);
  }

  /** Every single step, of either thread, is one step of `Pipeline` or none. */
  lemma TakeRefines<B, M, R>(p: P.Program<B, M, R>, s: Whole<B, M, R>, t: Step<M, R>)
    requires Linked(s)
    ensures Linked(Take(Unbounded, p, s, t))
    ensures Abstract(Take(Unbounded, p, s, t)) == Follow(p, Abstract(s), StepOf(s, t))
  {
    StaysDocked(p, s, t);
    match t
    case ClientPush(a) =>
      if IsPush(a) { PushEffect(s.ingress, a); }
      ClientPushRefines(p, s, a);
    case ClientPop(a) =>
      if !IsPush(a) { PopEffect(s.responses, a); }
      ClientPopRefines(p, s, a);
    case ClientStop =>
    case MatcherStep(max, leftover) => MatcherRefines(p, s, max, leftover);
  }

  /** The schedule of `Pipeline` that a walk amounts to. */
  function ScheduleOf<B, M, R>(p: P.Program<B, M, R>, s: Whole<B, M, R>, steps: seq<Step<M, R>>): seq<P.Step<M>>
    requires Fit(s)
  {
    if steps == [] then []
    else
      var before := steps[..|steps| - 1];
      var a := StepOf(Walk(Unbounded, p, s, before), steps[|steps| - 1]);
      ScheduleOf(p, s, before) + if a.None? then [] else [a.value]
  }

  lemma ScheduleFollows<B, M, R>(p: P.Program<B, M, R>, core: P.Core<B, M, R>, schedule: seq<P.Step<M>>,
                                 a: Option<P.Step<M>>)
    ensures P.Schedule(p, false, core, schedule + if a.None? then [] else [a.value])
         == Follow(p, P.Schedule(p, false, core, schedule), a)
  {
    if a.None? {
      assert schedule + [] == schedule;
    } else {
      assert (schedule + [a.value])[..|schedule|] == schedule;
    }
  }

  /** Every interleaving of single steps is a schedule of the pipeline. */
  lemma {:induction false} WalkRefines<B, M, R>(p: P.Program<B, M, R>, inSlots: seq<M>, outSlots: seq<R>,
                                                steps: seq<Step<M, R>>)
    requires inSlots != [] && outSlots != []
    ensures var s := Walk(Unbounded, p, Begin(p, inSlots, outSlots), steps);
            && Linked(s)
            && Abstract(s) == P.Schedule(p, false, P.Init(p, |inSlots|, |outSlots|),
                                         ScheduleOf(p, Begin(p, inSlots, outSlots), steps))
  {
    if steps != [] {
      var n := |steps| - 1;
      var before := Walk(Unbounded, p, Begin(p, inSlots, outSlots), steps[..n]);
      WalkRefines(p, inSlots, outSlots, steps[..n]);
      TakeRefines(p, before, steps[n]);
      ScheduleFollows(p, P.Init(p, |inSlots|, |outSlots|), ScheduleOf(p, Begin(p, inSlots, outSlots), steps[..n]),
                      StepOf(before, steps[n]));
    }
  }

  lemma WalkKeepsInv<B, M, R>(p: P.Program<B, M, R>, inSlots: seq<M>, outSlots: seq<R>, steps: seq<Step<M, R>>)
    requires inSlots != [] && outSlots != []
    ensures P.Inv(p, false, Abstract(Walk(Unbounded, p, Begin(p, inSlots, outSlots), steps)))
  {
    WalkRefines(p, inSlots, outSlots, steps);
    P.ScheduleKeepsInv(p, false, |inSlots|, |outSlots|, ScheduleOf(p, Begin(p, inSlots, outSlots), steps));
  }

  // ------------------------------------------------------------ 64-bit counters

  function WrapWhole<B, M, R>(s: Whole<B, M, R>): Whole<B, M, R> {
    s.(ingress := Wrapping.Wrap(s.ingress), responses := Wrapping.Wrap(s.responses))
  }

  lemma SameAction<T>(s: State<T>, max: nat, leftover: T, item: T)
    ensures PopAction(Wrapping.Wrap(s).consumer, max, leftover) == PopAction(s.consumer, max, leftover)
    ensures PushAction(Wrapping.Wrap(s).producer, item) == PushAction(s.producer, item)
  {
  }

  lemma WordsDiffer(a: nat, b: nat)
    requires b <= a < b + 0x1_0000_0000_0000_0000
    ensures Wrapping.Word(b) == Wrapping.Word(a) <==> b == a
  {
    Wrapping.WrappedDifference(a, b);
  }

  lemma PoppingWraps<B, M, R>(p: P.Program<B, M, R>, s: Whole<B, M, R>, max: nat, leftover: M)
    requires Fit(s) && s.phase.Popping?
    requires var a := PopAction(s.ingress.consumer, max, leftover);
             Next(Bits64, Wrapping.Wrap(s.ingress), a) == Wrapping.Wrap(Next(Unbounded, s.ingress, a))
    ensures Matching(Bits64, p, WrapWhole(s), max, leftover) == WrapWhole(Matching(Unbounded, p, s, max, leftover))
  {
    SameAction(s.ingress, max, leftover, leftover);
  }

  lemma SendingWraps<B, M, R>(p: P.Program<B, M, R>, s: Whole<B, M, R>, max: nat, leftover: M)
    requires Fit(s) && s.phase.Sending?
    requires var a := PushAction(s.responses.producer, s.phase.response);
             Next(Bits64, Wrapping.Wrap(s.responses), a) == Wrapping.Wrap(Next(Unbounded, s.responses, a))
    ensures Matching(Bits64, p, WrapWhole(s), max, leftover) == WrapWhole(Matching(Unbounded, p, s, max, leftover))
  {
  }

  lemma LocalWraps<B, M, R>(p: P.Program<B, M, R>, s: Whole<B, M, R>, max: nat, leftover: M)
    requires Fit(s) && !s.phase.Popping? && !s.phase.Sending?
    requires Wrapping.Word(s.ingress.head) == Wrapping.Word(s.ingress.tail) <==> s.ingress.head == s.ingress.tail
    ensures Matching(Bits64, p, WrapWhole(s), max, leftover) == WrapWhole(Matching(Unbounded, p, s, max, leftover))
  {
  }

  lemma TakeWraps<B, M, R>(p: P.Program<B, M, R>, s: Whole<B, M, R>, t: Step<M, R>)
    requires Linked(s) && Wrapping.Sized(s.ingress) && Wrapping.Sized(s.responses)
    ensures Take(Bits64, p, WrapWhole(s), t) == WrapWhole(Take(Unbounded, p, s, t))
  {
    match t
    case ClientPush(a) => Wrapping.NextWraps(s.ingress, a);
    case ClientPop(a) => Wrapping.NextWraps(s.responses, a);
    case ClientStop =>
    case MatcherStep(max, leftover) =>
      if s.phase.Popping? {
        Wrapping.NextWraps(s.ingress, PopAction(s.ingress.consumer, max, leftover));
        PoppingWraps(p, s, max, leftover);
      } else if s.phase.Sending? {
        Wrapping.NextWraps(s.responses, PushAction(s.responses.producer, s.phase.response));
        SendingWraps(p, s, max, leftover);
      } else {
        WordsDiffer(s.ingress.tail, s.ingress.head);
        LocalWraps(p, s, max, leftover);
      }
  }

  lemma TakeKeepsSize<B, M, R>(w: Width, p: P.Program<B, M, R>, s: Whole<B, M, R>, t: Step<M, R>)
    requires Fit(s)
    ensures Take(w, p, s, t).ingress.capacity == s.ingress.capacity
    ensures Take(w, p, s, t).responses.capacity == s.responses.capacity
  {
  }

  lemma {:induction false} WalkWraps<B, M, R>(p: P.Program<B, M, R>, inSlots: seq<M>, outSlots: seq<R>,
                                              steps: seq<Step<M, R>>)
    requires Wrapping.Sized(Start(inSlots)) && Wrapping.Sized(Start(outSlots))
    ensures var s := Walk(Unbounded, p, Begin(p, inSlots, outSlots), steps);
            && Walk(Bits64, p, Begin(p, inSlots, outSlots), steps) == WrapWhole(s)
            && s.ingress.capacity == |inSlots| && s.responses.capacity == |outSlots|
  {
    if steps != [] {
      var before := Walk(Unbounded, p, Begin(p, inSlots, outSlots), steps[..|steps| - 1]);
      WalkWraps(p, inSlots, outSlots, steps[..|steps| - 1]);
      WalkRefines(p, inSlots, outSlots, steps[..|steps| - 1]);
      TakeWraps(p, before, steps[|steps| - 1]);
      TakeKeepsSize(Unbounded, p, before, steps[|steps| - 1]);
    }
  }

  /** The matching thread on the original's ring buffers, 64-bit counters, masks and
      all: after any interleaving of single loads, stores, slot reads and slot
      writes, for any batch sizes, the book and the enqueued responses are those of
      executing, one after the other, a prefix of the messages pushed so far. */
  lemma RingsDoNotMatter<B, M, R>(p: P.Program<B, M, R>, inSlots: seq<M>, outSlots: seq<R>, steps: seq<Step<M, R>>)
    requires Wrapping.Sized(Start(inSlots)) && Wrapping.Sized(Start(outSlots))
    ensures var s := Walk(Bits64, p, Begin(p, inSlots, outSlots), steps);
            && s.executed <= In(s.ingress.log)
            && s.book == P.FoldBook(p, s.executed)
            && In(s.responses.log) <= P.FoldReplies(p, s.executed)
            && |P.FoldReplies(p, s.executed)| <= |In(s.responses.log)| + 1
            && Out(s.responses.log) <= In(s.responses.log)
  {
    WalkWraps(p, inSlots, outSlots, steps);
    WalkKeepsInv(p, inSlots, outSlots, steps);
  }
}
