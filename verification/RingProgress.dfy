/** The matching thread gets on, single step by single step: on the ring buffers
    themselves, a thread that is not held up brings every queue call to its end. */
module RingProgress {
  import opened SpscMachine
  import opened RingPipeline
  import Progress

  /** How many single steps the matching thread takes inside a queue call before the
      call has its next effect. */
  function InCall<B, M, R>(s: Whole<B, M, R>): nat {
    match s.phase
    case Popping =>
      (match s.ingress.consumer
       case Resting => 1
       case Entered(_, _) => 0
       case Looked(_, h, t) => if h == t then 1 else s.ingress.capacity + 1
       case Taking(_, _, count, got) => if |got| < count then count - |got| else 0)
    case Sending(_, _, _) =>
      (match s.responses.producer
       case Away => 3
       case GotTail(_, _) => 2
       case GotHead(_, _, _) => 1
       case Wrote(_, _) => 0)
    case _ => 0
  }

  /** The batch pop under way asks for nothing. */
  predicate AsksForNothing<T>(c: Consumer<T>) {
    match c
    case Resting => false
    case Entered(max, _) => max == 0
    case Looked(max, _, _) => max == 0
    case Taking(max, _, _, _) => max == 0
  }

  /** What is left to do: steps of the pipeline, and a batch pop that is in vain. */
  function Steps<B, M, R>(s: Whole<B, M, R>): int {
    Progress.Work(Abstract(s)) + if AsksForNothing(s.ingress.consumer) then 4 else 0
  }

  lemma PopGetsOn<B, M, R>(p: P.Program<B, M, R>, s: Whole<B, M, R>, max: nat, leftover: M)
    requires Fit(s) && s.phase.Popping? && max > 0
    requires s.ingress.consumer.Taking? ==> |s.ingress.consumer.got| <= s.ingress.consumer.count
    requires s.ingress.consumer.Looked? ==> s.ingress.consumer.head <= s.ingress.consumer.tail
                                            <= s.ingress.consumer.head + s.ingress.capacity
    ensures var s', a := Matching(Unbounded, p, s, max, leftover), StepOf(s, MatcherStep(max, leftover));
            && (AsksForNothing(s'.ingress.consumer) ==> AsksForNothing(s.ingress.consumer))
            && (a.None? ==> InCall(s') < InCall(s))
            && (a.Some? ==>
                  && a.value.Match?
                  && (s.ingress.consumer.Entered? || a.value.max > 0
                      || (AsksForNothing(s.ingress.consumer) && !AsksForNothing(s'.ingress.consumer))))
  {
  }

  lemma SendGetsOn<B, M, R>(p: P.Program<B, M, R>, s: Whole<B, M, R>, max: nat, leftover: M)
    requires Fit(s) && s.phase.Sending?
    requires s.responses.producer.GotTail? ==>
             Minus(Unbounded, s.responses.producer.tail, s.responses.head) < s.responses.capacity
    ensures var s', a := Matching(Unbounded, p, s, max, leftover), StepOf(s, MatcherStep(max, leftover));
            && s'.ingress == s.ingress
            && (a.None? ==> InCall(s') < InCall(s))
            && (a.Some? ==> a.value == P.Match(max))
  {
  }

  /** A batch pop that asks for nothing costs the thread one more round. */
  lemma VainPop<B, M, R>(p: P.Program<B, M, R>, s: P.Core<B, M, R>)
    requires P.Inv(p, false, s) && s.matcher.AtCommit?
    ensures Progress.Work(P.MatcherStep(p, s, 0)) == Progress.Work(s) + 3
  {
  }

  /** Nearer to the end by a step of the pipeline, or by one inside a queue call. */
  predicate Nearer<B, M, R>(s: Whole<B, M, R>, s': Whole<B, M, R>) {
    Steps(s') < Steps(s) || (Steps(s') == Steps(s) && InCall(s') < InCall(s))
  }

  lemma PopIsNearer<B, M, R>(p: P.Program<B, M, R>, s: Whole<B, M, R>, max: nat, leftover: M)
    requires Fit(s) && s.phase.Popping? && max > 0
    requires P.Inv(p, false, Abstract(s)) && Progress.Employed(Abstract(s))
    requires s.ingress.consumer.Taking? ==> |s.ingress.consumer.got| <= s.ingress.consumer.count
    requires s.ingress.consumer.Looked? ==> s.ingress.consumer.head <= s.ingress.consumer.tail
                                            <= s.ingress.consumer.head + s.ingress.capacity
    requires Abstract(Matching(Unbounded, p, s, max, leftover))
          == Follow(p, Abstract(s), StepOf(s, MatcherStep(max, leftover)))
    ensures Nearer(s, Matching(Unbounded, p, s, max, leftover))
  {
    PopGetsOn(p, s, max, leftover);
    var a := StepOf(s, MatcherStep(max, leftover));
    if a.Some? {
      if a.value.max > 0 || s.ingress.consumer.Entered? {
        Progress.MatchProgresses(p, Abstract(s), a.value.max);
      } else {
        VainPop(p, Abstract(s));
      }
    }
  }

  lemma SendIsNearer<B, M, R>(p: P.Program<B, M, R>, s: Whole<B, M, R>, max: nat, leftover: M)
    requires Fit(s) && s.phase.Sending? && max > 0
    requires P.Inv(p, false, Abstract(s)) && Progress.Employed(Abstract(s))
    requires s.responses.producer.GotTail? ==>
      Minus(Unbounded, s.responses.producer.tail, s.responses.head) < s.responses.capacity
    requires Abstract(Matching(Unbounded, p, s, max, leftover))
          == Follow(p, Abstract(s), StepOf(s, MatcherStep(max, leftover)))
    ensures Nearer(s, Matching(Unbounded, p, s, max, leftover))
  {
    SendGetsOn(p, s, max, leftover);
    if StepOf(s, MatcherStep(max, leftover)).Some? {
      Progress.MatchProgresses(p, Abstract(s), max);
    }
  }

  lemma WorkIsNearer<B, M, R>(p: P.Program<B, M, R>, s: Whole<B, M, R>, max: nat, leftover: M)
    requires Fit(s) && !s.phase.Sending? && !s.phase.Popping? && max > 0
    requires P.Inv(p, false, Abstract(s)) && Progress.Employed(Abstract(s))
    requires Abstract(Matching(Unbounded, p, s, max, leftover))
          == Follow(p, Abstract(s), StepOf(s, MatcherStep(max, leftover)))
    ensures Nearer(s, Matching(Unbounded, p, s, max, leftover))
  {
    Progress.MatchProgresses(p, Abstract(s), max);
  }

  lemma RingFacts<B, M, R>(s: Whole<B, M, R>)
    requires Linked(s) && Progress.Free(Abstract(s))
    ensures s.ingress.consumer.Taking? ==>
      |s.ingress.consumer.got| <= s.ingress.consumer.count <= s.ingress.capacity
    ensures s.ingress.consumer.Looked? ==>
      s.ingress.consumer.head <= s.ingress.consumer.tail <= s.ingress.consumer.head + s.ingress.capacity
    ensures s.phase.Sending? && s.responses.producer.GotTail? ==>
      Minus(Unbounded, s.responses.producer.tail, s.responses.head) < s.responses.capacity
  {
  }

  /** Where the matching thread has something to do, each of its single steps brings
      it nearer to the end. */
  lemma EachStepCounts<B, M, R>(p: P.Program<B, M, R>, s: Whole<B, M, R>, max: nat, leftover: M)
    requires Linked(s) && P.Inv(p, false, Abstract(s)) && Progress.Employed(Abstract(s)) && max > 0
    ensures Nearer(s, Matching(Unbounded, p, s, max, leftover))
  {
    MatcherRefines(p, s, max, leftover);
    RingFacts(s);
    match s.phase
    case Popping => PopIsNearer(p, s, max, leftover);
    case Sending(_, _, _) => SendIsNearer(p, s, max, leftover);
    case _ => WorkIsNearer(p, s, max, leftover);
  }

  // ----------------------------------------------------------- in one number

  /** The single steps the matching thread still has to do. */
  function Countdown<B, M, R>(s: Whole<B, M, R>): int {
    Times(s.ingress.capacity + 4, Steps(s)) + InCall(s)
  }

  function Times(k: nat, n: int): int {
    k * n
  }

  /** As many are enough, by what was pushed so far. */
  function Enough(pushed: nat, capacity: nat): int {
    Times(capacity + 4, 20 * pushed + 10 * capacity + 13)
  }

  lemma Scaled(k: nat, few: int, many: int)
    requires few < many
    ensures Times(k, few) + k <= Times(k, many)
  {
    var gap: nat := many - few - 1;
    assert k * many == k * few + k + k * gap;
  }

  lemma InCallIsShort<B, M, R>(s: Whole<B, M, R>)
    requires Linked(s)
    ensures InCall(s) < s.ingress.capacity + 4
  {
  }

  lemma NearerCounts<B, M, R>(s: Whole<B, M, R>, s': Whole<B, M, R>)
    requires Nearer(s, s') && s'.ingress.capacity == s.ingress.capacity && InCall(s') < s'.ingress.capacity + 4
    ensures Countdown(s') < Countdown(s)
  {
    if Steps(s') < Steps(s) {
      Scaled(s.ingress.capacity + 4, Steps(s'), Steps(s));
    }
  }

  lemma Within(k: nat, few: nat, many: nat, extra: nat)
    requires few < many && extra < k
    ensures 0 <= Times(k, few) + extra <= Times(k, many)
  {
    Scaled(k, few, many);
  }

  lemma CountdownWithin<B, M, R>(s: Whole<B, M, R>, pushed: nat)
    requires 0 <= Steps(s) < 20 * pushed + 10 * s.ingress.capacity + 13 && InCall(s) < s.ingress.capacity + 4
    ensures 0 <= Countdown(s) <= Enough(pushed, s.ingress.capacity)
  {
    Within(s.ingress.capacity + 4, Steps(s), 20 * pushed + 10 * s.ingress.capacity + 13, InCall(s));
  }

  lemma CountdownIsBounded<B, M, R>(p: P.Program<B, M, R>, s: Whole<B, M, R>)
    requires Linked(s) && P.Inv(p, false, Abstract(s))
    ensures 0 <= Countdown(s) <= Enough(|In(s.ingress.log)|, s.ingress.capacity)
  {
    InCallIsShort(s);
    StepsAreFew(p, s);
    CountdownWithin(s, |In(s.ingress.log)|);
  }

  lemma StepsAreFew<B, M, R>(p: P.Program<B, M, R>, s: Whole<B, M, R>)
    requires P.Inv(p, false, Abstract(s))
    ensures 0 <= Steps(s) < 20 * |In(s.ingress.log)| + 10 * s.ingress.capacity + 13
  {
    Progress.WorkIsLeft(p, Abstract(s));
  }

  // --------------------------------------------------------- the other side

  /** The single steps left of the push that is under way or comes next. */
  function InPush<T>(producer: Producer<T>): nat {
    match producer
    case Away => 3
    case GotTail(_, _) => 2
    case GotHead(_, _, _) => 1
    case Wrote(_, _) => 0
  }

  lemma PushMovesOn<T>(s: State<T>, item: T)
    requires Shaped(s)
    requires s.producer.GotTail? ==> Minus(Unbounded, s.producer.tail, s.head) < s.capacity
    ensures var s' := Next(Unbounded, s, PushAction(s.producer, item));
            && s'.consumer == s.consumer && s'.capacity == s.capacity
            && (!s.producer.Wrote? ==> InPush(s'.producer) < InPush(s.producer))
  {
  }

  lemma PoppingKeepsProducer<B, M, R>(p: P.Program<B, M, R>, s: Whole<B, M, R>, max: nat, leftover: M)
    requires Fit(s)
    requires s.phase.Popping? ==>
      var a := PopAction(s.ingress.consumer, max, leftover); PopFacts(s.ingress, a, Next(Unbounded, s.ingress, a))
    ensures var s' := Matching(Unbounded, p, s, max, leftover);
            && s'.ingress.producer == s.ingress.producer && In(s'.ingress.log) == In(s.ingress.log)
            && s'.stopped == s.stopped
  {
  }

  lemma MatchingKeepsProducer<B, M, R>(p: P.Program<B, M, R>, s: Whole<B, M, R>, max: nat, leftover: M)
    requires Linked(s)
    ensures var s' := Matching(Unbounded, p, s, max, leftover);
            && s'.ingress.producer == s.ingress.producer && In(s'.ingress.log) == In(s.ingress.log)
            && s'.stopped == s.stopped
  {
    if s.phase.Popping? {
      PopEffect(s.ingress, PopAction(s.ingress.consumer, max, leftover));
    }
    PoppingKeepsProducer(p, s, max, leftover);
  }

  lemma MatchingKeepsClient<B, M, R>(p: P.Program<B, M, R>, s: Whole<B, M, R>, max: nat, leftover: M)
    requires Linked(s)
    ensures var s' := Matching(Unbounded, p, s, max, leftover);
            && s'.responses.consumer == s.responses.consumer && Out(s'.responses.log) == Out(s.responses.log)
            && Seen(s'.responses) == Seen(s.responses) && s'.responses.capacity == s.responses.capacity
  {
    if s.phase.Sending? {
      var a := PushAction(s.responses.producer, s.phase.response);
      PushEffect(s.responses, a);
      PushKeepsSeen(s.responses, a, Next(Unbounded, s.responses, a));
    }
  }

  lemma Split<T>(turns: seq<T>, turn: T, more: seq<T>)
    ensures turns + [turn] + more == turns + ([turn] + more) && turns + [] == turns
    ensures (turns + [turn])[..|turns + [turn]| - 1] == turns
  {
  }
}
