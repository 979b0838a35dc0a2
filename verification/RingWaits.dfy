/** The gateway's two waits on the ring buffers, single step by single step: when the
    wait for the matching thread ends, and when a push retried on a full ring finds
    room. */
module RingWaits {
  import opened SpscMachine
  import opened RingPipeline
  import opened RingProgress
  import opened Progress

  lemma {:induction false} WalkAppend<B, M, R>(w: Width, p: P.Program<B, M, R>, s: Whole<B, M, R>,
                                               a: seq<Step<M, R>>, b: seq<Step<M, R>>)
    requires Fit(s)
    ensures Walk(w, p, s, a + b) == Walk(w, p, Walk(w, p, s, a), b)
  {
    if b == [] {
      assert a + b == a;
    } else {
      WalkAppend(w, p, s, a, b[..|b| - 1]);
      WithoutLast(a, b);
    }
  }

  // --------------------------------------- waiting for the thread to leave

  /** Steps of the matching thread alone, with batches of at least one. */
  predicate OnlyMatching<M, R>(steps: seq<Step<M, R>>) {
    forall k :: 0 <= k < |steps| ==> steps[k].MatcherStep? && steps[k].max > 0
  }

  /** A step of the matching thread is one of its steps in the pipeline, or none. */
  lemma MatchesOnly<B, M, R>(t: Whole<B, M, R>, a: Step<M, R>)
    requires a.MatcherStep?
    ensures StepOf(t, a).None? || StepOf(t, a).value.Match?
  {
  }

  lemma WaitFollows<B, M, R>(p: P.Program<B, M, R>, s: P.Core<B, M, R>, t: Whole<B, M, R>, a: Step<M, R>,
                             t': Whole<B, M, R>)
    requires Continues(p, s, Abstract(t)) && a.MatcherStep? && Abstract(t') == Follow(p, Abstract(t), StepOf(t, a))
    ensures Continues(p, s, Abstract(t'))
  {
    MatchesOnly(t, a);
    if StepOf(t, a).Some? {
      StepContinues(p, s, Abstract(t), StepOf(t, a).value);
    }
  }

  lemma WaitStep<B, M, R>(p: P.Program<B, M, R>, s: P.Core<B, M, R>, t: Whole<B, M, R>, a: Step<M, R>)
    requires Linked(t) && Continues(p, s, Abstract(t)) && a.MatcherStep?
    ensures var t' := Take(Unbounded, p, t, a);
            Linked(t') && Continues(p, s, Abstract(t')) && t'.ingress.capacity == t.ingress.capacity
  {
    TakeRefines(p, t, a);
    TakeKeepsSize(Unbounded, p, t, a);
    WaitFollows(p, s, t, a, Take(Unbounded, p, t, a));
  }

  lemma {:induction false} WaitContinues<B, M, R>(p: P.Program<B, M, R>, s: Whole<B, M, R>, steps: seq<Step<M, R>>)
    requires Linked(s) && P.Inv(p, false, Abstract(s)) && OnlyMatching(steps)
    ensures var t := Walk(Unbounded, p, s, steps);
            Linked(t) && Continues(p, Abstract(s), Abstract(t)) && t.ingress.capacity == s.ingress.capacity
  {
    if steps != [] {
      WaitContinues(p, s, steps[..|steps| - 1]);
      WaitStep(p, Abstract(s), Walk(Unbounded, p, s, steps[..|steps| - 1]), steps[|steps| - 1]);
    }
  }

  /** The thread has left, or has that many fewer steps to do. */
  predicate Shorter<B, M, R>(most: int, t: Whole<B, M, R>, done: nat) {
    t.phase.Left? || Countdown(t) + done <= most
  }

  lemma WaitShortens<B, M, R>(p: P.Program<B, M, R>, s: P.Core<B, M, R>, most: int, t: Whole<B, M, R>, done: nat,
                              a: Step<M, R>)
    requires Linked(t) && Continues(p, s, Abstract(t)) && s.stopped && WillLeave(p, s)
    requires Shorter(most, t, done) && a.MatcherStep? && a.max > 0
    ensures Shorter(most, Take(Unbounded, p, t, a), done + 1)
  {
    if !t.phase.Left? {
      WaitCounts(p, s, t, a.max, a.leftover);
    }
  }

  lemma {:induction false} WaitGetsShorter<B, M, R>(p: P.Program<B, M, R>, s: Whole<B, M, R>, steps: seq<Step<M, R>>)
    requires Linked(s) && P.Inv(p, false, Abstract(s)) && OnlyMatching(steps)
    requires s.stopped && WillLeave(p, Abstract(s))
    ensures Shorter(Countdown(s), Walk(Unbounded, p, s, steps), |steps|)
  {
    if steps != [] {
      var n := |steps| - 1;
      WaitGetsShorter(p, s, steps[..n]);
      WaitContinues(p, s, steps[..n]);
      WaitShortens(p, Abstract(s), Countdown(s), Walk(Unbounded, p, s, steps[..n]), n, steps[n]);
    }
  }

  lemma WaitCounts<B, M, R>(p: P.Program<B, M, R>, s: P.Core<B, M, R>, t: Whole<B, M, R>, max: nat, leftover: M)
    requires Linked(t) && Continues(p, s, Abstract(t)) && s.stopped && WillLeave(p, s) && !t.phase.Left? && max > 0
    ensures Countdown(Matching(Unbounded, p, t, max, leftover)) < Countdown(t)
  {
    assert !Abstract(t).matcher.Exited?;
    FitsMeansFree(p, Abstract(t), Abstract(t).pushed);
    StepCounts(p, t, max, leftover);
  }

  lemma MatchingStaysShort<B, M, R>(p: P.Program<B, M, R>, t: Whole<B, M, R>, max: nat, leftover: M)
    requires Linked(t)
    ensures var t' := Matching(Unbounded, p, t, max, leftover);
            t'.ingress.capacity == t.ingress.capacity && InCall(t') < t'.ingress.capacity + 4
  {
    TakeRefines(p, t, MatcherStep(max, leftover));
    TakeKeepsSize(Unbounded, p, t, MatcherStep(max, leftover));
    InCallIsShort(Matching(Unbounded, p, t, max, leftover));
  }

  lemma StepCounts<B, M, R>(p: P.Program<B, M, R>, t: Whole<B, M, R>, max: nat, leftover: M)
    requires Linked(t) && P.Inv(p, false, Abstract(t)) && Employed(Abstract(t)) && max > 0
    ensures Countdown(Matching(Unbounded, p, t, max, leftover)) < Countdown(t)
  {
    EachStepCounts(p, t, max, leftover);
    MatchingStaysShort(p, t, max, leftover);
    NearerCounts(t, Matching(Unbounded, p, t, max, leftover));
  }

  /** All responses that were not collected fit into the response ring. */
  predicate RingsFit<B, M, R>(p: P.Program<B, M, R>, s: Whole<B, M, R>, messages: seq<M>) {
    |P.FoldReplies(p, messages)| <= |Out(s.responses.log)| + s.responses.capacity
  }

  lemma StillCounting<B, M, R>(p: P.Program<B, M, R>, t: Whole<B, M, R>)
    requires P.Inv(p, false, Abstract(t)) && !t.phase.Left?
    ensures Countdown(t) > 0
  {
    Progress.WorkIsLeft(p, Abstract(t));
    assert Steps(t) > 0;
    Scaled(t.ingress.capacity + 4, 0, Steps(t));
  }

  lemma WaitIsOver<B, M, R>(p: P.Program<B, M, R>, s: Whole<B, M, R>, t: Whole<B, M, R>, done: nat)
    requires Linked(s) && P.Inv(p, false, Abstract(s)) && P.Inv(p, false, Abstract(t))
    requires Shorter(Countdown(s), t, done) && done >= Enough(|In(s.ingress.log)|, s.ingress.capacity)
    ensures t.phase.Left?
  {
    CountdownIsBounded(p, s);
    if !t.phase.Left? {
      StillCounting(p, t);
    }
  }

  lemma WaitEnds<B, M, R>(p: P.Program<B, M, R>, s: Whole<B, M, R>, waits: seq<Step<M, R>>)
    requires Linked(s) && P.Inv(p, false, Abstract(s)) && s.stopped && OnlyMatching(waits)
    requires WillLeave(p, Abstract(s)) && |waits| >= Enough(|In(s.ingress.log)|, s.ingress.capacity)
    ensures Walk(Unbounded, p, s, waits).phase.Left?
  {
    WaitContinues(p, s, waits);
    WaitGetsShorter(p, s, waits);
    WaitIsOver(p, s, Walk(Unbounded, p, s, waits), |waits|);
  }

  lemma LeavingMeans<B, M, R>(p: P.Program<B, M, R>, s: Whole<B, M, R>, t: Whole<B, M, R>)
    requires Continues(p, Abstract(s), Abstract(t)) && t.phase.Left? && !s.phase.Left?
    ensures WillLeave(p, Abstract(s)) && t.executed == In(t.ingress.log)
  {
    LeftMeansFits(p, Abstract(s), Abstract(t));
  }

  lemma WillLeaveOnRings<B, M, R>(p: P.Program<B, M, R>, s: Whole<B, M, R>)
    ensures WillLeave(p, Abstract(s)) <==> s.phase.Left? || RingsFit(p, s, In(s.ingress.log))
  {
  }

  lemma JoinReturnsUnbounded<B, M, R>(p: P.Program<B, M, R>, s: Whole<B, M, R>, waits: seq<Step<M, R>>)
    requires Linked(s) && P.Inv(p, false, Abstract(s)) && s.stopped && OnlyMatching(waits)
    ensures var t, ends := Walk(Unbounded, p, s, waits), s.phase.Left? || RingsFit(p, s, In(s.ingress.log));
            && (ends && |waits| >= Enough(|In(s.ingress.log)|, s.ingress.capacity) ==> t.phase.Left?)
            && (!ends ==> !t.phase.Left?)
            && (t.phase.Left? && !s.phase.Left? ==> t.executed == In(t.ingress.log))
  {
    WaitContinues(p, s, waits);
    WillLeaveOnRings(p, s);
    if WillLeave(p, Abstract(s)) && |waits| >= Enough(|In(s.ingress.log)|, s.ingress.capacity) {
      WaitEnds(p, s, waits);
    }
    if Walk(Unbounded, p, s, waits).phase.Left? && !s.phase.Left? {
      LeavingMeans(p, s, Walk(Unbounded, p, s, waits));
    }
  }

  /** On the ring buffers with 64-bit counters, from every state an interleaving leads
      to: once the flag is set and the network thread only waits, the matching thread
      leaves, within a number of its single steps known beforehand and with every
      pushed message executed, exactly when all responses that were not collected
      fit into the response ring. Otherwise it never leaves. */
  lemma JoinReturns<B, M, R>(p: P.Program<B, M, R>, inSlots: seq<M>, outSlots: seq<R>, before: seq<Step<M, R>>,
                             waits: seq<Step<M, R>>)
    requires Wrapping.Sized(Start(inSlots)) && Wrapping.Sized(Start(outSlots))
    requires Walk(Bits64, p, Begin(p, inSlots, outSlots), before).stopped && OnlyMatching(waits)
    ensures var s := Walk(Bits64, p, Begin(p, inSlots, outSlots), before);
            var t := Walk(Bits64, p, Begin(p, inSlots, outSlots), before + waits);
            var ends := s.phase.Left?
                        || |P.FoldReplies(p, In(s.ingress.log))| <= |Out(s.responses.log)| + |outSlots|;
            && (ends && |waits| >= Enough(|In(s.ingress.log)|, |inSlots|) ==> t.phase.Left?)
            && (!ends ==> !t.phase.Left?)
            && (t.phase.Left? && !s.phase.Left? ==> t.executed == In(t.ingress.log))
  {
    var s := Walk(Unbounded, p, Begin(p, inSlots, outSlots), before);
    WalkWraps(p, inSlots, outSlots, before);
    WalkWraps(p, inSlots, outSlots, before + waits);
    WalkRefines(p, inSlots, outSlots, before);
    WalkKeepsInv(p, inSlots, outSlots, before);
    WalkAppend(Unbounded, p, Begin(p, inSlots, outSlots), before, waits);
    JoinReturnsUnbounded(p, s, waits);
  }

  // ----------------------------------------------------- spinning on a push

  /** Single steps of pushes, and of the matching thread. */
  predicate OnlySpinning<M, R>(steps: seq<Step<M, R>>) {
    forall k :: 0 <= k < |steps| ==>
      (steps[k].ClientPush? && IsPush(steps[k].push)) || (steps[k].MatcherStep? && steps[k].max > 0)
  }

  function MatcherSteps<M, R>(steps: seq<Step<M, R>>): nat {
    if steps == [] then 0
    else MatcherSteps(steps[..|steps| - 1]) + if steps[|steps| - 1].MatcherStep? then 1 else 0
  }

  /** The ring is full, and no push can be under way that has room. */
  lemma FullMeansNoStore<B, M, R>(t: Whole<B, M, R>, a: Step<M, R>)
    requires Linked(t) && Full(Abstract(t)) && a.ClientPush?
    ensures StepOf(t, a).None?
  {
  }

  lemma PushLeavesMatcher<B, M, R>(p: P.Program<B, M, R>, t: Whole<B, M, R>, a: Action<M>)
    requires Fit(t)
    ensures var t' := Take(Unbounded, p, t, ClientPush(a));
            && t'.phase == t.phase && t'.responses == t.responses
            && t'.ingress.consumer == t.ingress.consumer && t'.ingress.capacity == t.ingress.capacity
  {
  }

  lemma SameCountdown<B, M, R>(t: Whole<B, M, R>, t': Whole<B, M, R>)
    requires Abstract(t') == Abstract(t) && t'.phase == t.phase && t'.responses == t.responses
    requires t'.ingress.consumer == t.ingress.consumer && t'.ingress.capacity == t.ingress.capacity
    ensures Countdown(t') == Countdown(t)
  {
  }

  lemma PushKeepsCountdown<B, M, R>(p: P.Program<B, M, R>, t: Whole<B, M, R>, a: Action<M>)
    requires Fit(t) && Abstract(Take(Unbounded, p, t, ClientPush(a))) == Abstract(t)
    ensures Countdown(Take(Unbounded, p, t, ClientPush(a))) == Countdown(t)
  {
    PushLeavesMatcher(p, t, a);
    SameCountdown(t, Take(Unbounded, p, t, ClientPush(a)));
  }

  /** A batch pop that asks for nothing leaves the queue as full as it was. */
  lemma VainPopIsQuiet<B, M, R>(p: P.Program<B, M, R>, s: P.Core<B, M, R>, t: P.Core<B, M, R>)
    requires StillFull(p, s, t) && s.inCapacity > 0 && t.matcher.AtCommit?
    ensures StillFull(p, s, P.MatcherStep(p, t, 0))
  {
    P.MatcherKeepsInv(p, false, t, 0);
    P.MatcherOnlyWorks(p, t, 0);
  }

  /** A step of the pipeline leaves the queue full or makes room. */
  lemma FullOrRoom<B, M, R>(p: P.Program<B, M, R>, s: P.Core<B, M, R>, t: P.Core<B, M, R>, max: nat)
    requires StillFull(p, s, t) && s.inCapacity > 0
    ensures var u := P.MatcherStep(p, t, max);
            StillFull(p, s, u) || (MadeRoom(s, u) && |s.pushed| <= |u.pushed|)
  {
    P.MatcherOnlyWorks(p, t, max);
    if !t.matcher.AtCommit? {
      QuietStep(p, t, max);
    } else if max > 0 {
      PopMakesRoom(p, t, max);
    } else {
      VainPopIsQuiet(p, s, t);
    }
  }

  /** Until there is room, the matching thread is closer to it with every step. */
  ghost predicate Spinning<B, M, R>(p: P.Program<B, M, R>, s: P.Core<B, M, R>, most: int, t: Whole<B, M, R>,
                                    done: nat) {
    && |s.pushed| <= |In(t.ingress.log)|
    && (MadeRoom(s, Abstract(t)) || (StillFull(p, s, Abstract(t)) && Countdown(t) + done <= most))
  }

  lemma FullMeansEmployed<B, M, R>(p: P.Program<B, M, R>, s: P.Core<B, M, R>, t: P.Core<B, M, R>)
    requires StillFull(p, s, t) && WillMakeRoom(p, s) && s.inCapacity > 0
    ensures Employed(t)
  {
    assert t.executed <= Handed(t);
    FitsMeansFree(p, t, Handed(t));
  }

  lemma FollowsFullOrRoom<B, M, R>(p: P.Program<B, M, R>, s: P.Core<B, M, R>, t: P.Core<B, M, R>, max: nat,
                                   u: P.Core<B, M, R>)
    requires StillFull(p, s, t) && s.inCapacity > 0 && (u == t || u == P.MatcherStep(p, t, max))
    ensures |s.pushed| <= |u.pushed| && (MadeRoom(s, u) || StillFull(p, s, u))
  {
    FullOrRoom(p, s, t, max);
  }

  lemma BatchFollowed<B, M, R>(p: P.Program<B, M, R>, t: Whole<B, M, R>, a: Step<M, R>, u: P.Core<B, M, R>)
    returns (m: nat)
    requires a.MatcherStep? && u == Follow(p, Abstract(t), StepOf(t, a))
    ensures u == Abstract(t) || u == P.MatcherStep(p, Abstract(t), m)
  {
    MatchesOnly(t, a);
    m := if StepOf(t, a).Some? then StepOf(t, a).value.max else 0;
  }

  lemma MatchingFollows<B, M, R>(p: P.Program<B, M, R>, t: Whole<B, M, R>, max: nat, leftover: M) returns (m: nat)
    requires Linked(t)
    ensures var u := Abstract(Matching(Unbounded, p, t, max, leftover));
            u == Abstract(t) || u == P.MatcherStep(p, Abstract(t), m)
  {
    MatcherRefines(p, t, max, leftover);
    m := BatchFollowed(p, t, MatcherStep(max, leftover), Abstract(Matching(Unbounded, p, t, max, leftover)));
  }

  lemma SpinMatches<B, M, R>(p: P.Program<B, M, R>, s: P.Core<B, M, R>, most: int, t: Whole<B, M, R>, done: nat,
                             max: nat, leftover: M)
    requires Linked(t) && StillFull(p, s, Abstract(t)) && Countdown(t) + done <= most
    requires WillMakeRoom(p, s) && s.inCapacity > 0 && max > 0
    ensures Spinning(p, s, most, Matching(Unbounded, p, t, max, leftover), done + 1)
  {
    FullMeansEmployed(p, s, Abstract(t));
    StepCounts(p, t, max, leftover);
    var m := MatchingFollows(p, t, max, leftover);
    FollowsFullOrRoom(p, s, Abstract(t), m, Abstract(Matching(Unbounded, p, t, max, leftover)));
  }

  lemma SpinsOnly<B, M, R>(t: Whole<B, M, R>, a: Step<M, R>)
    requires a.ClientPush? || a.MatcherStep?
    ensures StepOf(t, a).None? || StepOf(t, a).value.EnvPush? || StepOf(t, a).value.Match?
  {
  }

  lemma RoomFollows<B, M, R>(p: P.Program<B, M, R>, s: P.Core<B, M, R>, t: Whole<B, M, R>, a: Step<M, R>,
                             t': Whole<B, M, R>)
    requires MadeRoom(s, Abstract(t)) && |s.pushed| <= |In(t.ingress.log)| && (a.ClientPush? || a.MatcherStep?)
    requires Abstract(t') == Follow(p, Abstract(t), StepOf(t, a))
    ensures MadeRoom(s, Abstract(t')) && |s.pushed| <= |In(t'.ingress.log)|
  {
    SpinsOnly(t, a);
    assert Abstract(t').pushed == In(t'.ingress.log);
    if StepOf(t, a).Some? {
      RoomStays(p, s, Abstract(t), StepOf(t, a).value);
    }
  }

  lemma RoomStaysOnRings<B, M, R>(p: P.Program<B, M, R>, s: P.Core<B, M, R>, t: Whole<B, M, R>, a: Step<M, R>)
    requires Linked(t) && MadeRoom(s, Abstract(t)) && |s.pushed| <= |In(t.ingress.log)|
    requires a.ClientPush? || a.MatcherStep?
    ensures var t' := Take(Unbounded, p, t, a); MadeRoom(s, Abstract(t')) && |s.pushed| <= |In(t'.ingress.log)|
  {
    TakeRefines(p, t, a);
    RoomFollows(p, s, t, a, Take(Unbounded, p, t, a));
  }

  lemma SpinStep<B, M, R>(p: P.Program<B, M, R>, s: P.Core<B, M, R>, most: int, t: Whole<B, M, R>, done: nat,
                          a: Step<M, R>)
    requires Linked(t) && Spinning(p, s, most, t, done) && WillMakeRoom(p, s) && s.inCapacity > 0
    requires a.ClientPush? || (a.MatcherStep? && a.max > 0)
    ensures Spinning(p, s, most, Take(Unbounded, p, t, a), if a.MatcherStep? then done + 1 else done)
  {
    if MadeRoom(s, Abstract(t)) {
      RoomStaysOnRings(p, s, t, a);
    } else if a.MatcherStep? {
      SpinMatches(p, s, most, t, done, a.max, a.leftover);
    } else {
      TakeRefines(p, t, a);
      FullMeansNoStore(t, a);
      PushKeepsCountdown(p, t, a.push);
    }
  }

  lemma {:induction false} SpinGetsOn<B, M, R>(p: P.Program<B, M, R>, s: Whole<B, M, R>, steps: seq<Step<M, R>>)
    requires Linked(s) && P.Inv(p, false, Abstract(s)) && OnlySpinning(steps)
    requires Full(Abstract(s)) && WillMakeRoom(p, Abstract(s))
    ensures Linked(Walk(Unbounded, p, s, steps))
    ensures Spinning(p, Abstract(s), Countdown(s), Walk(Unbounded, p, s, steps), MatcherSteps(steps))
  {
    if steps != [] {
      var n := |steps| - 1;
      var t := Walk(Unbounded, p, s, steps[..n]);
      SpinGetsOn(p, s, steps[..n]);
      TakeRefines(p, t, steps[n]);
      SpinStep(p, Abstract(s), Countdown(s), t, MatcherSteps(steps[..n]), steps[n]);
    }
  }

  lemma VainFollows<B, M, R>(p: P.Program<B, M, R>, s: P.Core<B, M, R>, t: Whole<B, M, R>, a: Step<M, R>,
                             t': Whole<B, M, R>)
    requires StillFull(p, s, Abstract(t)) && !WillMakeRoom(p, s) && s.inCapacity > 0
    requires a.ClientPush? || a.MatcherStep?
    requires Abstract(t') == Follow(p, Abstract(t), StepOf(t, a))
    ensures StillFull(p, s, Abstract(t'))
  {
    SpinsOnly(t, a);
    if StepOf(t, a).Some? {
      BlockedStays(p, s, Abstract(t), StepOf(t, a).value);
    }
  }

  lemma VainStep<B, M, R>(p: P.Program<B, M, R>, s: P.Core<B, M, R>, t: Whole<B, M, R>, a: Step<M, R>)
    requires Linked(t) && StillFull(p, s, Abstract(t)) && !WillMakeRoom(p, s) && s.inCapacity > 0
    requires a.ClientPush? || a.MatcherStep?
    ensures Linked(Take(Unbounded, p, t, a)) && StillFull(p, s, Abstract(Take(Unbounded, p, t, a)))
  {
    TakeRefines(p, t, a);
    VainFollows(p, s, t, a, Take(Unbounded, p, t, a));
  }

  lemma {:induction false} SpinsInVain<B, M, R>(p: P.Program<B, M, R>, s: Whole<B, M, R>, steps: seq<Step<M, R>>)
    requires Linked(s) && P.Inv(p, false, Abstract(s)) && OnlySpinning(steps)
    requires Full(Abstract(s)) && !WillMakeRoom(p, Abstract(s))
    ensures var t := Walk(Unbounded, p, s, steps); Linked(t) && StillFull(p, Abstract(s), Abstract(t))
  {
    if steps != [] {
      var n := |steps| - 1;
      SpinsInVain(p, s, steps[..n]);
      VainStep(p, Abstract(s), Walk(Unbounded, p, s, steps[..n]), steps[n]);
    }
  }

  /** What the matching thread has taken out of a full ring. */
  function TakenFrom<B, M, R>(s: Whole<B, M, R>): seq<M> {
    var n := |In(s.ingress.log)| - |Replay(s.ingress.log).items|;
    if n < 0 then [] else In(s.ingress.log)[..n]
  }

  lemma WillMakeRoomOnRings<B, M, R>(p: P.Program<B, M, R>, s: Whole<B, M, R>)
    requires P.Inv(p, false, Abstract(s))
    ensures WillMakeRoom(p, Abstract(s)) <==> !s.phase.Left? && RingsFit(p, s, TakenFrom(s))
  {
    assert In(s.ingress.log) == Handed(Abstract(s)) + Replay(s.ingress.log).items;
    assert TakenFrom(s) == Handed(Abstract(s));
  }

  lemma SpinIsOver<B, M, R>(p: P.Program<B, M, R>, s: Whole<B, M, R>, t: Whole<B, M, R>, done: nat)
    requires Linked(s) && P.Inv(p, false, Abstract(s)) && WillMakeRoom(p, Abstract(s))
    requires Linked(t) && Spinning(p, Abstract(s), Countdown(s), t, done)
    requires done >= Enough(|In(s.ingress.log)|, s.ingress.capacity)
    ensures MadeRoom(Abstract(s), Abstract(t))
  {
    CountdownIsBounded(p, s);
    if !MadeRoom(Abstract(s), Abstract(t)) {
      StillCounting(p, t);
    }
  }

  lemma SpinEndsUnbounded<B, M, R>(p: P.Program<B, M, R>, s: Whole<B, M, R>, spin: seq<Step<M, R>>)
    requires Linked(s) && P.Inv(p, false, Abstract(s)) && OnlySpinning(spin) && Full(Abstract(s))
    ensures var t, ends := Walk(Unbounded, p, s, spin), !s.phase.Left? && RingsFit(p, s, TakenFrom(s));
            && (ends && MatcherSteps(spin) >= Enough(|In(s.ingress.log)|, s.ingress.capacity) ==>
                  MadeRoom(Abstract(s), Abstract(t)))
            && (!ends ==> !MadeRoom(Abstract(s), Abstract(t)))
  {
    WillMakeRoomOnRings(p, s);
    if WillMakeRoom(p, Abstract(s)) {
      SpinGetsOn(p, s, spin);
      if MatcherSteps(spin) >= Enough(|In(s.ingress.log)|, s.ingress.capacity) {
        SpinIsOver(p, s, Walk(Unbounded, p, s, spin), MatcherSteps(spin));
      }
    } else {
      SpinsInVain(p, s, spin);
    }
  }

  /** On the ring buffers with 64-bit counters, from every state an interleaving leads
      to: pushes are retried on a full ring while nothing is collected. After a number
      of single steps of the matching thread known beforehand a push has succeeded or
      finds room, exactly when that thread has not left and the responses to the
      messages it has taken fit into the response ring. Otherwise none ever does. */
  lemma SpinEnds<B, M, R>(p: P.Program<B, M, R>, inSlots: seq<M>, outSlots: seq<R>, before: seq<Step<M, R>>,
                          spin: seq<Step<M, R>>)
    requires Wrapping.Sized(Start(inSlots)) && Wrapping.Sized(Start(outSlots)) && OnlySpinning(spin)
    requires |Replay(Walk(Bits64, p, Begin(p, inSlots, outSlots), before).ingress.log).items| == |inSlots|
    ensures var s := Walk(Bits64, p, Begin(p, inSlots, outSlots), before);
            var t := Walk(Bits64, p, Begin(p, inSlots, outSlots), before + spin);
            var ends := !s.phase.Left?
                        && |P.FoldReplies(p, TakenFrom(s))| <= |Out(s.responses.log)| + |outSlots|;
            var room := |In(t.ingress.log)| > |In(s.ingress.log)| || |Replay(t.ingress.log).items| < |inSlots|;
            && (ends && MatcherSteps(spin) >= Enough(|In(s.ingress.log)|, |inSlots|) ==> room)
            && (!ends ==> !room)
  {
    var s := Walk(Unbounded, p, Begin(p, inSlots, outSlots), before);
    WalkWraps(p, inSlots, outSlots, before);
    WalkWraps(p, inSlots, outSlots, before + spin);
    WalkRefines(p, inSlots, outSlots, before);
    WalkKeepsInv(p, inSlots, outSlots, before);
    WalkAppend(Unbounded, p, Begin(p, inSlots, outSlots), before, spin);
    SpinEndsUnbounded(p, s, spin);
  }
}
