/** When the threads of the gateway wait for each other for good. Nobody collects
    responses while the network thread spins on a push, nor while it waits for the
    matching thread to leave: both waits end exactly when the responses still to
    come fit into the response queue. */
module Progress {
  import opened Types
  import opened SpscMachine
  import opened Pipeline

  /** All responses to `messages` that were not collected fit into their queue. */
  predicate Fits<B, M, R>(p: Program<B, M, R>, s: Core<B, M, R>, messages: seq<M>) {
    |FoldReplies(p, messages)| <= |s.collected| + s.outCapacity
  }

  lemma {:induction false} RepliesGrow<B, M, R>(p: Program<B, M, R>, few: seq<M>, many: seq<M>)
    requires few <= many
    ensures |FoldReplies(p, few)| <= |FoldReplies(p, many)|
  {
    if few != many {
      RepliesGrow(p, few, many[..|many| - 1]);
    }
  }

  // ------------------------------------------------- the matching thread works

  function Rank<B, M, R>(s: Core<B, M, R>): nat {
    match s.matcher
    case AtReply(_, _, _) => 8
    case AtMessage(_, _) => 7
    case AtTop => 6
    case AtEmptyCheck => 5
    case AtPop => if s.ingress.items == [] then 7 else 4
    case AtCommit => 3
    case Exited => 0
  }

  /** An upper bound on the steps the matching thread still has to do. */
  function Work<B, M, R>(s: Core<B, M, R>): int {
    20 * (|s.pushed| - |s.executed|) + 10 * |s.ingress.items| + Rank(s)
  }

  /** The response queue has room for the response at hand. */
  predicate Free<B, M, R>(s: Core<B, M, R>) {
    s.matcher.AtReply? ==> |s.responses.items| < s.outCapacity
  }

  /** The matching thread can do something useful. */
  predicate Employed<B, M, R>(s: Core<B, M, R>) {
    && !s.matcher.Exited? && Free(s)
    && (s.stopped || s.ingress.items != [] || s.matcher.AtMessage? || s.matcher.AtReply?)
  }

  lemma FitsMeansFree<B, M, R>(p: Program<B, M, R>, s: Core<B, M, R>, messages: seq<M>)
    requires Inv(p, false, s) && s.executed <= messages && Fits(p, s, messages)
    ensures Free(s)
  {
    RepliesGrow(p, s.executed, messages);
  }

  /** A thread that is not blocked and has something to do gets on with it. */
  lemma MatchProgresses<B, M, R>(p: Program<B, M, R>, s: Core<B, M, R>, max: nat)
    requires Inv(p, false, s) && Employed(s) && (max > 0 || !s.matcher.AtCommit?)
    ensures Work(MatcherStep(p, s, max)) < Work(s)
  {
  }

  lemma WorkIsLeft<B, M, R>(p: Program<B, M, R>, s: Core<B, M, R>)
    requires Inv(p, false, s)
    ensures Work(s) >= 0 && (Work(s) == 0 ==> s.matcher.Exited?)
  {
  }

  // --------------------------------------- waiting for the thread to leave

  /** Only the matching thread takes steps, and asks for some messages each time. */
  predicate Alone<M>(steps: seq<Step<M>>) {
    forall k :: 0 <= k < |steps| ==> steps[k].Match? && steps[k].max > 0
  }

  predicate WillLeave<B, M, R>(p: Program<B, M, R>, s: Core<B, M, R>) {
    s.matcher.Exited? || Fits(p, s, s.pushed)
  }

  /** What a run of the matching thread alone does not change, and what leaving means. */
  ghost predicate Continues<B, M, R>(p: Program<B, M, R>, s: Core<B, M, R>, t: Core<B, M, R>) {
    && Inv(p, false, t) && t.stopped == s.stopped
    && t.pushed == s.pushed && t.collected == s.collected && t.outCapacity == s.outCapacity
    && (s.matcher.Exited? ==> t.matcher.Exited?)
    && (t.matcher.Exited? ==> s.matcher.Exited? || t.executed == t.pushed)
  }

  lemma StepContinues<B, M, R>(p: Program<B, M, R>, s: Core<B, M, R>, t: Core<B, M, R>, a: Step<M>)
    requires Continues(p, s, t) && a.Match?
    ensures Continues(p, s, Advance(p, false, t, a))
  {
    AdvanceKeepsInv(p, false, t, a);
    MatcherOnlyWorks(p, t, a.max);
    if !t.matcher.Exited? && Advance(p, false, t, a).matcher.Exited? {
      LeavesDrained(p, t, a);
    }
  }

  lemma {:induction false} AloneContinues<B, M, R>(p: Program<B, M, R>, s: Core<B, M, R>, steps: seq<Step<M>>)
    requires Inv(p, false, s) && Alone(steps)
    ensures Continues(p, s, Schedule(p, false, s, steps))
  {
    if steps != [] {
      AloneContinues(p, s, steps[..|steps| - 1]);
      StepContinues(p, s, Schedule(p, false, s, steps[..|steps| - 1]), steps[|steps| - 1]);
    }
  }

  lemma LeftMeansFits<B, M, R>(p: Program<B, M, R>, s: Core<B, M, R>, t: Core<B, M, R>)
    requires Continues(p, s, t) && t.matcher.Exited? && !s.matcher.Exited?
    ensures Fits(p, s, s.pushed)
  {
  }

  lemma AloneStep<B, M, R>(p: Program<B, M, R>, s: Core<B, M, R>, t: Core<B, M, R>, a: Step<M>)
    requires Continues(p, s, t) && s.stopped && WillLeave(p, s) && !t.matcher.Exited? && a.Match? && a.max > 0
    ensures Work(Advance(p, false, t, a)) < Work(t)
  {
    FitsMeansFree(p, t, t.pushed);
    MatchProgresses(p, t, a.max);
  }

  lemma {:induction false} AloneProgresses<B, M, R>(p: Program<B, M, R>, s: Core<B, M, R>, steps: seq<Step<M>>)
    requires Inv(p, false, s) && s.stopped && Alone(steps) && WillLeave(p, s)
    ensures var t := Schedule(p, false, s, steps); t.matcher.Exited? || Work(t) + |steps| <= Work(s)
  {
    if steps != [] {
      var before := steps[..|steps| - 1];
      var t := Schedule(p, false, s, before);
      AloneProgresses(p, s, before);
      AloneContinues(p, s, before);
      if !t.matcher.Exited? {
        AloneStep(p, s, t, steps[|steps| - 1]);
      } else {
        StepContinues(p, t, t, steps[|steps| - 1]);
      }
    }
  }

  /** After the flag is set the network thread waits for the matching thread and
      collects nothing. The wait ends, within a number of steps known beforehand and
      with every pushed message executed, exactly when all responses not collected
      so far fit into the response queue. Otherwise it never ends. */
  lemma JoinReturns<B, M, R>(p: Program<B, M, R>, s: Core<B, M, R>, steps: seq<Step<M>>)
    requires Inv(p, false, s) && s.stopped && Alone(steps)
    ensures var t := Schedule(p, false, s, steps);
            && (WillLeave(p, s) && |steps| >= Work(s) ==> t.matcher.Exited?)
            && (!WillLeave(p, s) ==> !t.matcher.Exited?)
            && (t.matcher.Exited? && !s.matcher.Exited? ==> t.executed == t.pushed)
  {
    var t := Schedule(p, false, s, steps);
    AloneContinues(p, s, steps);
    if WillLeave(p, s) {
      AloneProgresses(p, s, steps);
      WorkIsLeft(p, t);
    } else if t.matcher.Exited? {
      LeftMeansFits(p, s, t);
    }
  }

  /** The last collection after that wait takes 64 responses at most: it delivers
      everything exactly when no more than 64 were still to be collected. */
  lemma FinalDrain<B, M, R>(p: Program<B, M, R>, s: Core<B, M, R>)
    requires Inv(p, false, s) && s.matcher.Exited?
    ensures var t := Advance(p, false, Advance(p, false, s, EnvLook), EnvCollect(64));
            && t.collected <= FoldReplies(p, s.executed)
            && (t.collected == FoldReplies(p, s.executed) <==> |FoldReplies(p, s.executed)| <= |s.collected| + 64)
  {
    AdvanceKeepsInv(p, false, s, EnvLook);
    AdvanceKeepsInv(p, false, Advance(p, false, s, EnvLook), EnvCollect(64));
  }

  // ----------------------------------------------------- spinning on a push

  /** The network thread tries to push `m`, over and over, and nothing else. */
  ghost predicate Spinning<M>(m: M, steps: seq<Step<M>>) {
    forall k :: 0 <= k < |steps| ==> steps[k] == EnvPush(m) || (steps[k].Match? && steps[k].max > 0)
  }

  function Matches<M>(steps: seq<Step<M>>): nat {
    if steps == [] then 0 else Matches(steps[..|steps| - 1]) + if steps[|steps| - 1].Match? then 1 else 0
  }

  /** The messages the matching thread has taken out of the queue. */
  function Handed<B, M, R>(s: Core<B, M, R>): seq<M> {
    s.executed + Pending(s)
  }

  predicate Full<B, M, R>(s: Core<B, M, R>) {
    |s.ingress.items| >= s.inCapacity
  }

  predicate WillMakeRoom<B, M, R>(p: Program<B, M, R>, s: Core<B, M, R>) {
    !s.matcher.Exited? && Fits(p, s, Handed(s))
  }

  /** Nothing was pushed yet, and the queue is as full as it was. */
  ghost predicate StillFull<B, M, R>(p: Program<B, M, R>, s: Core<B, M, R>, t: Core<B, M, R>) {
    && Inv(p, false, t) && Full(t) && t.pushed == s.pushed && t.collected == s.collected
    && t.inCapacity == s.inCapacity && t.outCapacity == s.outCapacity
    && Handed(t) == Handed(s)
    && (t.matcher.Exited? <==> s.matcher.Exited?)
  }

  lemma FirstHanded<M>(executed: seq<M>, batch: seq<M>, i: nat)
    requires i < |batch|
    ensures executed + batch[i..] == (executed + [batch[i]]) + batch[i + 1..]
  {
  }

  lemma HandedKept<B, M, R>(p: Program<B, M, R>, s: Core<B, M, R>, max: nat)
    requires s.matcher.AtMessage? && s.matcher.i < s.matcher.n == |s.batch|
    ensures Handed(MatcherStep(p, s, max)) == Handed(s)
  {
    FirstHanded(s.executed, s.batch, s.matcher.i);
    assert Pending(MatcherStep(p, s, max)) == s.batch[s.matcher.i + 1..];
  }

  /** Only a batch pop takes messages out of the queue. */
  lemma QuietStep<B, M, R>(p: Program<B, M, R>, s: Core<B, M, R>, max: nat)
    requires Inv(p, false, s) && Full(s) && s.inCapacity > 0 && !s.matcher.AtCommit?
    ensures StillFull(p, s, MatcherStep(p, s, max))
  {
    MatcherKeepsInv(p, false, s, max);
    MatcherOnlyWorks(p, s, max);
    if s.matcher.AtMessage? && s.matcher.i < s.matcher.n {
      HandedKept(p, s, max);
    }
  }

  lemma PopMakesRoom<B, M, R>(p: Program<B, M, R>, s: Core<B, M, R>, max: nat)
    requires Inv(p, false, s) && s.matcher.AtCommit? && max > 0
    ensures !Full(MatcherStep(p, s, max))
  {
  }

  /** A thread that has sent all it computed is not held up. */
  lemma NothingOwed<B, M, R>(p: Program<B, M, R>, s: Core<B, M, R>)
    requires Inv(p, false, s) && s.matcher.AtCommit?
    ensures Fits(p, s, Handed(s))
  {
    assert Handed(s) == s.executed;
  }

  lemma NeverPops<B, M, R>(p: Program<B, M, R>, s: Core<B, M, R>, t: Core<B, M, R>)
    requires StillFull(p, s, t) && !WillMakeRoom(p, s)
    ensures !t.matcher.AtCommit?
  {
    if t.matcher.AtCommit? {
      NothingOwed(p, t);
    }
  }

  lemma BlockedStays<B, M, R>(p: Program<B, M, R>, s: Core<B, M, R>, t: Core<B, M, R>, a: Step<M>)
    requires StillFull(p, s, t) && !WillMakeRoom(p, s) && s.inCapacity > 0 && (a.EnvPush? || a.Match?)
    ensures StillFull(p, s, Advance(p, false, t, a))
  {
    if a.EnvPush? {
      assert Advance(p, false, t, a) == t;
    } else {
      NeverPops(p, s, t);
      QuietStep(p, t, a.max);
    }
  }

  /** Where there will be room, a step of the matching thread leaves the queue full
      or takes messages out of it, and in any case gets on. */
  lemma WorkGoesOn<B, M, R>(p: Program<B, M, R>, s: Core<B, M, R>, t: Core<B, M, R>, max: nat)
    requires StillFull(p, s, t) && WillMakeRoom(p, s) && s.inCapacity > 0 && max > 0
    ensures var u := MatcherStep(p, t, max); (StillFull(p, s, u) || !Full(u)) && Work(u) < Work(t)
  {
    assert t.executed <= Handed(t);
    FitsMeansFree(p, t, Handed(t));
    MatchProgresses(p, t, max);
    if t.matcher.AtCommit? {
      PopMakesRoom(p, t, max);
    } else {
      QuietStep(p, t, max);
    }
  }

  /** The spinning push has succeeded, or would succeed now. */
  predicate MadeRoom<B, M, R>(s: Core<B, M, R>, t: Core<B, M, R>) {
    |t.pushed| > |s.pushed| || !Full(t)
  }

  lemma RoomStays<B, M, R>(p: Program<B, M, R>, s: Core<B, M, R>, t: Core<B, M, R>, a: Step<M>)
    requires MadeRoom(s, t) && |s.pushed| <= |t.pushed| && (a.EnvPush? || a.Match?)
    ensures MadeRoom(s, Advance(p, false, t, a)) && |s.pushed| <= |Advance(p, false, t, a).pushed|
  {
    if a.Match? {
      MatcherOnlyWorks(p, t, a.max);
    }
  }

  /** Until there is room, the matching thread is closer to it with every step. */
  ghost predicate Spun<B, M, R>(p: Program<B, M, R>, s: Core<B, M, R>, t: Core<B, M, R>, matches: nat) {
    && |s.pushed| <= |t.pushed|
    && (MadeRoom(s, t) || (StillFull(p, s, t) && Work(t) + matches <= Work(s)))
  }

  lemma MatchGoesOn<B, M, R>(p: Program<B, M, R>, s: Core<B, M, R>, t: Core<B, M, R>, matches: nat, max: nat)
    requires StillFull(p, s, t) && Work(t) + matches <= Work(s)
    requires WillMakeRoom(p, s) && s.inCapacity > 0 && max > 0
    ensures Spun(p, s, MatcherStep(p, t, max), matches + 1)
  {
    WorkGoesOn(p, s, t, max);
    MatcherOnlyWorks(p, t, max);
  }

  lemma SpunOn<B, M, R>(p: Program<B, M, R>, s: Core<B, M, R>, t: Core<B, M, R>, matches: nat, a: Step<M>)
    requires Spun(p, s, t, matches) && WillMakeRoom(p, s) && s.inCapacity > 0
    requires a.EnvPush? || (a.Match? && a.max > 0)
    ensures Spun(p, s, Advance(p, false, t, a), if a.Match? then matches + 1 else matches)
  {
    if MadeRoom(s, t) {
      RoomStays(p, s, t, a);
    } else if a.Match? {
      MatchGoesOn(p, s, t, matches, a.max);
    } else {
      assert Advance(p, false, t, a) == t;
    }
  }

  lemma {:induction false} SpinProgresses<B, M, R>(p: Program<B, M, R>, s: Core<B, M, R>, m: M, steps: seq<Step<M>>)
    requires Inv(p, false, s) && Full(s) && s.inCapacity > 0 && WillMakeRoom(p, s) && Spinning(m, steps)
    ensures Spun(p, s, Schedule(p, false, s, steps), Matches(steps))
  {
    if steps != [] {
      var before, a := steps[..|steps| - 1], steps[|steps| - 1];
      SpinProgresses(p, s, m, before);
      SpunOn(p, s, Schedule(p, false, s, before), Matches(before), a);
    }
  }

  lemma {:induction false} SpinsForever<B, M, R>(p: Program<B, M, R>, s: Core<B, M, R>, m: M, steps: seq<Step<M>>)
    requires Inv(p, false, s) && Full(s) && s.inCapacity > 0 && !WillMakeRoom(p, s) && Spinning(m, steps)
    ensures StillFull(p, s, Schedule(p, false, s, steps))
  {
    if steps != [] {
      SpinsForever(p, s, m, steps[..|steps| - 1]);
      BlockedStays(p, s, Schedule(p, false, s, steps[..|steps| - 1]), steps[|steps| - 1]);
    }
  }

  /** A push that met a full queue is tried again and again, and nothing is collected
      meanwhile. It succeeds, after a number of steps of the matching thread known
      beforehand, exactly when that thread has not left and the responses to the
      messages it has taken fit into the response queue. Otherwise it never does. */
  lemma SpinEnds<B, M, R>(p: Program<B, M, R>, s: Core<B, M, R>, m: M, steps: seq<Step<M>>)
    requires Inv(p, false, s) && Full(s) && s.inCapacity > 0 && Spinning(m, steps)
    ensures var t := Schedule(p, false, s, steps);
            && (WillMakeRoom(p, s) && Matches(steps) >= Work(s) ==>
                  |Advance(p, false, t, EnvPush(m)).pushed| > |s.pushed|)
            && (!WillMakeRoom(p, s) ==> Advance(p, false, t, EnvPush(m)).pushed == s.pushed)
  {
    var t := Schedule(p, false, s, steps);
    if WillMakeRoom(p, s) {
      SpinProgresses(p, s, m, steps);
      if StillFull(p, s, t) {
        WorkIsLeft(p, t);
      }
    } else {
      SpinsForever(p, s, m, steps);
    }
  }

  // --------------------------------------------------- both waits can be endless

  lemma OneStepMore<B, M, R>(p: Program<B, M, R>, s: Core<B, M, R>, steps: seq<Step<M>>, a: Step<M>)
    ensures Schedule(p, false, s, steps + [a]) == Advance(p, false, Schedule(p, false, s, steps), a)
  {
    assert (steps + [a])[..|steps|] == steps;
  }

  /** One message executed, its response enqueued and not collected. */
  function Busy<B, M, R>(p: Program<B, M, R>, m: M, r: R): Core<B, M, R> {
    Core(1, 1, Fifo([], 1), Fifo([r], 0), false, AtTop, [], p.step(p.start, m), [m], [m], [r], [])
  }

  /** The states on the way there, from the empty queues. */
  function Stage<B, M, R>(p: Program<B, M, R>, m: M, r: R, k: nat): Core<B, M, R> {
    var one, done := Init(p, 1, 1).(ingress := Fifo([m], 0), pushed := [m]), Busy(p, m, r);
    if k == 0 then Init(p, 1, 1)
    else if k == 1 then one
    else if k == 2 then one.(matcher := AtPop)
    else if k == 3 then one.(ingress := Fifo([m], 1), matcher := AtCommit)
    else if k == 4 then one.(ingress := Fifo([], 1), batch := [m], matcher := AtMessage(0, 1))
    else if k == 5 then done.(responses := Fifo([], 0), sent := [], batch := [m], matcher := AtReply(0, 1, r))
    else if k == 6 then done.(batch := [m], matcher := AtMessage(1, 1))
    else done
  }

  lemma NextStage<B, M, R>(p: Program<B, M, R>, m: M, r: R, k: nat)
    requires p.reply(p.start, m) == Some(r) && k < 7
    ensures Advance(p, false, Stage(p, m, r, k), if k == 0 then EnvPush(m) else Match(64)) == Stage(p, m, r, k + 1)
  {
    assert [] + [m] == [m] && [] + [r] == [r];
    assert [m][..1] == [m] && [m][1..] == [];
  }

  lemma FirstRound<B, M, R>(p: Program<B, M, R>, m: M, r: R) returns (steps: seq<Step<M>>)
    requires p.reply(p.start, m) == Some(r)
    ensures Schedule(p, false, Init(p, 1, 1), steps) == Busy(p, m, r)
  {
    steps := [];
    for k := 0 to 7
      invariant Schedule(p, false, Init(p, 1, 1), steps) == Stage(p, m, r, k)
    {
      var a := if k == 0 then EnvPush(m) else Match(64);
      NextStage(p, m, r, k);
      OneStepMore(p, Init(p, 1, 1), steps, a);
      steps := steps + [a];
    }
  }

  lemma SecondRound<B, M, R>(p: Program<B, M, R>, m: M, r: R, r2: R, before: seq<Step<M>>) returns (steps: seq<Step<M>>)
    requires Schedule(p, false, Init(p, 1, 1), before) == Busy(p, m, r) && p.reply(p.step(p.start, m), m) == Some(r2)
    ensures var s := Schedule(p, false, Init(p, 1, 1), steps);
            && s.ingress.items == [m] && s.inCapacity == s.outCapacity == 1 && s.matcher == AtReply(0, 1, r2)
            && s.collected == [] && s.executed == [m, m] && s.pushed == [m, m, m] && s.batch == [m]
  {
    steps := before;
    var s := Busy(p, m, r);
    for k := 0 to 6
      invariant s == Schedule(p, false, Init(p, 1, 1), steps)
      invariant var two := Busy(p, m, r).(ingress := Fifo([m], 1), pushed := [m, m]);
                if k == 0 then s == Busy(p, m, r)
                else if k == 1 then s == two
                else if k == 2 then s == two.(matcher := AtPop)
                else if k == 3 then s == two.(matcher := AtCommit)
                else if k == 4 then s == two.(ingress := Fifo([], 1), batch := [m], matcher := AtMessage(0, 1))
                else
                  s == two.(ingress := Fifo(if k == 5 then [] else [m], 1), batch := [m], matcher := AtReply(0, 1, r2),
                            book := p.step(two.book, m), executed := [m, m],
                            pushed := if k == 5 then [m, m] else [m, m, m])
    {
      var a := if k == 0 || k == 5 then EnvPush(m) else Match(64);
      OneStepMore(p, Init(p, 1, 1), steps, a);
      steps := steps + [a];
      s := Advance(p, false, s, a);
    }
  }

  lemma TwoReplies<B, M, R>(p: Program<B, M, R>, m: M)
    requires p.reply(p.start, m).Some? && p.reply(p.step(p.start, m), m).Some?
    ensures |FoldReplies(p, [m, m])| == 2
  {
    FoldOne(p, [], m);
    FoldOne(p, [m], m);
    assert [m] + [m] == [m, m] && [] + [m] == [m];
  }

  /** With queues of one and three messages that are all answered: the network thread
      can come to spin on a push, and to wait for the matching thread, for good. */
  lemma MayBlock<B, M, R>(p: Program<B, M, R>, m: M) returns (steps: seq<Step<M>>)
    requires p.reply(p.start, m).Some? && p.reply(p.step(p.start, m), m).Some?
    ensures var s := Schedule(p, false, Init(p, 1, 1), steps);
            Full(s) && !WillMakeRoom(p, s) && !WillLeave(p, s)
  {
    var r, r2 := p.reply(p.start, m).value, p.reply(p.step(p.start, m), m).value;
    steps := FirstRound(p, m, r);
    steps := SecondRound(p, m, r, r2, steps);
    TwoReplies(p, m);
    RepliesGrow(p, [m, m], [m, m, m]);
    assert [m, m] + [m][1..] == [m, m];
  }
}
