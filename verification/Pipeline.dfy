/** The matching thread between its ingress queue and its response queue. Both
    queues are the bounded queues that `SpscWrap.QueueIsLinearizable` shows the
    ring buffer to be; every step below is one event of one of them, one read of
    the stop flag, or the execution of one message. Whatever the other side does
    (pushing, stopping, collecting responses) happens at any point in between. */
module Pipeline {
  import opened Types
  import opened SpscMachine

  /** What the matching thread computes: a book, changed by each message, and
      possibly a response. */
  datatype Program<!B, !M, !R> = Program(start: B, step: (B, M) -> B, reply: (B, M) -> Option<R>)

  /** The program counter of the matching loop. */
  datatype Matcher<R> =
    | AtTop
    | AtEmptyCheck
    | AtPop
    | AtCommit
    | AtMessage(i: nat, n: nat)
    | AtReply(i: nat, n: nat, response: R)
    | Exited

  datatype Core<B, M, R> = Core(
    inCapacity: nat,
    outCapacity: nat,
    ingress: Fifo<M>,
    responses: Fifo<R>,
    stopped: bool,
    matcher: Matcher<R>,
    batch: seq<M>,
    book: B,
    // histories
    pushed: seq<M>,
    executed: seq<M>,
    sent: seq<R>,
    collected: seq<R>)

  datatype Step<M> =
    | EnvPush(message: M)
    | EnvStop
    | EnvLook
    | EnvCollect(most: nat)
    | Match(max: nat)

  function Init<B, M, R>(p: Program<B, M, R>, inCapacity: nat, outCapacity: nat): Core<B, M, R> {
    Core(inCapacity, outCapacity, Fifo([], 0), Fifo([], 0), false, AtTop, [], p.start, [], [], [], [])
  }

  // ------------------------------------------------------- the simple form

  function FoldBook<B, M, R>(p: Program<B, M, R>, messages: seq<M>): B {
    if messages == [] then p.start
    else p.step(FoldBook(p, messages[..|messages| - 1]), messages[|messages| - 1])
  }

  /** The responses of executing the messages one after the other. */
  function FoldReplies<B, M, R>(p: Program<B, M, R>, messages: seq<M>): seq<R> {
    if messages == [] then []
    else
      var before := messages[..|messages| - 1];
      FoldReplies(p, before) + Reply(p.reply(FoldBook(p, before), messages[|messages| - 1]))
  }

  function Reply<R>(r: Option<R>): seq<R> {
    if r.None? then [] else [r.value]
  }

  /** When every message is answered, the responses are the answers, in order. */
  lemma {:induction false} RepliesAre<B, M, R>(p: Program<B, M, R>, messages: seq<M>, answers: seq<R>)
    requires |answers| == |messages|
    requires forall k :: 0 <= k < |messages| ==> p.reply(FoldBook(p, messages[..k]), messages[k]) == Some(answers[k])
    ensures FoldReplies(p, messages) == answers
  {
    if messages != [] {
      var n := |messages| - 1;
      forall k | 0 <= k < n ensures p.reply(FoldBook(p, messages[..n][..k]), messages[..n][k])
         == Some(answers[..n][k]) {
        assert messages[..n][..k] == messages[..k];
      }
      RepliesAre(p, messages[..n], answers[..n]);
      assert answers == answers[..n] + [answers[n]];
    }
  }

  // ------------------------------------------------------------- the steps

  /** The next step of the matching loop; `max` is the batch size it asks for. */
  function MatcherStep<B, M, R>(p: Program<B, M, R>, s: Core<B, M, R>, max: nat): Core<B, M, R> {
    match s.matcher
    case AtTop => s.(matcher := if s.stopped then AtEmptyCheck else AtPop)
    case AtEmptyCheck => s.(matcher := if s.ingress.items == [] then Exited else AtPop)
    case AtPop =>
      var available := |s.ingress.items|;
      s.(ingress := After(s.ingress, Saw(available)), matcher := if available == 0 then AtTop else AtCommit)
    case AtCommit =>
      if s.ingress.seen > |s.ingress.items| then s
      else
        var items := s.ingress.items[..Min(s.ingress.seen, max)];
        s.(ingress := After(s.ingress, Popped(max, items)), batch := s.batch + items,
           matcher := if items == [] then AtTop else AtMessage(0, |items|))
    case AtMessage(i, n) =>
      if i < n then
        if i >= |s.batch| then s
        else
          var m := s.batch[i];
          var r := p.reply(s.book, m);
          s.(book := p.step(s.book, m), executed := s.executed + [m],
             matcher := if r.None? then AtMessage(i + 1, n) else AtReply(i, n, r.value))
      else s.(batch := [], matcher := AtTop)
    case AtReply(i, n, r) =>
      if |s.responses.items| >= s.outCapacity then s
      else s.(responses := After(s.responses, Pushed(r)), sent := s.sent + [r], matcher := AtMessage(i + 1, n))
    case Exited => s
  }

  /** `orderly`: nothing is pushed once the stop flag is set. */
  function Advance<B, M, R>(p: Program<B, M, R>, orderly: bool, s: Core<B, M, R>, a: Step<M>): Core<B, M, R> {
    match a
    case EnvPush(m) =>
      if |s.ingress.items| >= s.inCapacity || (orderly && s.stopped) then s
      else s.(ingress := After(s.ingress, Pushed(m)), pushed := s.pushed + [m])
    case EnvStop => s.(stopped := true)
    case EnvLook => s.(responses := After(s.responses, Saw(|s.responses.items|)))
    case EnvCollect(most) =>
      if s.responses.seen > |s.responses.items| then s
      else
        var items := s.responses.items[..Min(s.responses.seen, most)];
        s.(responses := After(s.responses, Popped(most, items)).(seen := 0), collected := s.collected + items)
    case Match(max) => MatcherStep(p, s, max)
  }

  function Schedule<B, M, R>(p: Program<B, M, R>, orderly: bool, s: Core<B, M, R>, steps: seq<Step<M>>): Core<B, M, R> {
    if steps == [] then s
    else Advance(p, orderly, Schedule(p, orderly, s, steps[..|steps| - 1]), steps[|steps| - 1])
  }

  // ------------------------------------------------------------- invariant

  /** Messages that left the ingress queue and were not executed yet. */
  function Pending<B, M, R>(s: Core<B, M, R>): seq<M> {
    match s.matcher
    case AtMessage(i, n) => if i <= |s.batch| then s.batch[i..] else []
    case AtReply(i, n, _) => if i < |s.batch| then s.batch[i + 1..] else []
    case _ => []
  }

  /** A response that was computed and not enqueued yet. */
  function Unsent<B, M, R>(s: Core<B, M, R>): seq<R> {
    if s.matcher.AtReply? then [s.matcher.response] else []
  }

  ghost predicate Inv<B, M, R>(p: Program<B, M, R>, orderly: bool, s: Core<B, M, R>) {
    && s.pushed == s.executed + Pending(s) + s.ingress.items
    && |s.ingress.items| <= s.inCapacity && |s.responses.items| <= s.outCapacity
    && s.book == FoldBook(p, s.executed)
    && s.sent + Unsent(s) == FoldReplies(p, s.executed)
    && s.sent == s.collected + s.responses.items
    && s.responses.seen <= |s.responses.items|
    && (match s.matcher
        case AtMessage(i, n) => i <= n == |s.batch|
        case AtReply(i, n, _) => i < n == |s.batch|
        case AtCommit => s.batch == [] && 0 < s.ingress.seen <= |s.ingress.items|
        case AtEmptyCheck => s.batch == [] && s.stopped
        case Exited => s.batch == [] && s.stopped && (orderly ==> s.ingress.items == [])
        case _ => s.batch == [])
  }

  lemma FoldOne<B, M, R>(p: Program<B, M, R>, messages: seq<M>, m: M)
    ensures FoldBook(p, messages + [m]) == p.step(FoldBook(p, messages), m)
    ensures FoldReplies(p, messages + [m]) == FoldReplies(p, messages) + Reply(p.reply(FoldBook(p, messages), m))
  {
  }

  lemma {:induction false} ExecutionAnswers<B, M, R>(p: Program<B, M, R>, s: Core<B, M, R>, max: nat)
    requires s.matcher.AtMessage? && s.matcher.i < s.matcher.n == |s.batch|
    requires s.book == FoldBook(p, s.executed) && s.sent + Unsent(s) == FoldReplies(p, s.executed)
    ensures var s' := MatcherStep(p, s, max);
            s'.book == FoldBook(p, s'.executed) && s'.sent + Unsent(s') == FoldReplies(p, s'.executed)
  {
    FoldOne(p, s.executed, s.batch[s.matcher.i]);
    assert s.sent + [] == s.sent;
  }

  lemma ExecutionTakesFirst<B, M, R>(p: Program<B, M, R>, s: Core<B, M, R>, max: nat)
    requires s.matcher.AtMessage? && s.matcher.i < s.matcher.n == |s.batch|
    ensures var s' := MatcherStep(p, s, max);
            s'.executed + Pending(s') + s'.ingress.items == s.executed + Pending(s) + s.ingress.items
  {
    FirstPending(s.executed, s.batch, s.matcher.i, s.ingress.items);
  }

  lemma {:induction false} ExecutionKeepsInv<B, M, R>(p: Program<B, M, R>, orderly: bool, s: Core<B, M, R>, max: nat)
    requires Inv(p, orderly, s) && s.matcher.AtMessage? && s.matcher.i < s.matcher.n
    ensures Inv(p, orderly, MatcherStep(p, s, max))
  {
    ExecutionAnswers(p, s, max);
    ExecutionTakesFirst(p, s, max);
  }

  lemma BatchEndKeepsInv<B, M, R>(p: Program<B, M, R>, orderly: bool, s: Core<B, M, R>, max: nat)
    requires Inv(p, orderly, s) && s.matcher.AtMessage? && s.matcher.i == s.matcher.n
    ensures Inv(p, orderly, MatcherStep(p, s, max))
  {
    assert s.batch[s.matcher.i..] == [];
  }

  lemma FirstPending<M>(executed: seq<M>, batch: seq<M>, i: nat, queued: seq<M>)
    requires i < |batch|
    ensures executed + batch[i..] + queued == (executed + [batch[i]]) + batch[i + 1..] + queued
  {
  }

  lemma PopKeepsInv<B, M, R>(p: Program<B, M, R>, orderly: bool, s: Core<B, M, R>, max: nat)
    requires Inv(p, orderly, s) && s.matcher.AtCommit?
    ensures Inv(p, orderly, MatcherStep(p, s, max))
  {
    Popping(s.executed, s.ingress.items, Min(s.ingress.seen, max));
    assert [] + s.ingress.items[..Min(s.ingress.seen, max)] == s.ingress.items[..Min(s.ingress.seen, max)];
  }

  lemma Popping<M>(executed: seq<M>, queued: seq<M>, k: nat)
    requires k <= |queued|
    ensures executed + [] + queued == executed + queued[..k][0..] + queued[k..]
    ensures k == 0 ==> queued[..k] == [] && queued[k..] == queued
    ensures |queued[..k]| == k
  {
  }

  lemma SendKeepsInv<B, M, R>(p: Program<B, M, R>, orderly: bool, s: Core<B, M, R>, max: nat)
    requires Inv(p, orderly, s) && s.matcher.AtReply?
    ensures Inv(p, orderly, MatcherStep(p, s, max))
  {
  }

  lemma MatcherKeepsInv<B, M, R>(p: Program<B, M, R>, orderly: bool, s: Core<B, M, R>, max: nat)
    requires Inv(p, orderly, s)
    ensures Inv(p, orderly, MatcherStep(p, s, max))
  {
    match s.matcher
    case AtMessage(i, n) =>
      if i < n {
        ExecutionKeepsInv(p, orderly, s, max);
      } else {
        BatchEndKeepsInv(p, orderly, s, max);
      }
    case AtCommit => PopKeepsInv(p, orderly, s, max);
    case AtReply(_, _, _) => SendKeepsInv(p, orderly, s, max);
    case AtTop =>
    case AtEmptyCheck =>
    case AtPop =>
    case Exited =>
  }

  lemma Collecting<R>(collected: seq<R>, items: seq<R>, k: nat)
    requires k <= |items|
    ensures collected + items == (collected + items[..k]) + items[k..]
  {
  }

  lemma {:induction false} CollectKeepsInv<B, M, R>(p: Program<B, M, R>, orderly: bool, s: Core<B, M, R>, most: nat)
    requires Inv(p, orderly, s)
    ensures Inv(p, orderly, Advance(p, orderly, s, EnvCollect(most)))
  {
    var k := Min(s.responses.seen, most);
    Collecting(s.collected, s.responses.items, k);
    var s' := Advance(p, orderly, s, EnvCollect(most));
    assert s'.responses.items == s.responses.items[k..] && s'.responses.seen == 0;
    assert Pending(s') == Pending(s) && Unsent(s') == Unsent(s);
  }

  lemma ArrivalKeepsInv<B, M, R>(p: Program<B, M, R>, orderly: bool, s: Core<B, M, R>, m: M)
    requires Inv(p, orderly, s)
    ensures Inv(p, orderly, Advance(p, orderly, s, EnvPush(m)))
  {
  }

  lemma AdvanceKeepsInv<B, M, R>(p: Program<B, M, R>, orderly: bool, s: Core<B, M, R>, a: Step<M>)
    requires Inv(p, orderly, s)
    ensures Inv(p, orderly, Advance(p, orderly, s, a))
  {
    match a
    case EnvPush(m) => ArrivalKeepsInv(p, orderly, s, m);
    case EnvCollect(most) => CollectKeepsInv(p, orderly, s, most);
    case Match(max) => MatcherKeepsInv(p, orderly, s, max);
    case EnvStop =>
    case EnvLook =>
  }

  lemma {:induction false} ScheduleKeepsInv<B, M, R>(p: Program<B, M, R>, orderly: bool, inCapacity: nat,
                                                     outCapacity: nat, steps: seq<Step<M>>)
    ensures Inv(p, orderly, Schedule(p, orderly, Init(p, inCapacity, outCapacity), steps))
  {
    if steps != [] {
      ScheduleKeepsInv(p, orderly, inCapacity, outCapacity, steps[..|steps| - 1]);
      AdvanceKeepsInv(p, orderly, Schedule(p, orderly, Init(p, inCapacity, outCapacity), steps[..|steps| - 1]),
                      steps[|steps| - 1]);
    }
  }

  lemma PrefixGrows<M>(prefix: seq<M>, all: seq<M>)
    requires prefix <= all && |prefix| < |all|
    ensures prefix + [all[|prefix|]] <= all
  {
  }

  /** The matching thread neither pushes messages nor collects responses. */
  lemma MatcherOnlyWorks<B, M, R>(p: Program<B, M, R>, s: Core<B, M, R>, max: nat)
    ensures var s' := MatcherStep(p, s, max);
            && s'.pushed == s.pushed && s'.collected == s.collected && s'.stopped == s.stopped
            && s'.inCapacity == s.inCapacity && s'.outCapacity == s.outCapacity
  {
  }

  // --------------------------------------------------------------- theorems

  /** At every point of every interleaving, for any batch sizes, the book and the
      responses are those of executing a prefix of the pushed messages in order,
      at most the last response still to be enqueued. */
  lemma ScheduleDoesNotMatter<B, M, R>(p: Program<B, M, R>, inCapacity: nat, outCapacity: nat, steps: seq<Step<M>>)
    ensures var s := Schedule(p, false, Init(p, inCapacity, outCapacity), steps);
            var prefix := s.executed;
            && prefix <= s.pushed
            && s.book == FoldBook(p, prefix)
            && s.sent <= FoldReplies(p, prefix) && |FoldReplies(p, prefix)| <= |s.sent| + 1
            && s.collected <= s.sent
  {
    ScheduleKeepsInv(p, false, inCapacity, outCapacity, steps);
  }

  /** Two schedules that pushed the same messages and executed as many of them
      hold the same book and have computed the same responses. */
  lemma SchedulesAgree<B, M, R>(p: Program<B, M, R>, s: Core<B, M, R>, t: Core<B, M, R>)
    requires Inv(p, false, s) && Inv(p, false, t)
    requires s.pushed == t.pushed && |s.executed| == |t.executed|
    ensures s.book == t.book && s.sent + Unsent(s) == t.sent + Unsent(t)
  {
    assert s.executed == s.pushed[..|s.executed|] && t.executed == t.pushed[..|t.executed|];
  }

  /** If nothing is pushed after the stop flag is set, the matching thread has
      executed every pushed message, once and in order, when it leaves its loop,
      and enqueued every response. */
  lemma DrainOnExit<B, M, R>(p: Program<B, M, R>, inCapacity: nat, outCapacity: nat, steps: seq<Step<M>>)
    ensures var s := Schedule(p, true, Init(p, inCapacity, outCapacity), steps);
            s.matcher.Exited? ==>
              s.executed == s.pushed && s.book == FoldBook(p, s.pushed) && s.sent == FoldReplies(p, s.pushed)
  {
    ScheduleKeepsInv(p, true, inCapacity, outCapacity, steps);
  }

  // ----------------------------------------- when nothing is left behind

  /** The step is a push that finds room in the queue. */
  predicate TakesEffect<B, M, R>(s: Core<B, M, R>, a: Step<M>) {
    a.EnvPush? && |s.ingress.items| < s.inCapacity
  }

  /** On the way some push took effect after the matching thread had left, that is,
      after the emptiness check that let it leave. */
  predicate LatePush<B, M, R>(p: Program<B, M, R>, s: Core<B, M, R>, steps: seq<Step<M>>) {
    steps != []
    && var before := Schedule(p, false, s, steps[..|steps| - 1]);
    LatePush(p, s, steps[..|steps| - 1]) || (before.matcher.Exited? && TakesEffect(before, steps[|steps| - 1]))
  }

  lemma LeavesDrained<B, M, R>(p: Program<B, M, R>, s: Core<B, M, R>, a: Step<M>)
    requires Inv(p, false, s) && !s.matcher.Exited? && Advance(p, false, s, a).matcher.Exited?
    ensures s.matcher.AtEmptyCheck? && Advance(p, false, s, a).executed == Advance(p, false, s, a).pushed
  {
  }

  lemma OnceLeft<B, M, R>(p: Program<B, M, R>, s: Core<B, M, R>, a: Step<M>)
    requires s.matcher.Exited? && s.executed <= s.pushed
    ensures var s' := Advance(p, false, s, a);
            && s'.matcher.Exited? && s'.executed == s.executed && s'.executed <= s'.pushed
            && (s'.executed == s'.pushed <==> s.executed == s.pushed && !TakesEffect(s, a))
  {
  }

  /** When the matching thread has left its loop, every pushed message was executed
      (once and in order, see `ScheduleDoesNotMatter`) if and only if no push took
      effect after the emptiness check that let the thread leave. */
  lemma {:induction false} DrainedExactlyWhen<B, M, R>(p: Program<B, M, R>, inCapacity: nat, outCapacity: nat,
                                                       steps: seq<Step<M>>)
    ensures var s := Schedule(p, false, Init(p, inCapacity, outCapacity), steps);
            var late := LatePush(p, Init(p, inCapacity, outCapacity), steps);
            && (late ==> s.matcher.Exited?)
            && (s.matcher.Exited? ==> s.executed <= s.pushed && (s.executed == s.pushed <==> !late))
  {
    if steps != [] {
      var n := |steps| - 1;
      var s := Schedule(p, false, Init(p, inCapacity, outCapacity), steps[..n]);
      DrainedExactlyWhen(p, inCapacity, outCapacity, steps[..n]);
      if s.matcher.Exited? {
        OnceLeft(p, s, steps[n]);
      } else if Advance(p, false, s, steps[n]).matcher.Exited? {
        ScheduleKeepsInv(p, false, inCapacity, outCapacity, steps[..n]);
        LeavesDrained(p, s, steps[n]);
      }
    }
  }

  /** The other half is not empty: in the gateway a message can be pushed after the
      matching thread has left, and is never executed. */
  lemma MayStrand<B, M, R>(p: Program<B, M, R>, m: M, capacity: nat)
    requires capacity > 0
    ensures var s := Schedule(p, false, Init(p, capacity, capacity), [EnvStop, Match(64), Match(64), EnvPush(m)]);
            s.matcher.Exited? && s.pushed == [m] && s.executed == []
    ensures forall s: Core<B, M, R>, max :: s.matcher.Exited? ==> MatcherStep(p, s, max) == s
  {
    var steps := [EnvStop, Match(64), Match(64), EnvPush(m)];
    var s0 := Init(p, capacity, capacity);
    assert steps[..3][..2] == steps[..2] && steps[..2][..1] == steps[..1] && steps[..1][..0] == [];
    assert Schedule(p, false, s0, steps[..1]) == s0.(stopped := true);
    assert Schedule(p, false, s0, steps[..2]) == s0.(stopped := true, matcher := AtEmptyCheck);
    assert Schedule(p, false, s0, steps[..3]) == s0.(stopped := true, matcher := Exited);
  }
}
