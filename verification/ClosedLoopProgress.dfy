/** The closed loop can always end: wherever the schedule has led, some continuation
    brings the client to its end and lets the matching thread leave. */
module ClosedLoopProgress {
  import opened Pipeline
  import opened ClosedLoop
  import Progress

  function ClientRank<B, M, R>(s: Loop<B, M, R>): nat {
    match s.client
    case AtCollect(_) => if s.core.responses.seen == 0 then 10 else 3
    case AtCount => 9
    case AtSettle(_, _) => 9
    case AtCredit => 8
    case AtStamp => 7
    case AtPush(_) => 6
    case AtFinish => 5
    case AtLook(_) => 4
    case AtStop => 1
    case Ended => 0
  }

  /** What is left to do until both threads have ended. */
  function WorkLeft<B, M, R>(count: nat, s: Loop<B, M, R>): int {
    100 * (count - |s.core.pushed|) + 20 * (|s.core.pushed| - |s.core.collected|) + Progress.Work(s.core)
    + ClientRank(s)
  }

  /** The matching thread works while it has something to do; otherwise the client. */
  function Useful<B, M, R>(s: Loop<B, M, R>, now: nat, max: nat): Turn {
    if Progress.Employed(s.core) then MatcherTurn(max) else ClientTurn(now)
  }

  /** A matching thread with nothing to do has answered all there is, or is held up
      by a full response queue: whoever waits for responses will find some. */
  lemma QuietMeansAnswered<B(!new), M(!new), R>(p: Program<B, M, R>, load: Load<M>, window: nat, s: Loop<B, M, R>)
    requires LoopInv(p, load, window, s) && Answers(p) && s.core.outCapacity > 0
    requires !Progress.Employed(s.core) && !s.client.Ended?
    ensures s.core.ingress.items != [] ==> s.core.responses.items != []
    ensures |s.core.pushed| > |s.core.collected| ==> s.core.responses.items != []
  {
    OneReplyEach(p, s.core.executed);
  }

  lemma MatcherTurnProgresses<B(!new), M(!new), R>(p: Program<B, M, R>, load: Load<M>, window: nat, s: Loop<B, M, R>,
                                                   max: nat)
    requires Progress.Work(MatcherStep(p, s.core, max)) < Progress.Work(s.core)
    ensures WorkLeft(load.count, LoopStep(p, load, window, s, MatcherTurn(max))) < WorkLeft(load.count, s)
  {
    MatcherOnlyWorks(p, s.core, max);
    MatcherKeepsSeen(p, s.core, max);
  }

  lemma MatcherKeepsSeen<B, M, R>(p: Program<B, M, R>, s: Core<B, M, R>, max: nat)
    ensures MatcherStep(p, s, max).responses.seen == s.responses.seen
  {
  }

  lemma PushProgresses<B(!new), M(!new), R>(p: Program<B, M, R>, load: Load<M>, window: nat, s: Loop<B, M, R>, now: nat)
    requires LoopInv(p, load, window, s) && Answers(p) && window < 0x1_0000_0000_0000_0000 && s.client.AtPush?
    ensures WorkLeft(load.count, LoopStep(p, load, window, s, ClientTurn(now))) < WorkLeft(load.count, s)
  {
  }

  lemma CollectProgresses<B(!new), M(!new), R>(p: Program<B, M, R>, load: Load<M>, window: nat, s: Loop<B, M, R>,
                                               now: nat)
    requires LoopInv(p, load, window, s) && Answers(p) && window < 0x1_0000_0000_0000_0000 && s.client.AtCollect?
    ensures WorkLeft(load.count, LoopStep(p, load, window, s, ClientTurn(now))) < WorkLeft(load.count, s)
  {
  }

  lemma LookProgresses<B(!new), M(!new), R>(p: Program<B, M, R>, load: Load<M>, window: nat, s: Loop<B, M, R>, now: nat)
    requires LoopInv(p, load, window, s) && Answers(p) && s.core.outCapacity > 0 && s.core.inCapacity > 0 && window > 0
    requires !Progress.Employed(s.core) && s.client.AtLook?
    ensures WorkLeft(load.count, LoopStep(p, load, window, s, ClientTurn(now))) < WorkLeft(load.count, s)
  {
    QuietMeansAnswered(p, load, window, s);
  }

  lemma LocalProgresses<B(!new), M(!new), R>(p: Program<B, M, R>, load: Load<M>, window: nat, s: Loop<B, M, R>,
                                             now: nat)
    requires !s.client.AtPush? && !s.client.AtCollect? && !s.client.AtLook? && !s.client.Ended?
    ensures WorkLeft(load.count, LoopStep(p, load, window, s, ClientTurn(now))) < WorkLeft(load.count, s)
  {
  }

  lemma UsefulProgresses<B(!new), M(!new), R>(p: Program<B, M, R>, load: Load<M>, window: nat, s: Loop<B, M, R>,
                                              now: nat, max: nat)
    requires LoopInv(p, load, window, s) && Answers(p) && 0 < window < 0x1_0000_0000_0000_0000 && max > 0
    requires s.core.outCapacity > 0 && s.core.inCapacity > 0
    requires !(s.client.Ended? && s.core.matcher.Exited?)
    ensures WorkLeft(load.count, LoopStep(p, load, window, s, Useful(s, now, max))) < WorkLeft(load.count, s)
  {
    if Progress.Employed(s.core) {
      Progress.MatchProgresses(p, s.core, max);
      MatcherTurnProgresses(p, load, window, s, max);
    } else {
      match s.client
      case AtPush(_) => PushProgresses(p, load, window, s, now);
      case AtCollect(_) => CollectProgresses(p, load, window, s, now);
      case AtLook(_) => LookProgresses(p, load, window, s, now);
      case Ended => EndedIsEmployed(p, load, window, s);
      case _ => LocalProgresses(p, load, window, s, now);
    }
  }

  /** Once the client has ended, the matching thread is free to go on. */
  lemma EndedIsEmployed<B(!new), M(!new), R>(p: Program<B, M, R>, load: Load<M>, window: nat, s: Loop<B, M, R>)
    requires LoopInv(p, load, window, s) && Answers(p) && s.client.Ended? && !s.core.matcher.Exited?
    requires s.core.outCapacity > 0
    ensures Progress.Employed(s.core)
  {
    Backlog(p, s.core);
  }

  /** One draining takes what the client saw, 64 completions at most. */
  lemma DrainsUpTo64<B, M, R>(p: Program<B, M, R>, load: Load<M>, window: nat, s: Loop<B, M, R>, now: nat)
    requires s.client.AtCollect? && s.core.responses.seen <= |s.core.responses.items|
    ensures var s' := LoopStep(p, load, window, s, ClientTurn(now));
            var n := if s.core.responses.seen < 64 then s.core.responses.seen else 64;
            && s'.core.collected == s.core.collected + s.core.responses.items[..n]
            && s'.core.responses.items == s.core.responses.items[n..]
            && s'.client == if n == 0 then Back(s.client.back) else AtSettle(n, s.client.back)
  {
  }

  lemma CapacitiesStay<B, M, R>(p: Program<B, M, R>, load: Load<M>, window: nat, s: Loop<B, M, R>, t: Turn)
    ensures LoopStep(p, load, window, s, t).core.inCapacity == s.core.inCapacity
    ensures LoopStep(p, load, window, s, t).core.outCapacity == s.core.outCapacity
  {
    if t.MatcherTurn? {
      MatcherOnlyWorks(p, s.core, t.max);
    }
  }

  lemma {:induction false} PlayKeepsCapacities<B, M, R>(p: Program<B, M, R>, load: Load<M>, window: nat,
      inCapacity: nat, outCapacity: nat, turns: seq<Turn>)
    ensures var s := Play(p, load, window, Begin(p, inCapacity, outCapacity), turns);
            s.core.inCapacity == inCapacity && s.core.outCapacity == outCapacity
  {
    if turns != [] {
      var n := |turns| - 1;
      PlayKeepsCapacities(p, load, window, inCapacity, outCapacity, turns[..n]);
      CapacitiesStay(p, load, window, Play(p, load, window, Begin(p, inCapacity, outCapacity), turns[..n]), turns[n]);
    }
  }

  lemma WorkIsLeft<B(!new), M(!new), R>(p: Program<B, M, R>, load: Load<M>, window: nat, s: Loop<B, M, R>)
    requires LoopInv(p, load, window, s) && Answers(p)
    ensures WorkLeft(load.count, s) >= 0
  {
    Backlog(p, s.core);
    Progress.WorkIsLeft(p, s.core);
  }

  lemma OneMoreTurn<B, M, R>(p: Program<B, M, R>, load: Load<M>, window: nat, s: Loop<B, M, R>, turns: seq<Turn>,
                             turn: Turn, more: seq<Turn>)
    ensures Play(p, load, window, s, turns + [turn]) == LoopStep(p, load, window, Play(p, load, window, s, turns), turn)
    ensures turns + [turn] + more == turns + ([turn] + more) && turns + [] == turns
  {
    assert (turns + [turn])[..|turns|] == turns;
  }

  lemma TurnProgresses<B(!new), M(!new), R>(p: Program<B, M, R>, load: Load<M>, window: nat, inCapacity: nat,
      outCapacity: nat, turns: seq<Turn>, now: nat, max: nat) returns (turn: Turn)
    requires Answers(p) && 0 < window < 0x1_0000_0000_0000_0000 && inCapacity > 0 && outCapacity > 0 && max > 0
    requires var s := Play(p, load, window, Begin(p, inCapacity, outCapacity), turns);
             !(s.client.Ended? && s.core.matcher.Exited?)
    ensures var s := Begin(p, inCapacity, outCapacity);
            0 <= WorkLeft(load.count, Play(p, load, window, s, turns))
            && WorkLeft(load.count, Play(p, load, window, s, turns + [turn]))
               < WorkLeft(load.count, Play(p, load, window, s, turns))
  {
    var s := Play(p, load, window, Begin(p, inCapacity, outCapacity), turns);
    turn := Useful(s, now, max);
    PlayKeepsInv(p, load, window, inCapacity, outCapacity, turns);
    PlayKeepsCapacities(p, load, window, inCapacity, outCapacity, turns);
    WorkIsLeft(p, load, window, s);
    UsefulProgresses(p, load, window, s, now, max);
    OneMoreTurn(p, load, window, Begin(p, inCapacity, outCapacity), turns, turn, []);
  }

  /** With a window and queues of at least one, from every reachable state some
      continuation ends the client and lets the matching thread leave. */
  lemma CanEnd<B(!new), M(!new), R>(p: Program<B, M, R>, load: Load<M>, window: nat, inCapacity: nat,
                                    outCapacity: nat, turns: seq<Turn>, now: nat, max: nat) returns (more: seq<Turn>)
    requires Answers(p) && 0 < window < 0x1_0000_0000_0000_0000 && inCapacity > 0 && outCapacity > 0 && max > 0
    ensures var s := Play(p, load, window, Begin(p, inCapacity, outCapacity), turns + more);
            s.client.Ended? && s.core.matcher.Exited?
    decreases WorkLeft(load.count, Play(p, load, window, Begin(p, inCapacity, outCapacity), turns))
  {
    var s := Play(p, load, window, Begin(p, inCapacity, outCapacity), turns);
    if s.client.Ended? && s.core.matcher.Exited? {
      more := [];
      assert turns + [] == turns;
    } else {
      var turn := TurnProgresses(p, load, window, inCapacity, outCapacity, turns, now, max);
      var rest := CanEnd(p, load, window, inCapacity, outCapacity, turns + [turn], now, max);
      OneMoreTurn(p, load, window, Begin(p, inCapacity, outCapacity), turns, turn, rest);
      more := [turn] + rest;
    }
  }
}
