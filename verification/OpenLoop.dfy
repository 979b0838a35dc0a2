/** The open-loop benchmark: the producer pushes all actions, waiting whenever the
    queue is full, and sets `producer_done` after the last. Nothing is answered:
    there is no completion queue. */
module OpenLoop {
  import opened Pipeline
  import Progress

  datatype Turn = ProducerTurn | MatcherTurn(max: nat)

  /** The program of the open loop gives no responses. */
  ghost predicate Silent<B(!new), M(!new), R>(p: Program<B, M, R>) {
    forall b, m :: p.reply(b, m).None?
  }

  function Producer<B, M, R>(actions: seq<M>, s: Core<B, M, R>): Step<M> {
    if |s.pushed| < |actions| then EnvPush(actions[|s.pushed|]) else EnvStop
  }

  function Act<B, M, R>(p: Program<B, M, R>, actions: seq<M>, s: Core<B, M, R>, turn: Turn): Core<B, M, R> {
    match turn
    case ProducerTurn => Advance(p, true, s, Producer(actions, s))
    case MatcherTurn(max) => Advance(p, true, s, Match(max))
  }

  /** The state after any interleaving of turns, with a queue of this capacity. */
  function Play<B, M, R>(p: Program<B, M, R>, actions: seq<M>, capacity: nat, turns: seq<Turn>): Core<B, M, R> {
    if turns == [] then Init(p, capacity, 0)
    else Act(p, actions, Play(p, actions, capacity, turns[..|turns| - 1]), turns[|turns| - 1])
  }

  ghost predicate Produced<B, M, R>(actions: seq<M>, capacity: nat, s: Core<B, M, R>) {
    && s.pushed <= actions && (s.stopped ==> s.pushed == actions)
    && s.inCapacity == capacity && !s.matcher.AtReply?
  }

  lemma ActKeepsInv<B(!new), M(!new), R>(p: Program<B, M, R>, actions: seq<M>, capacity: nat, s: Core<B, M, R>,
                                         turn: Turn)
    requires Silent(p) && Inv(p, true, s) && Produced(actions, capacity, s)
    ensures Inv(p, true, Act(p, actions, s, turn)) && Produced(actions, capacity, Act(p, actions, s, turn))
  {
    match turn
    case ProducerTurn =>
      AdvanceKeepsInv(p, true, s, Producer(actions, s));
      if |s.pushed| < |actions| { PrefixGrows(s.pushed, actions); }
    case MatcherTurn(max) =>
      AdvanceKeepsInv(p, true, s, Match(max));
      MatcherOnlyWorks(p, s, max);
  }

  lemma {:induction false} PlayKeepsInv<B(!new), M(!new), R>(p: Program<B, M, R>, actions: seq<M>, capacity: nat,
                                                             turns: seq<Turn>)
    requires Silent(p)
    ensures var s := Play(p, actions, capacity, turns); Inv(p, true, s) && Produced(actions, capacity, s)
  {
    if turns != [] {
      PlayKeepsInv(p, actions, capacity, turns[..|turns| - 1]);
      ActKeepsInv(p, actions, capacity, Play(p, actions, capacity, turns[..|turns| - 1]), turns[|turns| - 1]);
    }
  }

  /** When the matching thread has left its loop, every action was executed exactly
      once, in order: the flag is set after the last push and read before the
      queue is found empty. */
  lemma AllExecuted<B(!new), M(!new), R>(p: Program<B, M, R>, actions: seq<M>, capacity: nat, turns: seq<Turn>)
    requires Silent(p)
    ensures var s := Play(p, actions, capacity, turns);
            s.matcher.Exited? ==> s.executed == actions && s.book == FoldBook(p, actions) && s.ingress.items == []
  {
    PlayKeepsInv(p, actions, capacity, turns);
  }

  // ----------------------------------------------- the loop can always end

  /** What is left to do until the matching thread leaves. */
  function WorkLeft<B, M, R>(actions: seq<M>, s: Core<B, M, R>): int {
    64 * (|actions| - |s.pushed|) + Progress.Work(s) + if s.stopped then 0 else 1
  }

  /** The producer works while it has room, and the matching thread otherwise. */
  function Useful<B, M, R>(actions: seq<M>, max: nat, s: Core<B, M, R>): Turn {
    if !s.stopped && (|s.pushed| == |actions| || |s.ingress.items| < s.inCapacity) then ProducerTurn
      else MatcherTurn(max)
  }

  lemma UsefulProgresses<B(!new), M(!new), R>(p: Program<B, M, R>, actions: seq<M>, capacity: nat, s: Core<B, M, R>,
                                              max: nat)
    requires Silent(p) && Inv(p, true, s) && Produced(actions, capacity, s) && capacity > 0 && max > 0
    requires !s.matcher.Exited?
    ensures WorkLeft(actions, Act(p, actions, s, Useful(actions, max, s))) < WorkLeft(actions, s)
  {
    if Useful(actions, max, s).MatcherTurn? {
      Progress.MatchProgresses(p, s, max);
      MatcherOnlyWorks(p, s, max);
    }
  }

  lemma OneMoreTurn<B, M, R>(p: Program<B, M, R>, actions: seq<M>, capacity: nat, turns: seq<Turn>, turn: Turn,
                             more: seq<Turn>)
    ensures Play(p, actions, capacity, turns + [turn]) == Act(p, actions, Play(p, actions, capacity, turns), turn)
    ensures turns + [turn] + more == turns + ([turn] + more) && turns + [] == turns
  {
    assert (turns + [turn])[..|turns|] == turns;
  }

  lemma TurnProgresses<B(!new), M(!new), R>(p: Program<B, M, R>, actions: seq<M>, capacity: nat, turns: seq<Turn>,
                                            max: nat)
    returns (turn: Turn)
    requires Silent(p) && capacity > 0 && max > 0 && !Play(p, actions, capacity, turns).matcher.Exited?
    ensures 0 <= WorkLeft(actions, Play(p, actions, capacity, turns))
    ensures WorkLeft(actions, Play(p, actions, capacity, turns + [turn]))
          < WorkLeft(actions, Play(p, actions, capacity, turns))
  {
    var s := Play(p, actions, capacity, turns);
    turn := Useful(actions, max, s);
    PlayKeepsInv(p, actions, capacity, turns);
    Progress.WorkIsLeft(p, s);
    UsefulProgresses(p, actions, capacity, s, max);
    OneMoreTurn(p, actions, capacity, turns, turn, []);
  }

  /** From every reachable state some continuation ends the loop: neither thread can
      get stuck, whatever the schedule did so far. */
  lemma CanEnd<B(!new), M(!new), R>(p: Program<B, M, R>, actions: seq<M>, capacity: nat, turns: seq<Turn>, max: nat)
    returns (more: seq<Turn>)
    requires Silent(p) && capacity > 0 && max > 0
    ensures Play(p, actions, capacity, turns + more).matcher.Exited?
    decreases WorkLeft(actions, Play(p, actions, capacity, turns))
  {
    if Play(p, actions, capacity, turns).matcher.Exited? {
      more := [];
      OneMoreTurn(p, actions, capacity, turns, ProducerTurn, []);
    } else {
      var turn := TurnProgresses(p, actions, capacity, turns, max);
      var rest := CanEnd(p, actions, capacity, turns + [turn], max);
      OneMoreTurn(p, actions, capacity, turns, turn, rest);
      more := [turn] + rest;
    }
  }
}
