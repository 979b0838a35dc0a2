/** The closed-loop client of the benchmark: it submits its actions in order, with
    at most `window` of them unacknowledged, and collects the completions. It runs
    against the matching thread of `Pipeline`, in every interleaving. Before every
    attempt to push, the message is made anew from a fresh clock reading. */
module ClosedLoop {
  import opened Pipeline

  /** Where the client goes on after draining completions. */
  datatype Return = ToCredit | ToPush | ToFinish

  datatype Client =
    | AtCredit
    | AtStamp
    | AtPush(stamp: nat)
    | AtCount
    | AtLook(back: Return)
    | AtCollect(back: Return)
    | AtSettle(got: nat, back: Return)
    | AtFinish
    | AtStop
    | Ended

  datatype Loop<B, M, R> = Loop(core: Core<B, M, R>, client: Client, next: nat, inFlight: nat, stamps: seq<nat>,
                                refused: bool)

  /** `now` is the clock reading a turn of the client may take. */
  datatype Turn = ClientTurn(now: nat) | MatcherTurn(max: nat)

  /** The `count` actions, and the message made of an action and a clock reading. */
  datatype Load<!M> = Load(count: nat, make: (nat, nat) -> M)

  /** The messages of the first actions, with the stamps they were pushed with. */
  function Made<M>(load: Load<M>, stamps: seq<nat>): (messages: seq<M>)
    ensures |messages| == |stamps|
    ensures forall k :: 0 <= k < |stamps| ==> messages[k] == load.make(k, stamps[k])
  {
    seq(|stamps|, k requires 0 <= k < |stamps| => load.make(k, stamps[k]))
  }

  function Back(back: Return): Client {
    match back
    case ToCredit => AtCredit
    case ToPush => AtStamp
    case ToFinish => AtFinish
  }

  /** The steps that touch neither queue, on program counter, action counter and
      `in_flight`, which is a 64-bit counter. */
  function Local(count: nat, window: nat, client: Client, next: nat, inFlight: nat, now: nat): (Client, nat, nat) {
    match client
    case AtCredit =>
      (if next >= count then AtFinish else if inFlight >= window then AtLook(ToCredit) else AtStamp, next, inFlight)
    case AtStamp => (AtPush(now), next, inFlight)
    case AtCount => (AtCredit, next + 1, (inFlight + 1) % 0x1_0000_0000_0000_0000)
    case AtSettle(got, back) =>
      (Back(back), next,
       (inFlight + (0x1_0000_0000_0000_0000 - got % 0x1_0000_0000_0000_0000)) % 0x1_0000_0000_0000_0000)
    case AtFinish => (if inFlight > 0 then AtLook(ToFinish) else AtStop, next, inFlight)
    case _ => (client, next, inFlight)
  }

  /** One step of the client. `refused` records whether any push, of either thread,
      ever met a full queue. */
  function ClientStep<B, M, R>(p: Program<B, M, R>, load: Load<M>, window: nat, s: Loop<B, M, R>,
                               now: nat): Loop<B, M, R> {
    match s.client
    case AtPush(stamp) =>
      if |s.core.ingress.items| >= s.core.inCapacity then s.(client := AtLook(ToPush), refused := true)
      else
        s.(core := Advance(p, true, s.core, EnvPush(load.make(s.next, stamp))), stamps := s.stamps + [stamp],
           client := AtCount)
    case AtLook(back) => s.(core := Advance(p, true, s.core, EnvLook), client := AtCollect(back))
    case AtCollect(back) =>
      var core := Advance(p, true, s.core, EnvCollect(64));
      var got := if |s.core.collected| <= |core.collected| then |core.collected| - |s.core.collected| else 0;
      s.(core := core, client := if got == 0 then Back(back) else AtSettle(got, back))
    case AtStop => s.(core := Advance(p, true, s.core, EnvStop), client := Ended)
    case _ =>
      var (client, next, inFlight) := Local(load.count, window, s.client, s.next, s.inFlight, now);
      s.(client := client, next := next, inFlight := inFlight)
  }

  function LoopStep<B, M, R>(p: Program<B, M, R>, load: Load<M>, window: nat, s: Loop<B, M, R>,
                             t: Turn): Loop<B, M, R> {
    match t
    case ClientTurn(now) => ClientStep(p, load, window, s, now)
    case MatcherTurn(max) =>
      s.(core := Advance(p, true, s.core, Match(max)),
         refused := s.refused || (s.core.matcher.AtReply? && |s.core.responses.items| >= s.core.outCapacity))
  }

  function Begin<B, M, R>(p: Program<B, M, R>, inCapacity: nat, outCapacity: nat): Loop<B, M, R> {
    Loop(Init(p, inCapacity, outCapacity), AtCredit, 0, 0, [], false)
  }

  function Play<B, M, R>(p: Program<B, M, R>, load: Load<M>, window: nat, s: Loop<B, M, R>,
                         turns: seq<Turn>): Loop<B, M, R> {
    if turns == [] then s
    else LoopStep(p, load, window, Play(p, load, window, s, turns[..|turns| - 1]), turns[|turns| - 1])
  }

  // ------------------------------------------------------------- invariant

  /** Every executed message is answered. */
  ghost predicate Answers<B(!new), M(!new), R>(p: Program<B, M, R>) {
    forall b, m :: p.reply(b, m).Some?
  }

  lemma {:induction false} OneReplyEach<B(!new), M(!new), R>(p: Program<B, M, R>, messages: seq<M>)
    requires Answers(p)
    ensures |FoldReplies(p, messages)| == |messages|
  {
    if messages != [] { OneReplyEach(p, messages[..|messages| - 1]); }
  }

  /** The client's view of how many messages are in flight is exact, up to the
      one update it is about to make. */
  ghost predicate Counted<B, M, R>(s: Loop<B, M, R>) {
    match s.client
    case AtCount => |s.core.pushed| == s.next + 1 && s.inFlight + 1 == |s.core.pushed| - |s.core.collected|
    case AtSettle(got, _) => |s.core.pushed| == s.next && s.inFlight == |s.core.pushed| - |s.core.collected| + got
    case _ => |s.core.pushed| == s.next && s.inFlight == |s.core.pushed| - |s.core.collected|
  }

  ghost predicate Credited<B, M, R>(window: nat, s: Loop<B, M, R>) {
    && s.inFlight <= window
    && (match s.client
        case AtStamp => s.inFlight < window
        case AtPush(_) => s.inFlight < window
        case AtCount => s.inFlight < window
        case AtLook(back) =>
          && (back.ToCredit? ==> s.inFlight == window)
          && (back.ToPush? ==> s.inFlight < window && (s.core.inCapacity > 0 ==> s.inFlight > 0))
          && (back.ToFinish? ==> s.inFlight > 0)
        case AtCollect(back) =>
          && (back.ToCredit? ==> s.inFlight == window)
          && (back.ToPush? ==> s.inFlight < window)
        case AtSettle(_, back) => back.ToPush? ==> s.inFlight < window
        case _ => true)
  }

  predicate Finishing(c: Client) {
    match c
    case AtFinish => true
    case AtStop => true
    case Ended => true
    case AtLook(back) => back.ToFinish?
    case AtCollect(back) => back.ToFinish?
    case AtSettle(_, back) => back.ToFinish?
    case _ => false
  }

  predicate Pushing(c: Client) {
    match c
    case AtStamp => true
    case AtPush(_) => true
    case AtLook(back) => back.ToPush?
    case AtCollect(back) => back.ToPush?
    case AtSettle(_, back) => back.ToPush?
    case _ => false
  }

  ghost predicate LoopInv<B(!new), M(!new), R>(p: Program<B, M, R>, load: Load<M>, window: nat, s: Loop<B, M, R>) {
    && Pipeline.Inv(p, true, s.core)
    && Counted(s) && Credited(window, s)
    && s.core.pushed == Made(load, s.stamps) && |s.stamps| <= load.count
    && (Pushing(s.client) ==> s.next < load.count)
    && (Finishing(s.client) ==> s.next == load.count)
    && (s.client.AtStop? ==> s.inFlight == 0)
    && (s.client.Ended? ==> s.inFlight == 0)
    && (s.core.stopped <==> s.client.Ended?)
  }

  /** Collected is at most sent, sent at most executed, executed at most pushed. */
  lemma Backlog<B(!new), M(!new), R>(p: Program<B, M, R>, s: Core<B, M, R>)
    requires Pipeline.Inv(p, true, s) && Answers(p)
    ensures |s.collected| + |s.responses.items| + |Unsent(s)| == |s.executed|
    ensures |s.executed| + |s.ingress.items| <= |s.pushed|
  {
    OneReplyEach(p, s.executed);
  }

  /** The counter arithmetic stays clear of the ends of the 64-bit range. */
  lemma CounterIsExact(n: nat, got: nat)
    requires n < 0x1_0000_0000_0000_0000
    ensures n + 1 < 0x1_0000_0000_0000_0000 ==> (n + 1) % 0x1_0000_0000_0000_0000 == n + 1
    ensures got <= n ==>
      (n + (0x1_0000_0000_0000_0000 - got % 0x1_0000_0000_0000_0000)) % 0x1_0000_0000_0000_0000 == n - got
  {
  }

  lemma MadeMore<M>(load: Load<M>, stamps: seq<nat>, stamp: nat)
    ensures Made(load, stamps + [stamp]) == Made(load, stamps) + [load.make(|stamps|, stamp)]
  {
  }

  lemma BookkeepingKeepsInv<B(!new), M(!new), R>(p: Program<B, M, R>, load: Load<M>, window: nat, s: Loop<B, M, R>,
                                                 now: nat)
    requires LoopInv(p, load, window, s) && Answers(p) && window < 0x1_0000_0000_0000_0000
    requires s.client.AtCredit? || s.client.AtStamp? || s.client.AtFinish? || s.client.Ended?
    ensures LoopInv(p, load, window, ClientStep(p, load, window, s, now))
  {
  }

  lemma CountingKeepsInv<B(!new), M(!new), R>(p: Program<B, M, R>, load: Load<M>, window: nat, s: Loop<B, M, R>,
                                              now: nat)
    requires LoopInv(p, load, window, s) && Answers(p) && window < 0x1_0000_0000_0000_0000
    requires s.client.AtCount?
    ensures LoopInv(p, load, window, ClientStep(p, load, window, s, now))
  {
    CounterIsExact(s.inFlight, 0);
  }

  lemma SettlingKeepsInv<B(!new), M(!new), R>(p: Program<B, M, R>, load: Load<M>, window: nat, s: Loop<B, M, R>,
                                              now: nat)
    requires LoopInv(p, load, window, s) && Answers(p) && window < 0x1_0000_0000_0000_0000
    requires s.client.AtSettle?
    ensures LoopInv(p, load, window, ClientStep(p, load, window, s, now))
  {
    Backlog(p, s.core);
    CounterIsExact(s.inFlight, s.client.got);
  }

  lemma PushKeepsInv<B(!new), M(!new), R>(p: Program<B, M, R>, load: Load<M>, window: nat, s: Loop<B, M, R>, now: nat)
    requires LoopInv(p, load, window, s) && Answers(p) && window < 0x1_0000_0000_0000_0000
    requires s.client.AtPush?
    ensures LoopInv(p, load, window, ClientStep(p, load, window, s, now))
  {
    AdvanceKeepsInv(p, true, s.core, EnvPush(load.make(s.next, s.client.stamp)));
    Backlog(p, s.core);
    MadeMore(load, s.stamps, s.client.stamp);
  }

  lemma LookKeepsInv<B(!new), M(!new), R>(p: Program<B, M, R>, load: Load<M>, window: nat, s: Loop<B, M, R>, now: nat)
    requires LoopInv(p, load, window, s) && Answers(p) && window < 0x1_0000_0000_0000_0000
    requires s.client.AtLook? || s.client.AtStop?
    ensures LoopInv(p, load, window, ClientStep(p, load, window, s, now))
  {
    AdvanceKeepsInv(p, true, s.core, if s.client.AtLook? then EnvLook else EnvStop);
  }

  lemma CollectKeepsInv<B(!new), M(!new), R>(p: Program<B, M, R>, load: Load<M>, window: nat, s: Loop<B, M, R>,
                                             now: nat)
    requires LoopInv(p, load, window, s) && Answers(p) && window < 0x1_0000_0000_0000_0000
    requires s.client.AtCollect?
    ensures LoopInv(p, load, window, ClientStep(p, load, window, s, now))
  {
    AdvanceKeepsInv(p, true, s.core, EnvCollect(64));
  }

  lemma ClientKeepsInv<B(!new), M(!new), R>(p: Program<B, M, R>, load: Load<M>, window: nat, s: Loop<B, M, R>, now: nat)
    requires LoopInv(p, load, window, s) && Answers(p) && window < 0x1_0000_0000_0000_0000
    ensures LoopInv(p, load, window, ClientStep(p, load, window, s, now))
  {
    match s.client
    case AtPush(_) => PushKeepsInv(p, load, window, s, now);
    case AtLook(_) => LookKeepsInv(p, load, window, s, now);
    case AtStop => LookKeepsInv(p, load, window, s, now);
    case AtCollect(_) => CollectKeepsInv(p, load, window, s, now);
    case AtSettle(_, _) => SettlingKeepsInv(p, load, window, s, now);
    case AtCount => CountingKeepsInv(p, load, window, s, now);
    case _ => BookkeepingKeepsInv(p, load, window, s, now);
  }

  lemma MatcherTurnKeepsInv<B(!new), M(!new), R>(p: Program<B, M, R>, load: Load<M>, window: nat, s: Loop<B, M, R>,
                                                 max: nat)
    requires LoopInv(p, load, window, s) && Answers(p) && window < 0x1_0000_0000_0000_0000
    ensures LoopInv(p, load, window, LoopStep(p, load, window, s, MatcherTurn(max)))
  {
    AdvanceKeepsInv(p, true, s.core, Match(max));
    MatcherOnlyWorks(p, s.core, max);
  }

  lemma {:induction false} PlayKeepsInv<B(!new), M(!new), R>(p: Program<B, M, R>, load: Load<M>, window: nat,
      inCapacity: nat, outCapacity: nat, turns: seq<Turn>)
    requires Answers(p) && window < 0x1_0000_0000_0000_0000
    ensures LoopInv(p, load, window, Play(p, load, window, Begin(p, inCapacity, outCapacity), turns))
  {
    if turns != [] {
      var before := Play(p, load, window, Begin(p, inCapacity, outCapacity), turns[..|turns| - 1]);
      PlayKeepsInv(p, load, window, inCapacity, outCapacity, turns[..|turns| - 1]);
      match turns[|turns| - 1]
      case ClientTurn(now) => ClientKeepsInv(p, load, window, before, now);
      case MatcherTurn(max) => MatcherTurnKeepsInv(p, load, window, before, max);
    }
  }

  // --------------------------------------------------------------- theorems

  /** The window is never exceeded, and the counter is exact up to the one update
      about to be made; in particular it never underflows. */
  lemma WindowIsKept<B(!new), M(!new), R>(p: Program<B, M, R>, load: Load<M>, window: nat, inCapacity: nat,
                                          outCapacity: nat, turns: seq<Turn>)
    requires Answers(p) && window < 0x1_0000_0000_0000_0000
    ensures var s := Play(p, load, window, Begin(p, inCapacity, outCapacity), turns);
            var unacknowledged := |s.core.pushed| - |s.core.collected|;
            && 0 <= unacknowledged <= window && s.inFlight <= window
            && s.inFlight == (match s.client
                              case AtCount => unacknowledged - 1
                              case AtSettle(got, _) => unacknowledged + got
                              case _ => unacknowledged)
  {
    PlayKeepsInv(p, load, window, inCapacity, outCapacity, turns);
    Backlog(p, Play(p, load, window, Begin(p, inCapacity, outCapacity), turns).core);
  }

  /** A client that waits for credit has used all of it. */
  lemma CreditIsUsed<B(!new), M(!new), R>(p: Program<B, M, R>, load: Load<M>, window: nat, inCapacity: nat,
                                          outCapacity: nat, turns: seq<Turn>)
    requires Answers(p) && window < 0x1_0000_0000_0000_0000
    ensures var s := Play(p, load, window, Begin(p, inCapacity, outCapacity), turns);
            s.client == AtLook(ToCredit) ==> |s.core.pushed| - |s.core.collected| == window
  {
    PlayKeepsInv(p, load, window, inCapacity, outCapacity, turns);
  }

  lemma StepIsNeverRefused<B(!new), M(!new), R>(p: Program<B, M, R>, load: Load<M>, window: nat, s: Loop<B, M, R>,
                                                t: Turn)
    requires LoopInv(p, load, window, s) && Answers(p) && window < 0x1_0000_0000_0000_0000
    requires 1 <= window <= s.core.inCapacity && window <= s.core.outCapacity && !s.refused
    ensures !LoopStep(p, load, window, s, t).refused
    ensures LoopStep(p, load, window, s, t).core.inCapacity == s.core.inCapacity
    ensures LoopStep(p, load, window, s, t).core.outCapacity == s.core.outCapacity
  {
    Backlog(p, s.core);
    if t.MatcherTurn? { MatcherOnlyWorks(p, s.core, t.max); }
  }

  /** With a window of at least one that both queues can hold, no push of either
      thread ever meets a full queue. */
  lemma {:induction false} QueuesAreNeverFull<B(!new), M(!new), R>(p: Program<B, M, R>, load: Load<M>, window: nat,
      inCapacity: nat, outCapacity: nat, turns: seq<Turn>)
    requires Answers(p) && window < 0x1_0000_0000_0000_0000
    requires 1 <= window <= inCapacity && window <= outCapacity
    ensures var s := Play(p, load, window, Begin(p, inCapacity, outCapacity), turns);
            !s.refused && s.core.inCapacity == inCapacity && s.core.outCapacity == outCapacity
  {
    if turns != [] {
      QueuesAreNeverFull(p, load, window, inCapacity, outCapacity, turns[..|turns| - 1]);
      PlayKeepsInv(p, load, window, inCapacity, outCapacity, turns[..|turns| - 1]);
      StepIsNeverRefused(p, load, window,
                         Play(p, load, window, Begin(p, inCapacity, outCapacity), turns[..|turns| - 1]),
                         turns[|turns| - 1]);
    }
  }

  /** When the client has ended, every action was executed and acknowledged
      exactly once, in order, whether or not the matching thread has left. */
  lemma AllAcknowledged<B(!new), M(!new), R>(p: Program<B, M, R>, load: Load<M>, window: nat, inCapacity: nat,
                                             outCapacity: nat, turns: seq<Turn>)
    requires Answers(p) && window < 0x1_0000_0000_0000_0000
    ensures var s := Play(p, load, window, Begin(p, inCapacity, outCapacity), turns);
            var messages := Made(load, s.stamps);
            s.client.Ended? ==>
              && |messages| == load.count
              && s.core.executed == messages && s.core.book == FoldBook(p, messages)
              && s.core.collected == FoldReplies(p, messages) && |s.core.collected| == load.count
              && s.core.ingress.items == [] && s.core.responses.items == []
  {
    PlayKeepsInv(p, load, window, inCapacity, outCapacity, turns);
    var s := Play(p, load, window, Begin(p, inCapacity, outCapacity), turns);
    Backlog(p, s.core);
    OneReplyEach(p, s.core.executed);
  }

  // --------------------------------------------------------------- time stamps

  /** The place of the client's last turn, or -1. */
  function LastTurn(turns: seq<Turn>): (n: int)
    ensures -1 <= n < |turns| && (n >= 0 ==> turns[n].ClientTurn?)
  {
    if turns == [] then -1
    else if turns[|turns| - 1].ClientTurn? then |turns| - 1
    else LastTurn(turns[..|turns| - 1])
  }

  lemma ReadyToPush<B, M, R>(p: Program<B, M, R>, load: Load<M>, window: nat, s: Loop<B, M, R>, t: Turn)
    requires LoopStep(p, load, window, s, t).client.AtPush?
    ensures if t.MatcherTurn? then s.client == LoopStep(p, load, window, s, t).client
            else t.now == LoopStep(p, load, window, s, t).client.stamp
  {
  }

  /** A client about to push has made the message from its last clock reading. */
  ghost predicate Fresh(client: Client, turns: seq<Turn>) {
    client.AtPush? ==> LastTurn(turns) >= 0 && turns[LastTurn(turns)] == ClientTurn(client.stamp)
  }

  lemma StaysFresh(client: Client, before: seq<Turn>, t: Turn, client': Client)
    requires Fresh(client, before)
    requires client'.AtPush? ==> if t.MatcherTurn? then client == client' else t.now == client'.stamp
    ensures Fresh(client', before + [t])
  {
    assert (before + [t])[..|before|] == before;
  }

  /** A message about to be pushed carries the clock reading of the client's last turn. */
  lemma {:induction false} StampIsFresh<B, M, R>(p: Program<B, M, R>, load: Load<M>, window: nat, inCapacity: nat,
                                                 outCapacity: nat, turns: seq<Turn>)
    ensures Fresh(Play(p, load, window, Begin(p, inCapacity, outCapacity), turns).client, turns)
  {
    if turns != [] {
      var before, t := turns[..|turns| - 1], turns[|turns| - 1];
      var s := Play(p, load, window, Begin(p, inCapacity, outCapacity), before);
      StampIsFresh(p, load, window, inCapacity, outCapacity, before);
      if LoopStep(p, load, window, s, t).client.AtPush? {
        ReadyToPush(p, load, window, s, t);
      }
      StaysFresh(s.client, before, t, LoopStep(p, load, window, s, t).client);
      assert before + [t] == turns;
    }
  }

  /** Each pushed message carries a clock reading of its own, taken after that of the
      message before: reading number `at[k]` is the stamp of action number `k`. */
  ghost predicate Readings(stamps: seq<nat>, turns: seq<Turn>, at: seq<nat>) {
    && |at| == |stamps|
    && (forall k :: 0 <= k < |at| ==> at[k] < |turns| && turns[at[k]] == ClientTurn(stamps[k]))
    && (forall j, k :: 0 <= j < k < |at| ==> at[j] < at[k])
    && (forall k :: 0 <= k < |at| ==> at[k] < LastTurn(turns))
  }

  lemma ReadingsStay(stamps: seq<nat>, turns: seq<Turn>, at: seq<nat>, turn: Turn)
    requires Readings(stamps, turns, at)
    ensures Readings(stamps, turns + [turn], at)
  {
    assert (turns + [turn])[..|turns|] == turns;
  }

  lemma OneReadingMore(stamps: seq<nat>, turns: seq<Turn>, at: seq<nat>, stamp: nat, now: nat)
    requires Readings(stamps, turns, at)
    requires LastTurn(turns) >= 0 && turns[LastTurn(turns)] == ClientTurn(stamp)
    ensures Readings(stamps + [stamp], turns + [ClientTurn(now)], at + [LastTurn(turns)])
  {
  }

  /** The client pushes or it does not. */
  lemma StampsGrow<B, M, R>(p: Program<B, M, R>, load: Load<M>, window: nat, s: Loop<B, M, R>, t: Turn)
    ensures var s' := LoopStep(p, load, window, s, t);
            s'.stamps == s.stamps
            || (t.ClientTurn? && s.client.AtPush? && s'.stamps == s.stamps + [s.client.stamp])
  {
  }

  lemma {:induction false} StampsAreReadings<B, M, R>(p: Program<B, M, R>, load: Load<M>, window: nat,
      inCapacity: nat, outCapacity: nat, turns: seq<Turn>) returns (at: seq<nat>)
    ensures Readings(Play(p, load, window, Begin(p, inCapacity, outCapacity), turns).stamps, turns, at)
  {
    if turns == [] {
      at := [];
    } else {
      var before, t := turns[..|turns| - 1], turns[|turns| - 1];
      var s := Play(p, load, window, Begin(p, inCapacity, outCapacity), before);
      at := StampsAreReadings(p, load, window, inCapacity, outCapacity, before);
      StampsGrow(p, load, window, s, t);
      assert turns == before + [t];
      if LoopStep(p, load, window, s, t).stamps == s.stamps {
        ReadingsStay(s.stamps, before, at, t);
      } else {
        StampIsFresh(p, load, window, inCapacity, outCapacity, before);
        OneReadingMore(s.stamps, before, at, s.client.stamp, t.now);
        at := at + [LastTurn(before)];
      }
    }
  }
}
