/** The calls on the ring buffer run to their ends: whatever single steps the other
    thread takes in between, every `push` and every `pop_batch` has its effect, once,
    and gives the answer the queue calls for. */
module SpscCalls {
  import opened Types
  import opened SpscMachine
  import opened SpscSafety
  import opened SpscWrap

  predicate OfProducer<T>(a: Action<T>) {
    a.PushLoadTail? || a.PushLoadHead? || a.PushWrite? || a.PushStore?
  }

  /** Steps of the consumer only, or of the producer only. */
  ghost predicate Consuming<T>(actions: seq<Action<T>>) {
    forall k :: 0 <= k < |actions| ==> !OfProducer(actions[k])
  }

  ghost predicate Producing<T>(actions: seq<Action<T>>) {
    forall k :: 0 <= k < |actions| ==> OfProducer(actions[k])
  }

  /** What the producer's calls answered, and what the consumer's did. */
  function Answers<T>(log: seq<Event<T>>): seq<Event<T>> {
    if log == [] then []
    else
      var last := log[|log| - 1];
      Answers(log[..|log| - 1]) + if last.Pushed? || last.WasFull? then [last] else []
  }

  function Takings<T>(log: seq<Event<T>>): seq<Event<T>> {
    if log == [] then []
    else
      var last := log[|log| - 1];
      Takings(log[..|log| - 1]) + if last.Saw? || last.Popped? then [last] else []
  }

  lemma Recorded<T>(log: seq<Event<T>>, e: Event<T>)
    ensures Answers(log + [e]) == Answers(log) + if e.Pushed? || e.WasFull? then [e] else []
    ensures Takings(log + [e]) == Takings(log) + if e.Saw? || e.Popped? then [e] else []
  {
    assert (log + [e])[..|log|] == log;
  }

  // ------------------------------------------- what the other thread leaves alone

  ghost predicate ProducerUntouched<T>(s: State<T>, s': State<T>) {
    s'.producer == s.producer && s'.tail == s.tail && s'.capacity == s.capacity && Answers(s'.log) == Answers(s.log)
  }

  ghost predicate ConsumerUntouched<T>(s: State<T>, s': State<T>) {
    s'.consumer == s.consumer && QueueKept(s, s')
  }

  /** The front of the queue is as it was, and so is what the consumer has observed. */
  ghost predicate QueueKept<T>(s: State<T>, s': State<T>) {
    && s'.head == s.head && s'.capacity == s.capacity && Takings(s'.log) == Takings(s.log)
    && Replay(s.log).items <= Replay(s'.log).items && Replay(s'.log).seen == Replay(s.log).seen
  }

  lemma QueueStaysKept<T>(s: State<T>, s1: State<T>, s2: State<T>)
    requires QueueKept(s, s1) && QueueKept(s1, s2)
    ensures QueueKept(s, s2)
  {
  }

  lemma OneConsumerStep<T>(w: Width, s: State<T>, a: Action<T>)
    requires Shaped(s) && !OfProducer(a)
    ensures ProducerUntouched(s, Next(w, s, a))
  {
    match a
    case PopLoadTail =>
      if s.consumer.Entered? { Recorded(s.log, Saw(Minus(w, s.tail, s.consumer.head))); }
    case PopStore =>
      if s.consumer.Taking? { Recorded(s.log, Popped(s.consumer.max, s.consumer.got)); }
    case _ =>
  }

  lemma OneProducerStep<T>(w: Width, s: State<T>, a: Action<T>)
    requires Shaped(s) && OfProducer(a)
    ensures ConsumerUntouched(s, Next(w, s, a))
  {
    match a
    case PushLoadHead =>
      Recorded(s.log, WasFull);
      Logged(s.capacity, s.log, WasFull);
    case PushStore =>
      if s.producer.Wrote? {
        Recorded(s.log, Pushed(s.producer.item));
        Logged(s.capacity, s.log, Pushed(s.producer.item));
      }
    case _ =>
  }

  lemma {:induction false} ConsumerSteps<T>(w: Width, s: State<T>, actions: seq<Action<T>>)
    requires Shaped(s) && Consuming(actions)
    ensures ProducerUntouched(s, Exec(w, s, actions))
  {
    if actions != [] {
      ConsumerSteps(w, s, actions[..|actions| - 1]);
      OneConsumerStep(w, Exec(w, s, actions[..|actions| - 1]), actions[|actions| - 1]);
    }
  }

  lemma {:induction false} ProducerSteps<T>(w: Width, s: State<T>, actions: seq<Action<T>>)
    requires Shaped(s) && Producing(actions)
    ensures ConsumerUntouched(s, Exec(w, s, actions))
  {
    if actions != [] {
      ProducerSteps(w, s, actions[..|actions| - 1]);
      OneProducerStep(w, Exec(w, s, actions[..|actions| - 1]), actions[|actions| - 1]);
    }
  }

  lemma {:induction false} ExecAppend<T>(w: Width, s: State<T>, a: seq<Action<T>>, b: seq<Action<T>>)
    requires Shaped(s)
    ensures Exec(w, s, a + b) == Exec(w, Exec(w, s, a), b)
  {
    if b == [] {
      assert a + b == a;
    } else {
      ExecAppend(w, s, a, b[..|b| - 1]);
      WithoutLast(a, b);
    }
  }

  /** Steps of the other thread, and then one of this. */
  lemma ThenOne<T>(w: Width, s: State<T>, others: seq<Action<T>>, a: Action<T>)
    requires Shaped(s)
    ensures Exec(w, s, others + [a]) == Next(w, Exec(w, s, others), a)
  {
    assert (others + [a])[..|others|] == others;
  }

  lemma JustOne<T>(w: Width, s: State<T>, a: Action<T>)
    requires Shaped(s)
    ensures Exec(w, s, [a]) == Next(w, s, a)
  {
    assert [a][..0] == [];
  }

  // ------------------------------------------------------------------- push

  /** A push up to the point where it looks at the head. */
  function PushBegins<T>(x: T, c0: seq<Action<T>>, c1: seq<Action<T>>): seq<Action<T>> {
    (c0 + [PushLoadTail(x)]) + c1
  }

  /** And from there to its end. */
  function PushEnds<T>(c2: seq<Action<T>>, c3: seq<Action<T>>): seq<Action<T>> {
    [PushLoadHead] + (c2 + [PushWrite]) + (c3 + [PushStore])
  }

  lemma BegunPush<T>(w: Width, s: State<T>, x: T, c0: seq<Action<T>>, c1: seq<Action<T>>)
    requires Shaped(s) && s.producer.Away? && Consuming(c0) && Consuming(c1)
    ensures var u := Exec(w, s, PushBegins(x, c0, c1));
            u.producer == GotTail(x, s.tail) && u.tail == s.tail && Answers(u.log) == Answers(s.log)
  {
    ExecAppend(w, s, c0 + [PushLoadTail(x)], c1);
    ThenOne(w, s, c0, PushLoadTail(x));
    ConsumerSteps(w, s, c0);
    ConsumerSteps(w, Exec(w, s, c0 + [PushLoadTail(x)]), c1);
  }

  lemma EndedPush<T>(w: Width, u: State<T>, c2: seq<Action<T>>, c3: seq<Action<T>>)
    requires Shaped(u) && u.producer.GotTail? && Consuming(c2) && Consuming(c3)
    ensures var t := Exec(w, u, PushEnds(c2, c3));
            var full := Minus(w, u.producer.tail, u.head) >= u.capacity;
            && t.producer.Away?
            && Answers(t.log) == Answers(u.log) + [if full then WasFull else Pushed(u.producer.item)]
            && t.tail == if full then u.tail else Plus(w, u.producer.tail, 1)
  {
    var v := Next(w, u, PushLoadHead);
    ExecAppend(w, u, [PushLoadHead] + (c2 + [PushWrite]), c3 + [PushStore]);
    ExecAppend(w, u, [PushLoadHead], c2 + [PushWrite]);
    JustOne(w, u, PushLoadHead);
    if v.log != u.log {
      Recorded(u.log, WasFull);
    }
    PushFromHead(w, v, c2, c3);
  }

  lemma WriteHalf<T>(w: Width, v: State<T>, c2: seq<Action<T>>)
    requires Shaped(v) && (v.producer.Away? || v.producer.GotHead?) && Consuming(c2)
    ensures var v1, q := Exec(w, v, c2 + [PushWrite]), v.producer;
            && v1.producer == (if q.GotHead? then Wrote(q.item, q.tail) else Away)
            && Answers(v1.log) == Answers(v.log) && v1.tail == v.tail
  {
    ThenOne(w, v, c2, PushWrite);
    ConsumerSteps(w, v, c2);
  }

  lemma StoreHalf<T>(w: Width, v: State<T>, c3: seq<Action<T>>)
    requires Shaped(v) && (v.producer.Away? || v.producer.Wrote?) && Consuming(c3)
    ensures var t, q := Exec(w, v, c3 + [PushStore]), v.producer;
            && t.producer.Away?
            && Answers(t.log) == Answers(v.log) + (if q.Wrote? then [Pushed(q.item)] else [])
            && t.tail == if q.Wrote? then Plus(w, q.tail, 1) else v.tail
  {
    ThenOne(w, v, c3, PushStore);
    ConsumerSteps(w, v, c3);
    if v.producer.Wrote? {
      Recorded(Exec(w, v, c3).log, Pushed(v.producer.item));
    }
  }

  /** The second half of a push that found room is a write and a store; there is
      nothing left to do of one that did not. */
  lemma PushFromHead<T>(w: Width, v: State<T>, c2: seq<Action<T>>, c3: seq<Action<T>>)
    requires Shaped(v) && (v.producer.Away? || v.producer.GotHead?) && Consuming(c2) && Consuming(c3)
    ensures var t := Exec(w, Exec(w, v, c2 + [PushWrite]), c3 + [PushStore]);
            && t.producer.Away?
            && Answers(t.log) == Answers(v.log) + (if v.producer.GotHead? then [Pushed(v.producer.item)] else [])
            && t.tail == if v.producer.GotHead? then Plus(w, v.producer.tail, 1) else v.tail
  {
    WriteHalf(w, v, c2);
    StoreHalf(w, Exec(w, v, c2 + [PushWrite]), c3);
  }

  /** In every state any interleaving leads to, on 64-bit counters: a push that runs
      to its end, with any steps of the consumer in between, answers once. It has
      pushed exactly if fewer items than the capacity were queued when it looked at
      the head, and met a full queue otherwise. */
  lemma PushAnswersOnce<T>(slots: seq<T>, before: seq<Action<T>>, x: T, c0: seq<Action<T>>, c1: seq<Action<T>>,
                           c2: seq<Action<T>>, c3: seq<Action<T>>)
    requires Sized(Start(slots)) && Exec(Bits64, Start(slots), before).producer.Away?
    requires Consuming(c0) && Consuming(c1) && Consuming(c2) && Consuming(c3)
    ensures var s := Exec(Bits64, Start(slots), before);
            var u := Exec(Bits64, s, PushBegins(x, c0, c1));
            var t := Exec(Bits64, u, PushEnds(c2, c3));
            && t.producer.Away?
            && Answers(t.log) == Answers(s.log) + [if |Replay(u.log).items| < |slots| then Pushed(x) else WasFull]
  {
    var s := Exec(Bits64, Start(slots), before);
    BegunPush(Bits64, s, x, c0, c1);
    EndedPush(Bits64, Exec(Bits64, s, PushBegins(x, c0, c1)), c2, c3);
    ExecAppend(Bits64, Start(slots), before, PushBegins(x, c0, c1));
    CountedItems(slots, before + PushBegins(x, c0, c1));
  }

  /** The wrapped counters tell how many items are queued. */
  lemma CountedItems<T>(slots: seq<T>, actions: seq<Action<T>>)
    requires Sized(Start(slots))
    ensures var u := Exec(Bits64, Start(slots), actions); Minus(Bits64, u.tail, u.head) == |Replay(u.log).items|
  {
    ExecWraps(slots, actions);
    ExecKeepsInv(slots, actions);
    var v := Exec(Unbounded, Start(slots), actions);
    WrappedDifference(v.tail, v.head);
  }

  // -------------------------------------------------------------- pop_batch

  /** One item moved out of its slot, after some steps of the producer. */
  datatype Move<T> = Move(others: seq<Action<T>>, leftover: T)

  ghost predicate Undisturbed<T>(moves: seq<Move<T>>) {
    forall k :: 0 <= k < |moves| ==> Producing(moves[k].others)
  }

  function Moves<T>(moves: seq<Move<T>>): seq<Action<T>> {
    if moves == [] then []
    else
      var last := moves[|moves| - 1];
      Moves(moves[..|moves| - 1]) + (last.others + [PopRead(last.leftover)])
  }

  /** A batch pop up to the point where it looks at the tail. */
  function PopBegins<T>(max: nat, d0: seq<Action<T>>, d1: seq<Action<T>>): seq<Action<T>> {
    (d0 + [PopLoadHead(max)]) + d1
  }

  /** And from there to its end. */
  function PopEnds<T>(d2: seq<Action<T>>, moves: seq<Move<T>>, d3: seq<Action<T>>): seq<Action<T>> {
    [PopLoadTail] + (d2 + [PopDecide]) + Moves(moves) + (d3 + [PopStore])
  }

  lemma BegunPop<T>(w: Width, s: State<T>, max: nat, d0: seq<Action<T>>, d1: seq<Action<T>>)
    requires Shaped(s) && s.consumer.Resting? && Producing(d0) && Producing(d1)
    ensures var u := Exec(w, s, PopBegins(max, d0, d1));
            u.consumer == Entered(max, s.head) && u.head == s.head && Takings(u.log) == Takings(s.log)
  {
    ExecAppend(w, s, d0 + [PopLoadHead(max)], d1);
    ThenOne(w, s, d0, PopLoadHead(max));
    ProducerSteps(w, s, d0);
    ProducerSteps(w, Exec(w, s, d0 + [PopLoadHead(max)]), d1);
  }

  lemma OneMove<T>(w: Width, s: State<T>, leftover: T)
    requires Shaped(s) && s.consumer.Taking? && |s.consumer.got| <= s.consumer.count
    ensures var c, c' := s.consumer, Next(w, s, PopRead(leftover)).consumer;
            && c'.Taking? && c'.max == c.max && c'.head == c.head && c'.count == c.count
            && |c'.got| == Min(|c.got| + 1, c.count)
    ensures QueueKept(s, Next(w, s, PopRead(leftover)))
  {
  }

  /** Every move takes one item more, until there are as many as decided. */
  lemma {:induction false} MovesGoOn<T>(w: Width, s: State<T>, moves: seq<Move<T>>)
    requires Shaped(s) && s.consumer.Taking? && s.consumer.got == [] && Undisturbed(moves)
    ensures var c, t := s.consumer, Exec(w, s, Moves(moves));
            && t.consumer.Taking? && t.consumer.max == c.max && t.consumer.head == c.head
            && t.consumer.count == c.count && |t.consumer.got| == Min(|moves|, c.count)
            && QueueKept(s, t)
  {
    if moves != [] {
      var before, last := moves[..|moves| - 1], moves[|moves| - 1];
      MovesGoOn(w, s, before);
      var u := Exec(w, s, Moves(before));
      ExecAppend(w, s, Moves(before), last.others + [PopRead(last.leftover)]);
      ThenOne(w, u, last.others, PopRead(last.leftover));
      ProducerSteps(w, u, last.others);
      var u' := Exec(w, u, last.others);
      OneMove(w, u', last.leftover);
      QueueStaysKept(s, u, u');
      QueueStaysKept(s, u', Next(w, u', PopRead(last.leftover)));
    }
  }

  lemma LookedAt<T>(w: Width, u: State<T>)
    requires Shaped(u) && u.consumer.Entered?
    ensures var u', c := Next(w, u, PopLoadTail), u.consumer;
            var a := Minus(w, u.tail, c.head);
            && u'.consumer == Looked(c.max, c.head, u.tail) && u'.head == u.head && u'.capacity == u.capacity
            && Takings(u'.log) == Takings(u.log) + [Saw(a)]
            && Replay(u'.log) == Fifo(Replay(u.log).items, a)
  {
    var a := Minus(w, u.tail, u.consumer.head);
    Recorded(u.log, Saw(a));
    Logged(u.capacity, u.log, Saw(a));
  }

  lemma DecidedPop<T>(w: Width, u: State<T>, d2: seq<Action<T>>)
    requires Shaped(u) && u.consumer.Entered? && Producing(d2)
    ensures var v, c := Exec(w, u, [PopLoadTail] + (d2 + [PopDecide])), u.consumer;
            var a := Minus(w, u.tail, c.head);
            && v.consumer == (if a == 0 then Resting else Taking(c.max, c.head, Min(a, c.max), []))
            && QueueKept(Next(w, u, PopLoadTail), v)
  {
    ExecAppend(w, u, [PopLoadTail], d2 + [PopDecide]);
    JustOne(w, u, PopLoadTail);
    var u1 := Next(w, u, PopLoadTail);
    ThenOne(w, u1, d2, PopDecide);
    ProducerSteps(w, u1, d2);
    LookedAt(w, u);
  }

  /** What a batch pop that runs to its end leaves behind: one look, and one pop of
      what it saw, up to its maximum, unless it saw nothing. */
  ghost predicate PoppedOnce<T>(w: Width, u: State<T>, t: State<T>)
    requires u.consumer.Entered?
  {
    var c, done, all := u.consumer, Takings(u.log), Takings(t.log);
    var a := Minus(w, u.tail, c.head);
    && t.consumer.Resting?
    && if a == 0 then t.head == u.head && all == done + [Saw(0)]
       else
         && t.head == Plus(w, c.head, Min(a, c.max))
         && |all| == |done| + 2 && all[..|done| + 1] == done + [Saw(a)]
         && all[|done| + 1].Popped? && all[|done| + 1].max == c.max && |all[|done| + 1].items| == Min(a, c.max)
         && t.log != []
         && var before := t.log[..|t.log| - 1];
            && t.log == before + [all[|done| + 1]]
            && Replay(u.log).items <= Replay(before).items && Replay(before).seen == a
  }

  lemma EndedPop<T>(w: Width, u: State<T>, d2: seq<Action<T>>, moves: seq<Move<T>>, d3: seq<Action<T>>)
    requires Shaped(u) && u.consumer.Entered? && u.head == u.consumer.head
    requires Producing(d2) && Undisturbed(moves) && Producing(d3)
    requires |moves| >= Min(Minus(w, u.tail, u.consumer.head), u.consumer.max)
    ensures PoppedOnce(w, u, Exec(w, u, PopEnds(d2, moves, d3)))
  {
    var c, look := u.consumer, [PopLoadTail] + (d2 + [PopDecide]);
    var v := Exec(w, u, look);
    ExecAppend(w, u, look + Moves(moves), d3 + [PopStore]);
    ExecAppend(w, u, look, Moves(moves));
    DecidedPop(w, u, d2);
    LookedAt(w, u);
    if v.consumer.Taking? {
      MovesGoOn(w, v, moves);
      var v1 := Exec(w, v, Moves(moves));
      StoredPop(w, v1, d3);
      QueueStaysKept(Next(w, u, PopLoadTail), v, v1);
      QueueStaysKept(Next(w, u, PopLoadTail), v1, Exec(w, v1, d3));
      assert Exec(w, v1, d3 + [PopStore]).log[..|Exec(w, v1, d3).log|] == Exec(w, v1, d3).log;
    } else {
      RestingRests(w, v, moves, d3);
    }
  }

  lemma StoredPop<T>(w: Width, v: State<T>, d3: seq<Action<T>>)
    requires Shaped(v) && v.consumer.Taking? && |v.consumer.got| == v.consumer.count && Producing(d3)
    ensures var t, c := Exec(w, v, d3 + [PopStore]), v.consumer;
            && t.consumer.Resting? && t.head == Plus(w, c.head, c.count)
            && Takings(t.log) == Takings(v.log) + [Popped(c.max, c.got)]
            && t.log == Exec(w, v, d3).log + [Popped(c.max, c.got)]
    ensures QueueKept(v, Exec(w, v, d3))
  {
    ThenOne(w, v, d3, PopStore);
    ProducerSteps(w, v, d3);
    Recorded(Exec(w, v, d3).log, Popped(v.consumer.max, v.consumer.got));
  }

  lemma IdleMove<T>(w: Width, s: State<T>, others: seq<Action<T>>, leftover: T)
    requires Shaped(s) && s.consumer.Resting? && Producing(others)
    ensures ConsumerUntouched(s, Exec(w, s, others + [PopRead(leftover)]))
  {
    ThenOne(w, s, others, PopRead(leftover));
    ProducerSteps(w, s, others);
  }

  /** A call that saw nothing has ended: what would read or store does nothing. */
  lemma {:induction false} RestingMoves<T>(w: Width, s: State<T>, moves: seq<Move<T>>)
    requires Shaped(s) && s.consumer.Resting? && Undisturbed(moves)
    ensures ConsumerUntouched(s, Exec(w, s, Moves(moves)))
  {
    if moves != [] {
      var before, last := moves[..|moves| - 1], moves[|moves| - 1];
      RestingMoves(w, s, before);
      ExecAppend(w, s, Moves(before), last.others + [PopRead(last.leftover)]);
      IdleMove(w, Exec(w, s, Moves(before)), last.others, last.leftover);
      QueueStaysKept(s, Exec(w, s, Moves(before)), Exec(w, s, Moves(moves)));
    }
  }

  lemma RestingRests<T>(w: Width, v: State<T>, moves: seq<Move<T>>, d3: seq<Action<T>>)
    requires Shaped(v) && v.consumer.Resting? && Undisturbed(moves) && Producing(d3)
    ensures var t := Exec(w, Exec(w, v, Moves(moves)), d3 + [PopStore]);
            t.consumer.Resting? && t.head == v.head && Takings(t.log) == Takings(v.log)
  {
    RestingMoves(w, v, moves);
    var v1 := Exec(w, v, Moves(moves));
    ThenOne(w, v1, d3, PopStore);
    ProducerSteps(w, v1, d3);
  }

  lemma PoppedFirst<T>(capacity: nat, u: State<T>, t: State<T>, a: nat, e: Event<T>)
    requires Legal(capacity, t.log) && t.log != [] && t.log == t.log[..|t.log| - 1] + [e] && e.Popped?
    requires a == |Replay(u.log).items| && Replay(t.log[..|t.log| - 1]).seen == a
    requires Replay(u.log).items <= Replay(t.log[..|t.log| - 1]).items
    ensures e.items == Replay(u.log).items[..Min(a, e.max)]
  {
    var before := t.log[..|t.log| - 1];
    Logged(capacity, before, e);
    assert Replay(before).items[..Min(a, e.max)] == Replay(u.log).items[..Min(a, e.max)];
  }

  /** In every state any interleaving leads to, on 64-bit counters: a batch pop that
      runs to its end, with any steps of the producer in between, looks once at how
      many items are queued and, if there are any, takes the first of those it saw,
      up to its maximum, once. */
  lemma PopAnswersOnce<T>(slots: seq<T>, before: seq<Action<T>>, max: nat, d0: seq<Action<T>>, d1: seq<Action<T>>,
                          d2: seq<Action<T>>, moves: seq<Move<T>>, d3: seq<Action<T>>)
    requires Sized(Start(slots)) && Exec(Bits64, Start(slots), before).consumer.Resting?
    requires Producing(d0) && Producing(d1) && Producing(d2) && Undisturbed(moves) && Producing(d3)
    requires |moves| >= Min(|slots|, max)
    ensures var s := Exec(Bits64, Start(slots), before);
            var u := Exec(Bits64, s, PopBegins(max, d0, d1));
            var t := Exec(Bits64, u, PopEnds(d2, moves, d3));
            var queued := Replay(u.log).items;
            && t.consumer.Resting?
            && Takings(t.log) == Takings(s.log) + [Saw(|queued|)]
                                 + (if queued == [] then [] else [Popped(max, queued[..Min(|queued|, max)])])
  {
    var s := Exec(Bits64, Start(slots), before);
    var begun, ended := PopBegins(max, d0, d1), PopEnds(d2, moves, d3);
    var u := Exec(Bits64, s, begun);
    BegunPop(Bits64, s, max, d0, d1);
    ExecAppend(Bits64, Start(slots), before, begun);
    CountedItems(slots, before + begun);
    QueueIsLinearizable(slots, before + begun);
    EndedPop(Bits64, u, d2, moves, d3);
    ExecAppend(Bits64, Start(slots), before + begun, ended);
    QueueIsLinearizable(slots, (before + begun) + ended);
    var t := Exec(Bits64, u, ended);
    if Replay(u.log).items != [] {
      PoppedFirst(|slots|, u, t, |Replay(u.log).items|, Takings(t.log)[|Takings(u.log)| + 1]);
    }
  }
}
