/** The gateway's command path: lines become numbered messages, the matching
    thread executes them, and every one is answered with one response. */
module Gateway {
  import opened Types
  import opened Book
  import opened Matching
  import opened Queues
  import opened Runs
  import opened PoolAnatomy
  import opened PoolEngine
  import opened Text
  import opened Protocol
  import opened SpscMachine
  import opened SpscRing
  import opened SpscWrap
  import Pipeline
  import Progress
  import Rings = RingPipeline

  datatype IngressMessage = IngressMessage(sequence: nat, clientFd: int, ingressTimestamp: Timestamp, command: Command)

  datatype ResponseMessage = ResponseMessage(clientFd: int, sequence: nat, payload: string)

  // ---------------------------------------------------------- what is computed

  function BookAfter(b: Book, c: Command): Book {
    match c
    case New(order) => Submit(b, order).book
    case CancelById(id) => Cancel(b, id).book
    case Flush => EMPTY
    case Unknown(_) => b
  }

  function TradesText(trades: seq<Trade>): string {
    if trades == [] then "" else TradesText(trades[..|trades| - 1]) + TradeText(trades[|trades| - 1])
  }

  /** What follows the trades of an accepted order. */
  function ClosingText(order: Order, resting: Option<Order>, trades: seq<Trade>): string {
    if resting.Some? && resting.value.remainingQuantity > 0 then AckText(order.orderId, resting.value.remainingQuantity)
    else if trades == [] && order.orderType.Market? then RejectText(order.orderId, "NO_LIQUIDITY_FOR_MARKET_ORDER")
    else ""
  }

  function ResponseText(b: Book, c: Command): string {
    match c
    case New(order) =>
      var r := Submit(b, order);
      if !r.ok then RejectText(order.orderId, "DUPLICATE_OR_INVALID_ORDER")
      else TradesText(r.trades) + ClosingText(order, Lookup(r.book, order.orderId), r.trades)
    case CancelById(id) => if id in BookIds(b) then CanceledText(id) else RejectText(id, "ORDER_NOT_FOUND")
    case Flush => InfoText("BOOK_FLUSHED")
    case Unknown(_) => ""
  }

  function ResponseTo(b: Book, m: IngressMessage): Option<ResponseMessage> {
    var payload := ResponseText(b, m.command);
    if payload == "" then None else Some(ResponseMessage(m.clientFd, m.sequence, payload))
  }

  method ExecuteNew(engine: PoolOrderBook, order: Order) returns (payload: string)
    requires engine.Valid() && Room(Submit(engine.View(), order).book, |engine.nodes|)
    modifies engine
    ensures engine.Valid() && engine.View() == Submit(old(engine.View()), order).book
    ensures payload == ResponseText(old(engine.View()), New(order))
  {
    ghost var r := Submit(engine.View(), order);
    var ok, trades := engine.SubmitOrder(order, []);
    assert trades == r.trades;
    if !ok {
      payload := RejectText(order.orderId, "DUPLICATE_OR_INVALID_ORDER");
    } else {
      payload := FormatTrades(trades, "");
      var resting := engine.GetOrder(order.orderId);
      Appended(TradesText(trades), ClosingText(order, resting, trades), "");
      payload := payload + ClosingText(order, resting, trades);
    }
  }

  method ExecuteCommand(engine: PoolOrderBook, m: IngressMessage) returns (response: Option<ResponseMessage>)
    requires engine.Valid() && Room(BookAfter(engine.View(), m.command), |engine.nodes|)
    modifies engine
    ensures engine.Valid() && engine.View() == BookAfter(old(engine.View()), m.command)
    ensures response == ResponseTo(old(engine.View()), m)
  {
    var payload := "";
    if m.command.Flush? {
      engine.Clear();
      payload := InfoText("BOOK_FLUSHED");
    } else if m.command.CancelById? {
      var ok := engine.CancelOrder(m.command.id);
      payload := if ok then CanceledText(m.command.id) else RejectText(m.command.id, "ORDER_NOT_FOUND");
    } else if m.command.New? {
      payload := ExecuteNew(engine, m.command.order);
    }
    response := if payload != "" then Some(ResponseMessage(m.clientFd, m.sequence, payload)) else None;
  }

  lemma Appended(a: string, b: string, c: string)
    ensures (a + b) + c == a + (b + c) && [] + a == a
  {
  }

  lemma TradesTextGrows(trades: seq<Trade>, i: nat)
    requires i < |trades|
    ensures TradesText(trades[..i + 1]) == TradesText(trades[..i]) + TradeText(trades[i])
  {
    assert trades[..i + 1][..i] == trades[..i];
  }

  method FormatTrades(trades: seq<Trade>, out: string) returns (out': string)
    ensures out' == out + TradesText(trades)
  {
    out' := out;
    for i := 0 to |trades|
      invariant out' == out + TradesText(trades[..i])
    {
      TradesTextGrows(trades, i);
      Appended(out, TradesText(trades[..i]), TradeText(trades[i]));
      out' := out' + TradeText(trades[i]);
    }
    assert trades[..|trades|] == trades;
  }

  // -------------------------------------------------- one response per command

  lemma {:induction false} InsertedIsFound(queue: seq<Order>, order: Order)
    requires order.orderId !in Ids(queue)
    ensures Find(Insert(queue, order), order.orderId) == Some(order) && order.orderId in Ids(Insert(queue, order))
  {
    if queue != [] && !Better(order.side, order.price, queue[0].price) {
      assert Insert(queue, order)[1..] == Insert(queue[1..], order);
      InsertedIsFound(queue[1..], order);
    }
  }

  /** After an accepted submission the book knows the order exactly if it rests. */
  lemma LookupSubmitted(b: Book, order: Order)
    requires WellFormed(b) && Accepts(b, order)
    ensures var taker := Greedy(Effective(order), b.Queue(Opposite(order.side))).taker;
            Lookup(Submit(b, order).book, order.orderId)
              == if taker.remainingQuantity > 0 && order.orderType.Limit? then Some(taker) else None
  {
    var mine, other := b.Queue(order.side), b.Queue(Opposite(order.side));
    var f := Greedy(Effective(order), other);
    MatchedIds(b, order);
    InsertedIsFound(mine, f.taker);
    RemoveAbsent(mine, order.orderId);
    RemoveAbsent(f.rest, order.orderId);
  }

  /** Nothing traded and nothing left means nothing was submitted. */
  lemma SomethingHappens(b: Book, order: Order)
    requires WellFormed(b) && Accepts(b, order)
    ensures var f := Greedy(Effective(order), b.Queue(Opposite(order.side)));
            f.trades == [] ==> f.taker.remainingQuantity > 0
  {
  }

  /** Every command that reaches the matching thread is answered. */
  lemma EveryCommandIsAnswered(b: Book, c: Command)
    requires WellFormed(b) && !c.Unknown?
    ensures ResponseText(b, c) != ""
  {
    if c.New? && Accepts(b, c.order) {
      LookupSubmitted(b, c.order);
      SomethingHappens(b, c.order);
      var trades := Submit(b, c.order).trades;
      if trades != [] { assert TradeText(trades[|trades| - 1]) != ""; }
    }
  }

  // ------------------------------------------------------ quantity accounting

  function Counted(n: Option<nat>): nat {
    if n.Some? then n.value else 0
  }

  /** The quantity a client reads off a response line: the traded quantity of a
      trade report, the remainder of an acknowledgement. */
  function QuantityIn(line: string): nat {
    var t := Tokens(line);
    if |t| == 6 && t[0] == "TRADE" then Counted(ParseNum(t[4], QUANTITY_BOUND))
    else if |t| == 3 && t[0] == "ACK" then Counted(ParseNum(t[2], QUANTITY_BOUND))
    else 0
  }

  function TotalQuantity(lines: seq<string>): nat {
    if lines == [] then 0 else QuantityIn(lines[0]) + TotalQuantity(lines[1..])
  }

  lemma TradeCounts(t: Trade, rest: string)
    ensures TotalQuantity(Lines(TradeText(t) + rest)) == t.quantity + TotalQuantity(Lines(rest))
  {
    TradeIsReadBack(t, rest);
    FirstCounts(Sentence(TradeWords(t)), Lines(rest));
  }

  lemma FirstCounts(line: string, lines: seq<string>)
    ensures TotalQuantity([line] + lines) == QuantityIn(line) + TotalQuantity(lines)
  {
  }

  /** The text and the total of a list of trades, taken apart at the last. */
  lemma LastTrade(trades: seq<Trade>, rest: string)
    requires trades != []
    ensures var before, last := trades[..|trades| - 1], trades[|trades| - 1];
            && TradesText(trades) + rest == TradesText(before) + (TradeText(last) + rest)
            && Traded(trades) == Traded(before) + last.quantity
  {
    var before, last := trades[..|trades| - 1], trades[|trades| - 1];
    Appended(TradesText(before), TradeText(last), rest);
    TradedConcat(before, [last]);
    assert before + [last] == trades;
  }

  lemma {:induction false} TradesCount(trades: seq<Trade>, rest: string)
    ensures TotalQuantity(Lines(TradesText(trades) + rest)) == Traded(trades) + TotalQuantity(Lines(rest))
    decreases |trades|
  {
    if trades == [] {
      assert TradesText(trades) + rest == rest;
    } else {
      var last := trades[|trades| - 1];
      LastTrade(trades, rest);
      TradesCount(trades[..|trades| - 1], TradeText(last) + rest);
      TradeCounts(last, rest);
    }
  }

  lemma AckCounts(id: OrderId, remaining: Quantity)
    ensures TotalQuantity(Lines(AckText(id, remaining))) == remaining
  {
    var text := AckText(id, remaining);
    assert text + "" == text;
    AckIsReadBack(id, remaining, "");
    FirstCounts(Sentence(AckWords(id, remaining)), []);
  }

  lemma RejectIsNoQuantity(line: string, words: seq<string>)
    requires Tokens(line) == words && words != [] && words[0] == "REJECT"
    ensures QuantityIn(line) == 0
  {
    assert words[0][0] == 'R';
  }

  lemma RejectCounts(id: OrderId, reason: string)
    requires Plain([reason])
    ensures TotalQuantity(Lines(RejectText(id, reason))) == 0
  {
    var words := ["REJECT", ToString(id), reason];
    RejectIsLine(id, reason);
    FirstCounts(Sentence(words), []);
    RejectIsNoQuantity(Sentence(words), words);
  }

  lemma RejectWordsArePlain(id: OrderId, reason: string)
    requires Plain([reason])
    ensures Plain(["REJECT", ToString(id), reason])
  {
    assert [reason][0] == reason;
    ParsePrinted(id, ID_BOUND);
  }

  lemma RejectIsLine(id: OrderId, reason: string)
    requires Plain([reason])
    ensures var line := Sentence(["REJECT", ToString(id), reason]);
            Lines(RejectText(id, reason)) == [line] + [] && Tokens(line) == ["REJECT", ToString(id), reason]
  {
    var words := ["REJECT", ToString(id), reason];
    RejectWordsArePlain(id, reason);
    SentenceIsLine(words, "");
    ThreeWords("REJECT", ToString(id), reason);
    assert "REJECT " == "REJECT" + " ";
    assert RejectText(id, reason) == Sentence(words) + "\n" + "";
  }

  lemma ClosingCounts(order: Order, resting: Option<Order>, trades: seq<Trade>)
    ensures TotalQuantity(Lines(ClosingText(order, resting, trades))) == if resting.Some?
            then resting.value.remainingQuantity else 0
  {
    if resting.Some? && resting.value.remainingQuantity > 0 {
      AckCounts(order.orderId, resting.value.remainingQuantity);
    } else {
      RejectCounts(order.orderId, "NO_LIQUIDITY_FOR_MARKET_ORDER");
    }
  }

  /** The numbers a client reads in the response to an accepted order add up to
      the quantity submitted, less what a market order could not fill. */
  lemma QuantitiesAddUp(b: Book, order: Order)
    requires WellFormed(b) && Accepts(b, order)
    ensures var leftover := Greedy(Effective(order), b.Queue(Opposite(order.side))).taker.remainingQuantity;
            TotalQuantity(Lines(ResponseText(b, New(order)))) + (if order.orderType.Market? then leftover else 0)
              == Effective(order).remainingQuantity
  {
    var r := Submit(b, order);
    LookupSubmitted(b, order);
    GreedyConserves(Effective(order), b.Queue(Opposite(order.side)));
    TradesCount(r.trades, ClosingText(order, Lookup(r.book, order.orderId), r.trades));
    ClosingCounts(order, Lookup(r.book, order.orderId), r.trades);
  }

  // --------------------------------------------------------- sequence numbers

  /** A line from a client, with the two clock readings taken on its way. */
  datatype ClientLine = ClientLine(clientFd: int, text: string, parsedAt: Timestamp, queuedAt: Timestamp)

  /** What becomes of a line: an empty one is skipped, a malformed one refused on
      the spot, and a command gets the next sequence number and is queued. */
  datatype Fate = Skipped | Refused(reply: string) | Queued(message: IngressMessage)

  function ProcessLine(line: ClientLine, next: nat): Fate {
    if line.text == "" then Skipped
    else
      var c := ParseLine(line.text, line.parsedAt);
      match c
      case Unknown(error) => Refused(RejectText(0, error))
      case _ => Queued(IngressMessage(next, line.clientFd, line.queuedAt, c))
  }

  function Joined(messages: seq<IngressMessage>, fate: Fate): seq<IngressMessage> {
    if fate.Queued? then messages + [fate.message] else messages
  }

  /** The messages queued for a sequence of lines; numbers start at 1 and wrap. */
  function Admitted(lines: seq<ClientLine>): seq<IngressMessage> {
    if lines == [] then []
    else
      var before := Admitted(lines[..|lines| - 1]);
      var fate := ProcessLine(lines[|lines| - 1], (|before| + 1) % 0x1_0000_0000_0000_0000);
      Joined(before, fate)
  }

  /** A line refused on the spot, and the client that is told. */
  datatype Refusal = Refusal(clientFd: int, reply: string)

  function Refusals(lines: seq<ClientLine>): seq<Refusal> {
    if lines == [] then []
    else
      var line := lines[|lines| - 1];
      Told(Refusals(lines[..|lines| - 1]), line.clientFd, ProcessLine(line, 0))
  }

  function Told(refusals: seq<Refusal>, clientFd: int, fate: Fate): seq<Refusal> {
    if fate.Refused? then refusals + [Refusal(clientFd, fate.reply)] else refusals
  }

  lemma LineRefused(lines: seq<ClientLine>, i: nat, next: nat)
    requires i < |lines|
    ensures Refusals(lines[..i + 1]) == Told(Refusals(lines[..i]), lines[i].clientFd, ProcessLine(lines[i], next))
  {
    assert lines[..i + 1][..i] == lines[..i];
  }

  lemma LineProcessed(lines: seq<ClientLine>, i: nat)
    requires i < |lines|
    ensures var before := Admitted(lines[..i]);
            var fate := ProcessLine(lines[i], (|before| + 1) % 0x1_0000_0000_0000_0000);
            Admitted(lines[..i + 1]) == Joined(before, fate)
  {
    assert lines[..i + 1][..i] == lines[..i];
  }

  lemma NumberGrows(messages: seq<IngressMessage>, fate: Fate, next: nat, next': nat)
    requires next == (|messages| + 1) % 0x1_0000_0000_0000_0000
    requires next' == if fate.Queued? then (next + 1) % 0x1_0000_0000_0000_0000 else next
    ensures next' == (|Joined(messages, fate)| + 1) % 0x1_0000_0000_0000_0000
  {
    WordAdds(|messages| + 1, 1);
  }

  /** Consecutive numbers from 1, on commands only. */
  ghost predicate Numbered(messages: seq<IngressMessage>) {
    forall k :: 0 <= k < |messages| ==> messages[k].sequence == k + 1 && !messages[k].command.Unknown?
  }

  lemma {:induction false} AdmittedInOrder(lines: seq<ClientLine>)
    requires |lines| < 0x1_0000_0000_0000_0000 - 1
    ensures |Admitted(lines)| <= |lines| && Numbered(Admitted(lines))
  {
    if lines != [] {
      var before := Admitted(lines[..|lines| - 1]);
      AdmittedInOrder(lines[..|lines| - 1]);
      FateOf(lines[|lines| - 1], |before| + 1);
      OneMoreNumber(before, ProcessLine(lines[|lines| - 1], |before| + 1));
    }
  }

  lemma FateOf(line: ClientLine, next: nat)
    ensures var fate := ProcessLine(line, next);
            fate.Queued? ==> fate.message.sequence == next && !fate.message.command.Unknown?
  {
  }

  lemma OneMoreNumber(before: seq<IngressMessage>, fate: Fate)
    requires Numbered(before) && |before| < 0x1_0000_0000_0000_0000 - 1
    requires fate.Queued? ==> fate.message.sequence == |before| + 1 && !fate.message.command.Unknown?
    ensures Numbered(Joined(before, fate))
    ensures (|before| + 1) % 0x1_0000_0000_0000_0000 == |before| + 1
  {
  }

  /** The gateway's side of this: a counter that goes up with every queued message. */
  class LineServer {
    var nextSequence: nat

    constructor ()
      ensures nextSequence == 1
    {
      nextSequence := 1;
    }

    method ProcessClientLine(line: ClientLine) returns (fate: Fate)
      modifies this
      ensures fate == ProcessLine(line, old(nextSequence))
      ensures nextSequence == if fate.Queued? then (old(nextSequence) + 1) % 0x1_0000_0000_0000_0000
              else old(nextSequence)
    {
      if line.text == "" {
        return Skipped;
      }
      var command := ParseLine(line.text, line.parsedAt);
      match command
      case Unknown(error) =>
        fate := Refused(RejectText(0, error));
      case _ =>
        fate := Queued(IngressMessage(nextSequence, line.clientFd, line.queuedAt, command));
        nextSequence := (nextSequence + 1) % 0x1_0000_0000_0000_0000;
    }

    method ProcessLines(lines: seq<ClientLine>) returns (messages: seq<IngressMessage>, refusals: seq<Refusal>)
      requires nextSequence == 1
      modifies this
      ensures messages == Admitted(lines) && refusals == Refusals(lines)
    {
      messages, refusals := [], [];
      for i := 0 to |lines|
        invariant messages == Admitted(lines[..i]) && refusals == Refusals(lines[..i])
        invariant nextSequence == (|messages| + 1) % 0x1_0000_0000_0000_0000
      {
        ghost var next := nextSequence;
        var fate := ProcessClientLine(lines[i]);
        LineProcessed(lines, i);
        LineRefused(lines, i, next);
        NumberGrows(messages, fate, next, nextSequence);
        if fate.Queued? {
          messages := messages + [fate.message];
        } else if fate.Refused? {
          refusals := refusals + [Refusal(lines[i].clientFd, fate.reply)];
        }
      }
      assert lines[..|lines|] == lines;
    }
  }

  // ------------------------------------------------------------ the whole run

  const PROGRAM: Pipeline.Program<Book, IngressMessage, ResponseMessage> :=
    Pipeline.Program(EMPTY, (b: Book, m: IngressMessage) => BookAfter(b, m.command),
                     (b: Book, m: IngressMessage) => ResponseTo(b, m))

  function OpOf(c: Command): Op
    requires !c.Unknown?
  {
    match c
    case New(order) => SubmitOp(order)
    case CancelById(id) => CancelOp(id)
    case Flush => ClearOp
  }

  function Ops(messages: seq<IngressMessage>): (ops: seq<Op>)
    requires forall k :: 0 <= k < |messages| ==> !messages[k].command.Unknown?
    ensures |ops| == |messages|
  {
    if messages == [] then [] else Ops(messages[..|messages| - 1]) + [OpOf(messages[|messages| - 1].command)]
  }

  ghost predicate AllCommands(messages: seq<IngressMessage>) {
    forall k :: 0 <= k < |messages| ==> !messages[k].command.Unknown?
  }

  /** The book after a sequence of messages is that of the run of their operations. */
  lemma {:induction false} FoldIsRun(messages: seq<IngressMessage>)
    requires AllCommands(messages)
    ensures Pipeline.FoldBook(PROGRAM, messages) == Run(EMPTY, Ops(messages))
  {
    if messages != [] {
      var before := messages[..|messages| - 1];
      FoldIsRun(before);
      assert Ops(messages)[..|before|] == Ops(before);
    }
  }

  /** The response to message number `k`. */
  function Answer(messages: seq<IngressMessage>, k: nat): ResponseMessage
    requires k < |messages|
  {
    ResponseMessage(messages[k].clientFd, messages[k].sequence,
                    ResponseText(Pipeline.FoldBook(PROGRAM, messages[..k]), messages[k].command))
  }

  lemma IsAnswered(messages: seq<IngressMessage>, k: nat)
    requires AllCommands(messages) && k < |messages|
    ensures PROGRAM.reply(Pipeline.FoldBook(PROGRAM, messages[..k]), messages[k]) == Some(Answer(messages, k))
  {
    FoldIsRun(messages[..k]);
    ReachableIsWellFormed(Ops(messages[..k]));
    EveryCommandIsAnswered(Pipeline.FoldBook(PROGRAM, messages[..k]), messages[k].command);
  }

  /** Message number `k` is answered by response number `k`, and nothing else is. */
  lemma AnswersInOrder(messages: seq<IngressMessage>)
    requires AllCommands(messages)
    ensures |Pipeline.FoldReplies(PROGRAM, messages)| == |messages|
    ensures forall k :: 0 <= k < |messages| ==> Pipeline.FoldReplies(PROGRAM, messages)[k] == Answer(messages, k)
  {
    var answers := seq(|messages|, k requires 0 <= k < |messages| => Answer(messages, k));
    forall k | 0 <= k < |messages|
      ensures PROGRAM.reply(Pipeline.FoldBook(PROGRAM, messages[..k]), messages[k]) == Some(answers[k])
    {
      IsAnswered(messages, k);
    }
    Pipeline.RepliesAre(PROGRAM, messages, answers);
  }

  /** Every command is answered, so the two waits of `Progress` can be told by
      counting: the spinning push ends unless more commands than the response queue
      holds were taken and not collected, and the wait for the matching thread
      unless more than that were ever pushed and not collected. */
  lemma WaitsInNumbers(s: Pipeline.Core<Book, IngressMessage, ResponseMessage>)
    requires Pipeline.Inv(PROGRAM, false, s) && AllCommands(s.pushed)
    ensures Progress.WillMakeRoom(PROGRAM, s)
       <==> !s.matcher.Exited? && |Progress.Handed(s)| <= |s.collected| + s.outCapacity
    ensures Progress.WillLeave(PROGRAM, s) <==> s.matcher.Exited? || |s.pushed| <= |s.collected| + s.outCapacity
  {
    assert Progress.Handed(s) <= s.pushed;
    AnswersInOrder(Progress.Handed(s));
    AnswersInOrder(s.pushed);
  }

  /** In every interleaving of the gateway's two threads, down to the single loads
      and stores of their ring buffers, for any lines that came in and any batch
      sizes: each executed command has exactly one response, the last one perhaps
      still to be enqueued, and response number `k` carries sequence number `k + 1`
      and answers the `k`th command on the book its predecessors left. */
  lemma ResponsesAreNumbered(lines: seq<ClientLine>, inSlots: seq<IngressMessage>, outSlots: seq<ResponseMessage>,
                             steps: seq<Rings.Step<IngressMessage, ResponseMessage>>)
    requires |lines| < 0x1_0000_0000_0000_0000 - 1
    requires Sized(Start(inSlots)) && Sized(Start(outSlots))
    requires var s := Rings.Walk(Bits64, PROGRAM, Rings.Begin(PROGRAM, inSlots, outSlots), steps);
             In(s.ingress.log) <= Admitted(lines)
    ensures var s := Rings.Walk(Bits64, PROGRAM, Rings.Begin(PROGRAM, inSlots, outSlots), steps);
            var sent := In(s.responses.log);
            && s.executed <= Admitted(lines)
            && |s.executed| - 1 <= |sent| <= |s.executed|
            && forall k :: 0 <= k < |sent| ==> sent[k].sequence == k + 1 && sent[k] == Answer(Admitted(lines), k)
  {
    var s := Rings.Walk(Bits64, PROGRAM, Rings.Begin(PROGRAM, inSlots, outSlots), steps);
    var sent := In(s.responses.log);
    Rings.RingsDoNotMatter(PROGRAM, inSlots, outSlots, steps);
    AdmittedInOrder(lines);
    assert s.executed == Admitted(lines)[..|s.executed|];
    AnswersInOrder(s.executed);
    forall k | 0 <= k < |sent| ensures sent[k].sequence == k + 1 && sent[k] == Answer(Admitted(lines), k) {
      SameAnswer(s.executed, Admitted(lines), k);
    }
  }

  lemma SameAnswer(executed: seq<IngressMessage>, all: seq<IngressMessage>, k: nat)
    requires executed <= all && k < |executed|
    ensures Answer(executed, k) == Answer(all, k) && executed[k] == all[k]
  {
    assert executed[..k] == all[..k];
  }
}
