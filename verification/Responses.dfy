/** What a client reads in answer to a command, line by line. */
module Responses {
  import opened Types
  import opened Book
  import opened Matching
  import opened Runs
  import opened Outcomes
  import opened Text
  import opened Protocol
  import opened Gateway

  function TradeLine(t: Trade): string {
    "TRADE " + ToString(t.makerOrderId) + " " + ToString(t.takerOrderId) + " " + ToString(t.price) + " "
    + ToString(t.quantity) + (if t.aggressorSide.Buy? then " BUY" else " SELL")
  }

  function TradeLines(trades: seq<Trade>): (lines: seq<string>)
    ensures |lines| == |trades|
    ensures forall k :: 0 <= k < |trades| ==> lines[k] == TradeLine(trades[k])
  {
    seq(|trades|, k requires 0 <= k < |trades| => TradeLine(trades[k]))
  }

  lemma Glued(a: string, b: string, c: string)
    ensures a + b + c == a + (b + c)
  {
  }

  lemma TradeSentence(t: Trade)
    ensures Sentence(TradeWords(t)) == TradeLine(t)
  {
    SixWords("TRADE", ToString(t.makerOrderId), ToString(t.takerOrderId), ToString(t.price), ToString(t.quantity),
             SideWord(t.aggressorSide));
    assert "TRADE" + " " == "TRADE ";
    var front := "TRADE " + ToString(t.makerOrderId) + " " + ToString(t.takerOrderId) + " " + ToString(t.price) + " "
                 + ToString(t.quantity);
    Glued(front, " ", SideWord(t.aggressorSide));
    assert " " + "BUY" == " BUY" && " " + "SELL" == " SELL";
  }

  lemma TradeIsOneLine(t: Trade, rest: string)
    ensures Lines(TradeText(t) + rest) == [TradeLine(t)] + Lines(rest)
  {
    TradeIsReadBack(t, rest);
    TradeSentence(t);
  }

  lemma OneTradeMore(trades: seq<Trade>)
    requires trades != []
    ensures TradeLines(trades) == TradeLines(trades[..|trades| - 1]) + [TradeLine(trades[|trades| - 1])]
  {
  }

  lemma LastTradeIsLine(trades: seq<Trade>, rest: string, before: seq<string>)
    requires trades != []
    requires Lines(TradesText(trades[..|trades| - 1]) + (TradeText(trades[|trades| - 1]) + rest))
          == before + Lines(TradeText(trades[|trades| - 1]) + rest)
    ensures Lines(TradesText(trades) + rest) == (before + [TradeLine(trades[|trades| - 1])]) + Lines(rest)
  {
    LastTrade(trades, rest);
    TradeIsOneLine(trades[|trades| - 1], rest);
    Moved(before, TradeLine(trades[|trades| - 1]), Lines(rest));
  }

  lemma {:induction false} TradesAreLines(trades: seq<Trade>, rest: string)
    ensures Lines(TradesText(trades) + rest) == TradeLines(trades) + Lines(rest)
    decreases |trades|
  {
    if trades == [] {
      assert TradesText(trades) + rest == rest;
    } else {
      var before := trades[..|trades| - 1];
      TradesAreLines(before, TradeText(trades[|trades| - 1]) + rest);
      LastTradeIsLine(trades, rest, TradeLines(before));
      OneTradeMore(trades);
    }
  }

  lemma AckIsLine(id: OrderId, remaining: Quantity)
    ensures Lines(AckText(id, remaining)) == ["ACK " + ToString(id) + " " + ToString(remaining)]
  {
    AckIsReadBack(id, remaining, "");
    ThreeWords("ACK", ToString(id), ToString(remaining));
    assert AckText(id, remaining) + "" == AckText(id, remaining) && "ACK" + " " == "ACK ";
  }

  lemma RejectIsOneLine(id: OrderId, reason: string)
    requires Plain([reason])
    ensures Lines(RejectText(id, reason)) == ["REJECT " + ToString(id) + " " + reason]
  {
    RejectIsLine(id, reason);
    ThreeWords("REJECT", ToString(id), reason);
    assert "REJECT" + " " == "REJECT ";
  }

  /** A text that ends in one newline is one line. */
  lemma OneLine(line: string)
    requires '\n' !in line && line != [] && line[|line| - 1] != '\r'
    ensures Lines(line + "\n") == [line]
  {
    LinesOfLine(line, "");
    assert line + "\n" + "" == line + "\n";
  }

  // ------------------------------------------------------------ new orders

  function AckLine(id: OrderId, left: nat): string {
    "ACK " + ToString(id) + " " + ToString(left)
  }

  function RejectLine(id: OrderId, reason: string): string {
    "REJECT " + ToString(id) + " " + reason
  }

  /** What follows the trades: the remainder if the order rests, and a rejection if it
      is a market order that met an empty side. */
  function Closing(order: Order, left: int, empty: bool): seq<string> {
    if order.orderType.Limit? then (if left > 0 then [AckLine(order.orderId, left)] else [])
    else if empty then [RejectLine(order.orderId, "NO_LIQUIDITY_FOR_MARKET_ORDER")] else []
  }

  lemma NoLiquidityIsPlain()
    ensures Plain(["NO_LIQUIDITY_FOR_MARKET_ORDER"])
  {
  }

  lemma RefusalIsPlain()
    ensures Plain(["DUPLICATE_OR_INVALID_ORDER"])
  {
  }

  lemma NotFoundIsPlain()
    ensures Plain(["ORDER_NOT_FOUND"])
  {
  }

  /** Which of the three closing texts follows the trades. */
  lemma ClosingTextIs(b: Book, order: Order)
    requires WellFormed(b) && Submit(b, order).ok
    ensures var r := Submit(b, order);
            var text, left := ClosingText(order, Lookup(r.book, order.orderId), r.trades),
              Wanted(order) - Traded(r.trades);
            && (order.orderType.Limit? && left > 0 ==> text == AckText(order.orderId, left))
            && (order.orderType.Market? && r.trades == [] ==>
                  text == RejectText(order.orderId, "NO_LIQUIDITY_FOR_MARKET_ORDER"))
            && ((order.orderType.Limit? && left <= 0) || (order.orderType.Market? && r.trades != []) ==> text == "")
  {
    LookupSubmitted(b, order);
    MatchKeepsTerms(order, b.Queue(Opposite(order.side)));
  }

  /** A market order is not traded at all exactly if it met an empty side. */
  lemma NoTradeMeansEmpty(b: Book, order: Order)
    requires WellFormed(b) && Submit(b, order).ok && order.orderType.Market?
    ensures Submit(b, order).trades == [] <==> (if order.side.Buy? then b.asks else b.bids) == []
  {
    TradesAllItCan(b, order);
    AcceptedExactlyWhen(b, order);
    var queue := if order.side.Buy? then b.asks else b.bids;
    if queue != [] {
      assert Volume(queue) >= queue[0].remainingQuantity > 0;
    }
  }

  lemma NoLiquidityLines(id: OrderId)
    ensures Lines(RejectText(id, "NO_LIQUIDITY_FOR_MARKET_ORDER")) == [RejectLine(id, "NO_LIQUIDITY_FOR_MARKET_ORDER")]
  {
    NoLiquidityIsPlain();
    RejectIsOneLine(id, "NO_LIQUIDITY_FOR_MARKET_ORDER");
  }

  lemma ClosingLines(order: Order, text: string, left: int, empty: bool)
    requires left < 0x1_0000_0000
    requires order.orderType.Limit? && left > 0 ==> text == AckText(order.orderId, left)
    requires order.orderType.Market? && empty ==> text == RejectText(order.orderId, "NO_LIQUIDITY_FOR_MARKET_ORDER")
    requires (order.orderType.Limit? && left <= 0) || (order.orderType.Market? && !empty) ==> text == ""
    ensures Lines(text) == Closing(order, left, empty)
  {
    if order.orderType.Limit? && left > 0 {
      AckIsLine(order.orderId, left);
    } else if order.orderType.Market? && empty {
      NoLiquidityLines(order.orderId);
    } else {
      NoLine("");
    }
  }

  lemma ClosingIs(b: Book, order: Order)
    requires WellFormed(b) && Submit(b, order).ok
    ensures var r := Submit(b, order);
            Lines(ClosingText(order, Lookup(r.book, order.orderId), r.trades))
            == Closing(order, Wanted(order) - Traded(r.trades), (if order.side.Buy? then b.asks else b.bids) == [])
  {
    var r, empty := Submit(b, order), (if order.side.Buy? then b.asks else b.bids) == [];
    ClosingTextIs(b, order);
    if order.orderType.Market? {
      NoTradeMeansEmpty(b, order);
    }
    ClosingLines(order, ClosingText(order, Lookup(r.book, order.orderId), r.trades), Wanted(order) - Traded(r.trades),
                 empty);
  }

  /** What a client reads in answer to an order the book takes: one line for each
      trade, in order, and the closing line, if any. */
  lemma AcceptedIsAnswered(b: Book, order: Order)
    requires WellFormed(b) && Submit(b, order).ok
    ensures var trades := Submit(b, order).trades;
            Lines(ResponseText(b, New(order)))
            == TradeLines(trades)
               + Closing(order, Wanted(order) - Traded(trades), (if order.side.Buy? then b.asks else b.bids) == [])
  {
    var r := Submit(b, order);
    TradesAreLines(r.trades, ClosingText(order, Lookup(r.book, order.orderId), r.trades));
    ClosingIs(b, order);
  }

  // ----------------------------------------------------- everything else

  /** And in answer to one it refuses. */
  lemma RefusedIsAnswered(b: Book, order: Order)
    requires !Submit(b, order).ok
    ensures Lines(ResponseText(b, New(order))) == [RejectLine(order.orderId, "DUPLICATE_OR_INVALID_ORDER")]
  {
    RefusalIsPlain();
    RejectIsOneLine(order.orderId, "DUPLICATE_OR_INVALID_ORDER");
  }

  lemma CanceledIsLine(id: OrderId)
    ensures Lines(CanceledText(id)) == ["CANCELED " + ToString(id)]
  {
    ParsePrinted(id, ID_BOUND);
    OneLine("CANCELED " + ToString(id));
  }

  /** A cancel is answered CANCELED if the id rests, and ORDER_NOT_FOUND otherwise. */
  lemma CancelIsAnswered(b: Book, id: OrderId)
    ensures Lines(ResponseText(b, CancelById(id)))
         == if Has(b.bids, id) || Has(b.asks, id) then ["CANCELED " + ToString(id)]
           else [RejectLine(id, "ORDER_NOT_FOUND")]
  {
    HasId(b.bids, id);
    HasId(b.asks, id);
    CanceledIsLine(id);
    NotFoundIsPlain();
    RejectIsOneLine(id, "ORDER_NOT_FOUND");
  }

  lemma FlushText()
    ensures InfoText("BOOK_FLUSHED") == "INFO BOOK_FLUSHED" + "\n"
  {
    assert "INFO " + "BOOK_FLUSHED" == "INFO BOOK_FLUSHED";
  }

  lemma FlushLine()
    ensures Lines("INFO BOOK_FLUSHED" + "\n") == ["INFO BOOK_FLUSHED"]
  {
    OneLine("INFO BOOK_FLUSHED");
  }

  /** A flush empties the book and is answered BOOK_FLUSHED. */
  lemma FlushIsAnswered(b: Book)
    ensures Lines(ResponseText(b, Flush)) == ["INFO BOOK_FLUSHED"] && BookAfter(b, Flush) == Book([], [])
  {
    FlushText();
    FlushLine();
  }

  /** Every answer goes to the client that asked, under the number of its command. */
  lemma AnswerIsAddressed(b: Book, m: IngressMessage)
    requires WellFormed(b) && !m.command.Unknown?
    ensures ResponseTo(b, m) == Some(ResponseMessage(m.clientFd, m.sequence, ResponseText(b, m.command)))
  {
    EveryCommandIsAnswered(b, m.command);
  }
}
