/** The text protocol: commands read from a client, responses written to it. */
module Protocol {
  import opened Types
  import opened Book
  import opened Text

  const ID_BOUND: nat := 0x1_0000_0000_0000_0000
  const QUANTITY_BOUND: nat := 0x1_0000_0000

  datatype Command = New(order: Order) | CancelById(id: OrderId) | Flush | Unknown(error: string)

  // ---------------------------------------------------------------- reading

  function ParseSide(token: string): Option<Side> {
    if token == "BUY" || token == "B" then Some(Buy)
    else if token == "SELL" || token == "S" then Some(Sell)
    else None
  }

  function ParseId(token: string): Option<OrderId> {
    match ParseNum(token, ID_BOUND)
    case Some(n) => if n == 0 then None else Some(n)
    case None => None
  }

  function ParseQuantity(token: string): Option<Quantity> {
    match ParseNum(token, QUANTITY_BOUND)
    case Some(n) => if n == 0 then None else Some(n)
    case None => None
  }

  /** Anything but a market word means a limit order. */
  function ParseType(tokens: seq<string>): OrderType {
    if |tokens| >= 6 && (tokens[5] == "MARKET" || tokens[5] == "M") then Market else Limit
  }

  function ParseNew(tokens: seq<string>, now: Timestamp): Command {
    if |tokens| < 5 then Unknown("INVALID_NEW_FORMAT: Expected 'NEW <BUY|SELL> <ID> <PRICE> <QTY> [TYPE]'")
    else
      var side, id := ParseSide(tokens[1]), ParseId(tokens[2]);
      var price, quantity := ParseNum(tokens[3], ID_BOUND), ParseQuantity(tokens[4]);
      if side.None? then Unknown("INVALID_SIDE: Expected BUY or SELL")
      else if id.None? then Unknown("INVALID_ORDER_ID")
      else if price.None? then Unknown("INVALID_PRICE")
      else if quantity.None? then Unknown("INVALID_QUANTITY")
      else New(Order(id.value, price.value, quantity.value, quantity.value, now, side.value, ParseType(tokens)))
  }

  /** `now` is the clock reading that stamps a new order. */
  function ParseLine(line: string, now: Timestamp): Command {
    var tokens := Tokens(line);
    if tokens == [] then Unknown("EMPTY_COMMAND")
    else if tokens[0] == "NEW" then ParseNew(tokens, now)
    else if tokens[0] == "CANCEL" then
      if |tokens| < 2 then Unknown("INVALID_CANCEL_FORMAT: Expected 'CANCEL <ORDER_ID>'")
      else (match ParseId(tokens[1]) case Some(id) => CancelById(id) case None => Unknown("INVALID_ORDER_ID"))
    else if tokens[0] == "FLUSH" then Flush
    else Unknown("UNKNOWN_COMMAND")
  }

  function SideWord(side: Side): string {
    if side.Buy? then "BUY" else "SELL"
  }

  function TypeWord(t: OrderType): string {
    if t.Limit? then "LIMIT" else "MARKET"
  }

  /** The documented form of a new order. */
  function NewText(side: Side, id: nat, price: nat, quantity: nat, t: OrderType): string {
    Sentence(NewWords(side, id, price, quantity, TypeWord(t)))
  }

  /** Six tokens with printed numbers, refused in the order the fields are read. */
  lemma NewTokensAreRead(tokens: seq<string>, side: Side, id: nat, price: nat, quantity: nat, now: Timestamp)
    requires |tokens| == 6 && tokens[1] == SideWord(side)
    requires tokens[2] == ToString(id) && tokens[3] == ToString(price) && tokens[4] == ToString(quantity)
    ensures ParseNew(tokens, now) ==
      if id == 0 || id >= ID_BOUND then Unknown("INVALID_ORDER_ID")
      else if price >= ID_BOUND then Unknown("INVALID_PRICE")
      else if quantity == 0 || quantity >= QUANTITY_BOUND then Unknown("INVALID_QUANTITY")
      else New(Order(id, price, quantity, quantity, now, side, ParseType(tokens)))
  {
    ParsePrinted(id, ID_BOUND);
    ParsePrinted(price, ID_BOUND);
    ParsePrinted(quantity, QUANTITY_BOUND);
  }

  function NewWords(side: Side, id: nat, price: nat, quantity: nat, word: string): seq<string> {
    ["NEW", SideWord(side), ToString(id), ToString(price), ToString(quantity), word]
  }

  lemma NewWordsAreTokens(side: Side, id: nat, price: nat, quantity: nat, word: string)
    requires word != [] && Solid(word)
    ensures Tokens(Sentence(NewWords(side, id, price, quantity, word))) == NewWords(side, id, price, quantity, word)
  {
    ParsePrinted(id, ID_BOUND);
    ParsePrinted(price, ID_BOUND);
    ParsePrinted(quantity, QUANTITY_BOUND);
    SentenceTokens(NewWords(side, id, price, quantity, word));
  }

  /** The canonical text of an order is read as that order, for all values of its
      fields; a zero id or quantity is refused, and so is a number too wide. */
  lemma NewIsRead(side: Side, id: nat, price: nat, quantity: nat, t: OrderType, now: Timestamp)
    ensures ParseLine(NewText(side, id, price, quantity, t), now) ==
      if id == 0 || id >= ID_BOUND then Unknown("INVALID_ORDER_ID")
      else if price >= ID_BOUND then Unknown("INVALID_PRICE")
      else if quantity == 0 || quantity >= QUANTITY_BOUND then Unknown("INVALID_QUANTITY")
      else New(Order(id, price, quantity, quantity, now, side, t))
  {
    NewWordsAreTokens(side, id, price, quantity, TypeWord(t));
    NewTokensAreRead(NewWords(side, id, price, quantity, TypeWord(t)), side, id, price, quantity, now);
  }

  /** Whatever the line, an order that was read is a market order exactly if there
      is a sixth token and it is one of the two market words. */
  lemma TypeIsRead(line: string, now: Timestamp)
    requires ParseLine(line, now).New?
    ensures ParseLine(line, now).order.orderType.Market?
       <==> |Tokens(line)| >= 6 && (Tokens(line)[5] == "MARKET" || Tokens(line)[5] == "M")
  {
  }

  /** So any other sixth word, documented or not, is read as a limit order. */
  lemma AnySixthWord(side: Side, id: OrderId, price: Price, quantity: Quantity, word: string, now: Timestamp)
    requires id > 0 && quantity > 0 && word != [] && Solid(word)
    ensures var orderType := if word == "MARKET" || word == "M" then Market else Limit;
            ParseLine(Sentence(NewWords(side, id, price, quantity, word)), now)
            == New(Order(id, price, quantity, quantity, now, side, orderType))
  {
    NewWordsAreTokens(side, id, price, quantity, word);
    NewTokensAreRead(NewWords(side, id, price, quantity, word), side, id, price, quantity, now);
  }

  lemma IocIsALimitOrder(now: Timestamp)
    ensures ParseLine(Sentence(NewWords(Buy, 1, 100, 5, "IOC")), now)
         == New(Order(1, 100, 5, 5, now, Buy, Limit))
  {
    AnySixthWord(Buy, 1, 100, 5, "IOC", now);
  }

  lemma CancelIsRead(id: nat, now: Timestamp)
    ensures ParseLine(Sentence(["CANCEL", ToString(id)]), now)
         == if 0 < id < ID_BOUND then CancelById(id) else Unknown("INVALID_ORDER_ID")
  {
    ParsePrinted(id, ID_BOUND);
    SentenceTokens(["CANCEL", ToString(id)]);
  }

  /** Whatever the line, an order that was read is complete and fresh: only a
      resting id and a limit price of zero are left for the book to refuse. */
  lemma ReadOrdersAreSound(line: string, now: Timestamp, b: Book)
    ensures var c := ParseLine(line, now);
            c.New? ==>
              && c.order.orderId > 0 && 0 < c.order.initialQuantity == c.order.remainingQuantity
              && c.order.timestamp == now
              && (Accepts(b, c.order) <==>
                  c.order.orderId !in BookIds(b) && (c.order.orderType.Limit? ==> c.order.price > 0))
  {
  }

  // ---------------------------------------------------------------- writing

  function AckText(id: OrderId, remaining: Quantity): string {
    "ACK" + " " + ToString(id) + " " + ToString(remaining) + "\n"
  }

  function TradeText(t: Trade): string {
    "TRADE" + " " + ToString(t.makerOrderId) + " " + ToString(t.takerOrderId) + " " + ToString(t.price) + " "
    + ToString(t.quantity) + " " + SideWord(t.aggressorSide) + "\n"
  }

  function CanceledText(id: OrderId): string {
    "CANCELED " + ToString(id) + "\n"
  }

  function RejectText(id: OrderId, reason: string): string {
    "REJECT " + ToString(id) + " " + reason + "\n"
  }

  function InfoText(message: string): string {
    "INFO " + message + "\n"
  }

  /** Words fit to stand in a line. */
  ghost predicate Plain(words: seq<string>) {
    forall k :: 0 <= k < |words| ==> words[k] != [] && Solid(words[k]) && '\n' !in words[k]
  }

  lemma {:induction false} SentenceIsPlain(words: seq<string>)
    requires Plain(words) && words != []
    ensures '\n' !in Sentence(words) && Sentence(words) != [] && !IsBlank(Sentence(words)[|Sentence(words)| - 1])
  {
    if |words| > 1 { SentenceIsPlain(words[1..]); }
  }

  lemma SentenceIsLine(words: seq<string>, rest: string)
    requires Plain(words) && words != []
    ensures Lines(Sentence(words) + "\n" + rest) == [Sentence(words)] + Lines(rest)
    ensures Tokens(Sentence(words)) == words
  {
    SentenceIsPlain(words);
    SentenceTokens(words);
    LinesOfLine(Sentence(words), rest);
  }

  function AckWords(id: OrderId, remaining: Quantity): seq<string> {
    ["ACK", ToString(id), ToString(remaining)]
  }

  function TradeWords(t: Trade): seq<string> {
    ["TRADE", ToString(t.makerOrderId), ToString(t.takerOrderId), ToString(t.price), ToString(t.quantity),
     SideWord(t.aggressorSide)]
  }

  lemma SentenceCons(word: string, words: seq<string>)
    requires words != []
    ensures Sentence([word] + words) == word + " " + Sentence(words)
  {
  }

  lemma Associate(a: string, b: string, c: string)
    ensures a + " " + (b + " " + c) == a + " " + b + " " + c
  {
  }

  lemma ThreeWords(a: string, b: string, c: string)
    ensures Sentence([a, b, c]) == a + " " + b + " " + c
  {
    SentenceCons(b, [c]);
    SentenceCons(a, [b, c]);
    assert [a] + [b, c] == [a, b, c] && [b] + [c] == [b, c];
    Associate(a, b, c);
  }

  lemma FourWords(a: string, b: string, c: string, d: string)
    ensures Sentence([a, b, c, d]) == a + " " + b + " " + c + " " + d
  {
    ThreeWords(b, c, d);
    SentenceCons(a, [b, c, d]);
    assert [a] + [b, c, d] == [a, b, c, d];
    Associate(a, b + " " + c, d);
    Associate(a, b, c);
  }

  lemma SixWords(a: string, b: string, c: string, d: string, e: string, f: string)
    ensures Sentence([a, b, c, d, e, f]) == a + " " + b + " " + c + " " + d + " " + e + " " + f
  {
    FourWords(c, d, e, f);
    SentenceCons(b, [c, d, e, f]);
    SentenceCons(a, [b, c, d, e, f]);
    assert [b] + [c, d, e, f] == [b, c, d, e, f] && [a] + [b, c, d, e, f] == [a, b, c, d, e, f];
    var cd := c + " " + d;
    Associate(a, b, cd + " " + e + " " + f);
    Associate(a + " " + b, cd + " " + e, f);
    Associate(a + " " + b, cd, e);
    Associate(a + " " + b, c, d);
  }

  /** An acknowledgement is one line, and its tokens give the fields back. */
  lemma AckIsReadBack(id: OrderId, remaining: Quantity, rest: string)
    ensures var line := Sentence(AckWords(id, remaining));
            && Lines(AckText(id, remaining) + rest) == [line] + Lines(rest)
            && Tokens(line) == AckWords(id, remaining)
            && ParseNum(Tokens(line)[1], ID_BOUND) == Some(id)
            && ParseNum(Tokens(line)[2], QUANTITY_BOUND) == Some(remaining)
  {
    ParsePrinted(id, ID_BOUND);
    ParsePrinted(remaining, QUANTITY_BOUND);
    SentenceIsLine(AckWords(id, remaining), rest);
    ThreeWords("ACK", ToString(id), ToString(remaining));
  }

  lemma TradeWordsArePlain(t: Trade)
    ensures Plain(TradeWords(t))
  {
    ParsePrinted(t.makerOrderId, ID_BOUND);
    ParsePrinted(t.takerOrderId, ID_BOUND);
    ParsePrinted(t.price, ID_BOUND);
    ParsePrinted(t.quantity, QUANTITY_BOUND);
  }

  lemma TradeIsLine(t: Trade, rest: string)
    ensures Lines(TradeText(t) + rest) == [Sentence(TradeWords(t))] + Lines(rest)
    ensures Tokens(Sentence(TradeWords(t))) == TradeWords(t)
  {
    TradeWordsArePlain(t);
    SentenceIsLine(TradeWords(t), rest);
    SixWords("TRADE", ToString(t.makerOrderId), ToString(t.takerOrderId), ToString(t.price), ToString(t.quantity),
             SideWord(t.aggressorSide));
  }

  lemma SideIsReadBack(side: Side)
    ensures ParseSide(SideWord(side)) == Some(side)
  {
  }

  /** A trade report is one line, and its tokens give all fields back. */
  lemma TradeIsReadBack(t: Trade, rest: string)
    ensures var line := Sentence(TradeWords(t));
            && Lines(TradeText(t) + rest) == [line] + Lines(rest)
            && Tokens(line) == TradeWords(t)
            && ParseNum(Tokens(line)[1], ID_BOUND) == Some(t.makerOrderId)
            && ParseNum(Tokens(line)[2], ID_BOUND) == Some(t.takerOrderId)
            && ParseNum(Tokens(line)[3], ID_BOUND) == Some(t.price)
            && ParseNum(Tokens(line)[4], QUANTITY_BOUND) == Some(t.quantity)
            && ParseSide(Tokens(line)[5]) == Some(t.aggressorSide)
  {
    TradeIsLine(t, rest);
    TradeFields(TradeWords(t), t);
  }

  lemma TradeFields(words: seq<string>, t: Trade)
    requires words == TradeWords(t)
    ensures ParseNum(words[1], ID_BOUND) == Some(t.makerOrderId) && ParseNum(words[2], ID_BOUND) == Some(t.takerOrderId)
    ensures ParseNum(words[3], ID_BOUND) == Some(t.price) && ParseNum(words[4], QUANTITY_BOUND) == Some(t.quantity)
    ensures ParseSide(words[5]) == Some(t.aggressorSide)
  {
    ParsePrinted(t.makerOrderId, ID_BOUND);
    ParsePrinted(t.takerOrderId, ID_BOUND);
    ParsePrinted(t.price, ID_BOUND);
    ParsePrinted(t.quantity, QUANTITY_BOUND);
    SideIsReadBack(t.aggressorSide);
  }
}
