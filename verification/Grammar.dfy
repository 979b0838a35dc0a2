/** The command language, from the outside: which lines are which commands, and which
    error every other line gets. */
module Grammar {
  import opened Types
  import opened Text
  import opened Protocol

  /** The token is read as `n`: its numeral, perhaps with zeros in front. */
  predicate Reads(token: string, bound: nat, n: nat) {
    n < bound && Denotes(token, n)
  }

  /** Some number below the bound is read, from `least` on. */
  ghost predicate Readable(token: string, bound: nat, least: nat) {
    exists n: nat :: least <= n && Reads(token, bound, n)
  }

  ghost predicate SideToken(token: string, side: Side) {
    if side.Buy? then token in {"BUY", "B"} else token in {"SELL", "S"}
  }

  lemma NumberIsReadable(token: string, bound: nat)
    ensures ParseNum(token, bound).None? <==> !Readable(token, bound, 0)
    ensures (match ParseNum(token, bound) case Some(n) => n == 0 case None => true) <==> !Readable(token, bound, 1)
  {
    match ParseNum(token, bound)
    case Some(n) =>
      NumberExactlyWhen(token, bound, n);
      forall m: nat | Reads(token, bound, m) ensures m == n { NumberExactlyWhen(token, bound, m); }
      assert Reads(token, bound, n);
    case None =>
      forall m: nat ensures !Reads(token, bound, m) { NumberExactlyWhen(token, bound, m); }
  }

  /** A line is a flush exactly if its first word is FLUSH, whatever follows. */
  lemma FlushExactlyWhen(line: string, now: Timestamp)
    ensures ParseLine(line, now) == Flush <==> |Tokens(line)| > 0 && Tokens(line)[0] == "FLUSH"
  {
    assert "FLUSH"[0] == 'F' && "NEW"[0] == 'N' && "CANCEL"[0] == 'C';
  }

  /** A line cancels an id exactly if its first word is CANCEL and its second denotes
      that id, which is not zero; further words do not matter. */
  lemma CancelExactlyWhen(line: string, now: Timestamp, id: OrderId)
    ensures ParseLine(line, now) == CancelById(id) <==>
            var t := Tokens(line); |t| >= 2 && t[0] == "CANCEL" && id > 0 && Reads(t[1], ID_BOUND, id)
  {
    assert "FLUSH"[0] == 'F' && "NEW"[0] == 'N' && "CANCEL"[0] == 'C';
    if |Tokens(line)| >= 2 {
      NumberExactlyWhen(Tokens(line)[1], ID_BOUND, id);
    }
  }

  /** A line is an order exactly if its words are NEW, a side, an id and a quantity
      that are not zero with a price in between, and the order is stamped with the
      clock reading; the sixth word, if any, decides the type. */
  lemma NewExactlyWhen(line: string, now: Timestamp, order: Order)
    ensures ParseLine(line, now) == New(order) <==>
            var t := Tokens(line);
            && |t| >= 5 && t[0] == "NEW" && SideToken(t[1], order.side)
            && order.orderId > 0 && Reads(t[2], ID_BOUND, order.orderId)
            && Reads(t[3], ID_BOUND, order.price)
            && order.initialQuantity > 0 && Reads(t[4], QUANTITY_BOUND, order.initialQuantity)
            && order.remainingQuantity == order.initialQuantity && order.timestamp == now
            && (order.orderType.Market? <==> |t| >= 6 && t[5] in {"MARKET", "M"})
  {
    var t := Tokens(line);
    if |t| >= 5 && t[0] == "NEW" {
      NewFields(t, now, order);
    }
  }

  lemma SideExactlyWhen(token: string, side: Side)
    ensures ParseSide(token) == Some(side) <==> SideToken(token, side)
  {
    assert "BUY"[0] == 'B' && "B"[0] == 'B' && "SELL"[0] == 'S' && "S"[0] == 'S';
  }

  lemma NewFields(t: seq<string>, now: Timestamp, order: Order)
    requires |t| >= 5
    ensures ParseNew(t, now) == New(order) <==>
            && SideToken(t[1], order.side)
            && order.orderId > 0 && Reads(t[2], ID_BOUND, order.orderId)
            && Reads(t[3], ID_BOUND, order.price)
            && order.initialQuantity > 0 && Reads(t[4], QUANTITY_BOUND, order.initialQuantity)
            && order.remainingQuantity == order.initialQuantity && order.timestamp == now
            && (order.orderType.Market? <==> |t| >= 6 && t[5] in {"MARKET", "M"})
  {
    SideExactlyWhen(t[1], order.side);
    NumberExactlyWhen(t[2], ID_BOUND, order.orderId);
    NumberExactlyWhen(t[3], ID_BOUND, order.price);
    NumberExactlyWhen(t[4], QUANTITY_BOUND, order.initialQuantity);
  }

  /** Every other line is refused, for the first thing that is wrong with it. A line
      of blanks is an empty command, and a line without one of the three verbs none. */
  lemma VerbErrors(line: string, now: Timestamp)
    ensures Tokens(line) == [] ==> ParseLine(line, now) == Unknown("EMPTY_COMMAND")
    ensures Tokens(line) != [] && Tokens(line)[0] !in {"NEW", "CANCEL", "FLUSH"} ==>
      ParseLine(line, now) == Unknown("UNKNOWN_COMMAND")
  {
  }

  lemma CancelErrors(line: string, now: Timestamp)
    requires Tokens(line) != [] && Tokens(line)[0] == "CANCEL"
    ensures var t, c := Tokens(line), ParseLine(line, now);
            if |t| < 2 then c == Unknown("INVALID_CANCEL_FORMAT: Expected 'CANCEL <ORDER_ID>'")
            else if !Readable(t[1], ID_BOUND, 1) then c == Unknown("INVALID_ORDER_ID")
            else c.CancelById?
  {
    if |Tokens(line)| >= 2 {
      NumberIsReadable(Tokens(line)[1], ID_BOUND);
    }
  }

  lemma NewLineErrors(line: string, now: Timestamp)
    requires Tokens(line) != [] && Tokens(line)[0] == "NEW"
    ensures NewError(Tokens(line), ParseLine(line, now))
  {
    if |Tokens(line)| >= 5 {
      NewErrors(Tokens(line), now);
    }
  }

  ghost predicate NewError(t: seq<string>, c: Command) {
    if |t| < 5 then c == Unknown("INVALID_NEW_FORMAT: Expected 'NEW <BUY|SELL> <ID> <PRICE> <QTY> [TYPE]'")
    else if !SideToken(t[1], Buy) && !SideToken(t[1], Sell) then c == Unknown("INVALID_SIDE: Expected BUY or SELL")
    else if !Readable(t[2], ID_BOUND, 1) then c == Unknown("INVALID_ORDER_ID")
    else if !Readable(t[3], ID_BOUND, 0) then c == Unknown("INVALID_PRICE")
    else if !Readable(t[4], QUANTITY_BOUND, 1) then c == Unknown("INVALID_QUANTITY")
    else c.New?
  }

  lemma NewErrors(t: seq<string>, now: Timestamp)
    requires |t| >= 5
    ensures NewError(t, ParseNew(t, now))
  {
    SideExactlyWhen(t[1], Buy);
    SideExactlyWhen(t[1], Sell);
    NumberIsReadable(t[2], ID_BOUND);
    NumberIsReadable(t[3], ID_BOUND);
    NumberIsReadable(t[4], QUANTITY_BOUND);
  }
}
