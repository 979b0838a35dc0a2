/** Which lines become commands, and what becomes of the others. */
module Admission {
  import opened Book
  import opened SpscMachine
  import opened SpscWrap
  import opened Text
  import opened Protocol
  import opened Gateway

  /** The line is a command of the protocol. */
  predicate IsCommand(line: ClientLine) {
    line.text != "" && !ParseLine(line.text, line.parsedAt).Unknown?
  }

  /** It is neither that nor empty. */
  predicate IsMalformed(line: ClientLine) {
    line.text != "" && ParseLine(line.text, line.parsedAt).Unknown?
  }

  /** Places in `lines`, from front to back. */
  ghost predicate Places(at: seq<nat>, n: nat) {
    && (forall k :: 0 <= k < |at| ==> at[k] < n)
    && (forall j, k :: 0 <= j < k < |at| ==> at[j] < at[k])
  }

  /** The message is that of the line: its command, its client, its time of queueing. */
  predicate CarriesLine(m: IngressMessage, line: ClientLine) {
    && m.command == ParseLine(line.text, line.parsedAt)
    && m.clientFd == line.clientFd && m.ingressTimestamp == line.queuedAt
  }

  /** The refusal is that of the line: it names the error, under order number 0. */
  predicate NamesError(r: Refusal, line: ClientLine) {
    && ParseLine(line.text, line.parsedAt).Unknown? && r.clientFd == line.clientFd
    && r.reply == "REJECT 0 " + ParseLine(line.text, line.parsedAt).error + "\n"
  }

  lemma FateIsThatOfLine(line: ClientLine, next: nat)
    ensures var fate := ProcessLine(line, next);
            && (fate.Queued? <==> IsCommand(line)) && (fate.Refused? <==> IsMalformed(line))
            && (fate.Queued? ==> CarriesLine(fate.message, line))
            && (fate.Refused? ==> NamesError(Refusal(line.clientFd, fate.reply), line))
  {
    assert ToString(0) == "0" && "REJECT " + "0" + " " == "REJECT 0 ";
  }

  lemma OnePlaceMore(at: seq<nat>, n: nat)
    requires Places(at, n)
    ensures Places(at, n + 1) && Places(at + [n], n + 1)
  {
  }

  /** The items are, in order and without gaps, one for each chosen line, which it fits. */
  ghost predicate Pick<T, L>(items: seq<T>, lines: seq<L>, at: seq<nat>, chosen: L -> bool, fits: (T, L) -> bool) {
    && Places(at, |lines|) && |at| == |items|
    && (forall k :: 0 <= k < |at| ==> chosen(lines[at[k]]) && fits(items[k], lines[at[k]]))
    && (forall i :: 0 <= i < |lines| && chosen(lines[i]) ==> i in at)
  }

  lemma PickOne<T, L>(items: seq<T>, lines: seq<L>, at: seq<nat>, chosen: L -> bool, fits: (T, L) -> bool, item: T,
                      line: L)
    requires Pick(items, lines, at, chosen, fits) && chosen(line) && fits(item, line)
    ensures Pick(items + [item], lines + [line], at + [|lines|], chosen, fits)
  {
    OnePlaceMore(at, |lines|);
    assert (at + [|lines|])[|at|] == |lines|;
  }

  lemma PickNone<T, L>(items: seq<T>, lines: seq<L>, at: seq<nat>, chosen: L -> bool, fits: (T, L) -> bool, line: L)
    requires Pick(items, lines, at, chosen, fits) && !chosen(line)
    ensures Pick(items, lines + [line], at, chosen, fits)
  {
    OnePlaceMore(at, |lines|);
  }

  /** The messages are one for each line that is a command, with the command, the
      client and the time of that line. */
  ghost predicate AreCommands(messages: seq<IngressMessage>, lines: seq<ClientLine>, at: seq<nat>) {
    Pick(messages, lines, at, IsCommand, CarriesLine)
  }

  /** The refusals are one for each malformed line, and name its error. */
  ghost predicate AreRefused(refusals: seq<Refusal>, lines: seq<ClientLine>, at: seq<nat>) {
    Pick(refusals, lines, at, IsMalformed, NamesError)
  }

  /** What is queued are the commands among the lines, in order and without gaps. */
  lemma {:induction false} AdmittedAreTheCommands(lines: seq<ClientLine>) returns (at: seq<nat>)
    ensures AreCommands(Admitted(lines), lines, at)
  {
    if lines == [] {
      at := [];
    } else {
      var before, line := lines[..|lines| - 1], lines[|lines| - 1];
      var next := (|Admitted(before)| + 1) % 0x1_0000_0000_0000_0000;
      at := AdmittedAreTheCommands(before);
      FateIsThatOfLine(line, next);
      assert before + [line] == lines;
      if IsCommand(line) {
        PickOne(Admitted(before), before, at, IsCommand, CarriesLine, ProcessLine(line, next).message, line);
        at := at + [|before|];
      } else {
        PickNone(Admitted(before), before, at, IsCommand, CarriesLine, line);
      }
    }
  }

  /** What is refused on the spot are all other lines that are not empty, in order. */
  lemma {:induction false} RefusedAreTheOthers(lines: seq<ClientLine>) returns (at: seq<nat>)
    ensures AreRefused(Refusals(lines), lines, at)
  {
    if lines == [] {
      at := [];
    } else {
      var before, line := lines[..|lines| - 1], lines[|lines| - 1];
      at := RefusedAreTheOthers(before);
      FateIsThatOfLine(line, 0);
      assert before + [line] == lines;
      if IsMalformed(line) {
        var refusal := Refusal(line.clientFd, ProcessLine(line, 0).reply);
        PickOne(Refusals(before), before, at, IsMalformed, NamesError, refusal, line);
        at := at + [|before|];
      } else {
        PickNone(Refusals(before), before, at, IsMalformed, NamesError, line);
      }
    }
  }

  /** In every interleaving of the gateway's two threads, down to the single loads and
      stores of their ring buffers: response number `k` answers the `k`th line that is
      a command, on the book the commands before it left, and goes to its client. */
  lemma ResponsesReachTheirClients(lines: seq<ClientLine>, inSlots: seq<IngressMessage>, outSlots: seq<ResponseMessage>,
                                   steps: seq<Rings.Step<IngressMessage, ResponseMessage>>) returns (at: seq<nat>)
    requires |lines| < 0x1_0000_0000_0000_0000 - 1
    requires Sized(Start(inSlots)) && Sized(Start(outSlots))
    requires var s := Rings.Walk(Bits64, PROGRAM, Rings.Begin(PROGRAM, inSlots, outSlots), steps);
             In(s.ingress.log) <= Admitted(lines)
    ensures AllCommands(Admitted(lines)) && AreCommands(Admitted(lines), lines, at)
    ensures var sent := In(Rings.Walk(Bits64, PROGRAM, Rings.Begin(PROGRAM, inSlots, outSlots), steps).responses.log);
            && |sent| <= |at|
            && forall k :: 0 <= k < |sent| ==>
                 && sent[k].sequence == k + 1 && sent[k].clientFd == lines[at[k]].clientFd
                 && sent[k].payload == ResponseText(Run(EMPTY, Ops(Admitted(lines)[..k])),
                                                    ParseLine(lines[at[k]].text, lines[at[k]].parsedAt))
  {
    at := AdmittedAreTheCommands(lines);
    AdmittedInOrder(lines);
    ResponsesAreNumbered(lines, inSlots, outSlots, steps);
    var sent := In(Rings.Walk(Bits64, PROGRAM, Rings.Begin(PROGRAM, inSlots, outSlots), steps).responses.log);
    forall k | 0 <= k < |sent|
      ensures sent[k].clientFd == lines[at[k]].clientFd
      ensures sent[k].payload == ResponseText(Run(EMPTY, Ops(Admitted(lines)[..k])),
                                              ParseLine(lines[at[k]].text, lines[at[k]].parsedAt))
    {
      FoldIsRun(Admitted(lines)[..k]);
      assert CarriesLine(Admitted(lines)[k], lines[at[k]]);
    }
  }
}
