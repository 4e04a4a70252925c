/** One signal for each command: exactly when the master keeps that promise. */
module MasterProperties {
  import opened Bytes
  import opened Modbus
  import opened Master

  /** The caller's parameters of a command. */
  datatype Params = Params(startR: word, quantityR: word, startW: word, quantityW: word, dataW: short,
      wordsR: seq<short>, wordsW: seq<short>)

  /** What the user and the gateway do to a master. */
  datatype Event =
    | Issue(cmd: byte, slaveId: byte, callback: bool, params: Params)
    | Try
    | Answer(id: byte, pdu: seq<byte>, size: nat)

  predicate EventOk(e: Event) {
    match e
    case Issue(cmd, _, _, p) => Known(cmd) && p.quantityR <= |p.wordsR| && p.quantityW <= |p.wordsW|
      && FitsBuffer(cmd, p.quantityW)
    case Try => true
    case Answer(_, pdu, _) => |pdu| == BUFFER_SIZE
  }

  function Issued(m: Master, cmd: byte, slaveId: byte, callback: bool, p: Params): Master {
    if Accepts(m, slaveId) then
      Started(m.(startR := p.startR, quantityR := p.quantityR, startW := p.startW, quantityW := p.quantityW,
                 dataW := p.dataW, wordsR := p.wordsR, wordsW := p.wordsW), cmd, slaveId, callback)
    else m
  }

  function After(m: Master, e: Event): (m': Master)
    requires Sound(m) && EventOk(e)
    ensures Sound(m')
  {
    match e
    case Issue(cmd, slaveId, callback, p) => Issued(m, cmd, slaveId, callback, p)
    case Try => Tried(m)
    case Answer(id, pdu, size) => Response(m, id, pdu, size)
  }

  /** Signals given, plus one for a command still pending. */
  function Balance(m: Master): nat {
    |m.log| + (if m.cmd != 0 then 1 else 0)
  }

  /** A message without a command pending that the master takes for the end of one: function code 0
      after a success, or 0x80 with exception code 0. */
  predicate Spurious(m: Master, e: Event) {
    e.Answer? && |e.pdu| == BUFFER_SIZE && m.cmd == 0 && e.id == m.slaveId
    && ((e.pdu[0] == 0x00 && m.exc == E_NO_ERROR) || (e.pdu[0] == 0x80 && e.pdu[1] == 0x00))
  }

  predicate AcceptedBy(m: Master, e: Event) {
    e.Issue? && Accepts(m, e.slaveId)
  }

  /** MAIN, one step: the balance grows by one for a command accepted and for a spurious message, and
      never otherwise. */
  lemma BalanceStep(m: Master, e: Event)
    requires Sound(m) && EventOk(e)
    ensures Balance(After(m, e)) == Balance(m) + (if AcceptedBy(m, e) || Spurious(m, e) then 1 else 0)
    ensures m.log <= After(m, e).log && |After(m, e).log| <= |m.log| + 1
  {
  }

  /** With no command pending a message gives a signal exactly if it is spurious. */
  lemma SpuriousIff(m: Master, e: Event)
    requires Sound(m) && EventOk(e) && m.cmd == 0 && e.Answer?
    ensures |After(m, e).log| == |m.log| + 1 <==> Spurious(m, e)
  {
    BalanceStep(m, e);
  }

  /** What fits the gateway's buffer of 256 bytes: up to 125 registers to write, or 123 with a read. */
  lemma FitsBufferIff(quantity: nat)
    ensures FitsBuffer(0x10, quantity) <==> quantity <= 125
    ensures FitsBuffer(0x17, quantity) <==> quantity <= 123
  {
  }

  // What a message does to a pending command.

  /** A message from a slave that was not asked does nothing. */
  lemma OthersIgnored(m: Master, e: Event)
    requires Sound(m) && EventOk(e) && e.Answer? && e.id != m.slaveId
    ensures After(m, e) == m
  {
  }

  /** The response to the pending command, in its bytes: a read carries its byte count and exactly that many
      bytes, a write the address and the quantity or the value written, modulo 2^16. */
  predicate Answers(m: Master, pdu: seq<byte>, size: nat)
    requires |pdu| == BUFFER_SIZE
  {
    && pdu[0] == m.cmd
    && if m.cmd in {0x03, 0x04, 0x17} then pdu[1] == 2 * m.quantityR && size == 2 + 2 * m.quantityR
       else
         && 256 * (pdu[1] as int) + pdu[2] == m.startW
         && if m.cmd == 0x10 then 256 * (pdu[3] as int) + pdu[4] == m.quantityW
            else (256 * (pdu[3] as int) + pdu[4] - m.dataW) % 0x1_0000 == 0
  }

  /** The caller's memory holds the registers of a response to a read, and behind them what it held. */
  predicate Delivered(m: Master, pdu: seq<byte>, wordsR: seq<short>)
    requires |pdu| == BUFFER_SIZE
  {
    && |wordsR| == |m.wordsR| && 2 + 2 * m.quantityR <= |pdu| && m.quantityR <= |wordsR|
    && (forall i :: 0 <= i < m.quantityR ==> ToUint16(wordsR[i]) == 256 * (pdu[2 + 2 * i] as int) + pdu[3 + 2 * i])
    && forall i :: m.quantityR <= i < |wordsR| ==> wordsR[i] == m.wordsR[i]
  }

  lemma WordsDelivered(m: Master, pdu: seq<byte>)
    requires Sound(m) && |pdu| == BUFFER_SIZE && 2 + 2 * m.quantityR <= BUFFER_SIZE
    ensures Delivered(m, pdu, Received(pdu, m.quantityR) + m.wordsR[m.quantityR..])
  {
    hide ToInt16, ToUint16;
    forall i | 0 <= i < m.quantityR
      ensures ToUint16(Received(pdu, m.quantityR)[i]) == 256 * (pdu[2 + 2 * i] as int) + pdu[3 + 2 * i]
    {
      SignedOfWord(WordAt(pdu, 2 + 2 * i));
    }
  }

  lemma ExpectedIff(m: Master, pdu: seq<byte>, size: nat)
    requires Sound(m) && m.cmd != 0 && |pdu| == BUFFER_SIZE && pdu[0] == m.cmd
    ensures Expected(m, pdu, size) <==> Answers(m, pdu, size)
  {
    var value: int := 256 * (pdu[3] as int) + pdu[4];
    if (value - m.dataW) % 0x1_0000 == 0 {
      var q := (value - m.dataW) / 0x1_0000;
      assert value - m.dataW == 0x1_0000 * q;
    }
  }

  /** MAIN: a message from the slave asked ends the pending command exactly if it answers it, or is an
      exception with code 0; then with one signal without error, and with the registers of a read in the
      caller's memory. Every other one leaves the command pending and the memory alone, with the exception
      code of the message, or 0x11 if it is not an exception reply to this command. */
  lemma AnswerToPending(m: Master, e: Event)
    requires Sound(m) && EventOk(e) && m.cmd != 0 && e.Answer? && e.id == m.slaveId
    ensures var m' := After(m, e);
            if Answers(m, e.pdu, e.size) then
              && m' == m.(exc := 0, cmd := 0, log := m.log + [Completion(m.callback, m.slaveId, m.cmd, 0)],
                          wordsR := m'.wordsR)
              && if m.cmd in {0x03, 0x04, 0x17} then Delivered(m, e.pdu, m'.wordsR) else m'.wordsR == m.wordsR
            else if e.pdu[0] == m.cmd + 0x80 then
              if e.pdu[1] == 0 then
                m' == m.(exc := 0, cmd := 0, log := m.log + [Completion(m.callback, m.slaveId, m.cmd, 0)])
              else m' == m.(exc := e.pdu[1])
            else m' == m.(exc := 0x11)
  {
    hide Expected, Answers, Received, Delivered;
    if e.pdu[0] == m.cmd {
      ExpectedIff(m, e.pdu, e.size);
      if Answers(m, e.pdu, e.size) && IsRead(m.cmd) {
        AnswersARead(m, e.pdu, e.size);
        WordsDelivered(m, e.pdu);
      }
    } else {
      AnswersOwnCode(m, e.pdu, e.size);
    }
  }

  lemma AnswersARead(m: Master, pdu: seq<byte>, size: nat)
    requires |pdu| == BUFFER_SIZE && IsRead(m.cmd) && Answers(m, pdu, size)
    ensures 2 + 2 * m.quantityR <= BUFFER_SIZE
  {
  }

  lemma AnswersOwnCode(m: Master, pdu: seq<byte>, size: nat)
    requires |pdu| == BUFFER_SIZE && pdu[0] != m.cmd
    ensures !Answers(m, pdu, size)
  {
  }

  function Run(m: Master, es: seq<Event>): (m': Master)
    requires Sound(m) && forall k :: 0 <= k < |es| ==> EventOk(es[k])
    ensures Sound(m')
  {
    if es == [] then m else After(Run(m, es[..|es| - 1]), es[|es| - 1])
  }

  /** Commands accepted in a run. */
  function CommandsAccepted(m: Master, es: seq<Event>): nat
    requires Sound(m) && forall k :: 0 <= k < |es| ==> EventOk(es[k])
  {
    if es == [] then 0
    else CommandsAccepted(m, es[..|es| - 1]) + (if AcceptedBy(Run(m, es[..|es| - 1]), es[|es| - 1]) then 1 else 0)
  }

  function SpuriousMessages(m: Master, es: seq<Event>): nat
    requires Sound(m) && forall k :: 0 <= k < |es| ==> EventOk(es[k])
  {
    if es == [] then 0
    else SpuriousMessages(m, es[..|es| - 1]) + (if Spurious(Run(m, es[..|es| - 1]), es[|es| - 1]) then 1 else 0)
  }

  /** MAIN: over every run, the signals given are the commands accepted that are not pending any more,
      plus the spurious messages. */
  lemma {:induction false} SignalsBalanceCommands(m: Master, es: seq<Event>)
    requires Sound(m) && forall k :: 0 <= k < |es| ==> EventOk(es[k])
    ensures Balance(Run(m, es)) == Balance(m) + CommandsAccepted(m, es) + SpuriousMessages(m, es)
  {
    if es != [] {
      SignalsBalanceCommands(m, es[..|es| - 1]);
      BalanceStep(Run(m, es[..|es| - 1]), es[|es| - 1]);
    }
  }

  /** Number of tries in a run. */
  function Tries(es: seq<Event>): nat {
    if es == [] then 0 else Tries(es[..|es| - 1]) + (if es[|es| - 1].Try? then 1 else 0)
  }

  /** The events of a run during which the slave asked does not answer. */
  predicate Unanswered(slaveId: byte, es: seq<Event>) {
    forall k :: 0 <= k < |es| ==> EventOk(es[k]) && (es[k].Answer? ==> es[k].id != slaveId)
  }

  /** A pending command whose slave does not answer loses tries and nothing else, whatever else goes on. */
  lemma {:induction false} PendingUnanswered(m: Master, es: seq<Event>)
    requires Sound(m) && m.cmd != 0 && Unanswered(m.slaveId, es) && Tries(es) <= m.retryCount
    ensures Run(m, es) == m.(retryCount := m.retryCount - Tries(es))
  {
    if es != [] {
      PendingUnanswered(m, es[..|es| - 1]);
    }
  }

  /** MAIN: a command that is accepted and whose slave never answers ends with its one signal, and the code
      0x10, at the try after its `retryComm` ones and not before, whatever messages come from other slaves,
      whatever other commands are asked for meanwhile, and whatever the command before it ended with. */
  lemma UnansweredCommandEnds(m: Master, e: Event, es: seq<Event>)
    requires Sound(m) && EventOk(e) && AcceptedBy(m, e) && Unanswered(e.slaveId, es) && Tries(es) == m.retryComm
    ensures var issued := After(m, e);
            var x := After(Run(issued, es), Try);
            && issued.cmd == e.cmd == Run(issued, es).cmd && Run(issued, es).log == m.log
            && x.cmd == 0 && x.log == m.log + [Completion(e.callback, e.slaveId, e.cmd, 0x10)]
  {
    PendingUnanswered(After(m, e), es);
  }

  /** A response to a single write of only two bytes is judged by the bytes behind it: over the buffer
      that held the request it ends the command without error exactly if its second byte is the high
      byte of the address. */
  lemma ShortWriteResponseIff(m: Master, before: seq<byte>, second: byte)
    requires Sound(m) && m.cmd == WRITE_SINGLE_REGISTER && |before| == BUFFER_SIZE
    ensures var pdu := Overlay(Overlay(before, Request(m)), [m.cmd, second]);
            Response(m, m.slaveId, pdu, 2).cmd == 0 <==> second == m.startW / 0x100
  {
    var request := Overlay(before, Request(m));
    var pdu := Overlay(request, [m.cmd, second]);
    assert request[2] == m.startW % 0x100 && request[3] == ToUint16(m.dataW) / 0x100
        && request[4] == ToUint16(m.dataW) % 0x100;
    assert pdu[2] == request[2] && pdu[3] == request[3] && pdu[4] == request[4];
    ReadWriteInt(m.dataW);
  }

  /** The response of slave 1 to a write of 0 to register 0. */
  function SuccessOf6(): (e: Event)
    ensures EventOk(e)
  {
    Answer(1, seq(BUFFER_SIZE, i => 0)[0 := WRITE_SINGLE_REGISTER], 5)
  }

  /** A message of zeros from slave 1. */
  function Zeros(): (e: Event)
    ensures EventOk(e)
  {
    Answer(1, seq(BUFFER_SIZE, i => 0), 2)
  }

  lemma CommandAndStray(issue: Event)
    requires issue == Issue(WRITE_SINGLE_REGISTER, 1, false, Params(0, 0, 0, 0, 0, [], []))
    ensures Sound(Opened()) && EventOk(issue) && AcceptedBy(Opened(), issue)
    ensures var m1 := After(Opened(), issue);
            var m2 := After(m1, SuccessOf6());
            && !AcceptedBy(m1, SuccessOf6()) && !AcceptedBy(m2, Zeros())
            && m2.cmd == 0 && |m2.log| == 1 && |After(m2, Zeros()).log| == 2
  {
    hide Response, SuccessOf6;
    var m1 := Opened().(cmd := WRITE_SINGLE_REGISTER, slaveId := 1, retryCount := 3);
    assert After(Opened(), issue) == m1;
    SuccessCompletes(m1);
    SpuriousIff(Complete(m1), Zeros());
  }

  lemma SuccessCompletes(m: Master)
    requires Sound(m) && m.cmd == WRITE_SINGLE_REGISTER && m.slaveId == 1 && m.startW == 0 && m.dataW == 0
    ensures SuccessOf6().Answer? && After(m, SuccessOf6()) == Complete(m.(exc := E_NO_ERROR))
  {
    hide SuccessOf6, Received, WordAt;
    SuccessSays();
  }

  lemma SuccessSays()
    ensures SuccessOf6().Answer? && SuccessOf6().id == 1 && |SuccessOf6().pdu| == BUFFER_SIZE
    ensures var pdu := SuccessOf6().pdu; pdu[0] == WRITE_SINGLE_REGISTER && WordAt(pdu, 1) == 0 && WordAt(pdu, 3) == 0
  {
    var pdu := SuccessOf6().pdu;
    assert pdu[1] == pdu[2] == pdu[3] == pdu[4] == 0;
  }

  /** A run of three events, and the commands accepted in it, step by step. */
  lemma RunOfThree(m: Master, es: seq<Event>)
    requires Sound(m) && |es| == 3 && forall k :: 0 <= k < |es| ==> EventOk(es[k])
    ensures var m1 := After(m, es[0]);
            var m2 := After(m1, es[1]);
            && Run(m, es) == After(m2, es[2])
            && CommandsAccepted(m, es) == (if AcceptedBy(m, es[0]) then 1 else 0)
               + (if AcceptedBy(m1, es[1]) then 1 else 0)
                                          + (if AcceptedBy(m2, es[2]) then 1 else 0)
  {
    assert es[..2][..1] == es[..1] && es[..1][..0] == [];
    assert Run(m, []) == m && Run(m, es[..1]) == After(m, es[0]) && Run(m, es[..2]) == After(After(m, es[0]), es[1]);
    assert CommandsAccepted(m, []) == 0;
    assert CommandsAccepted(m, es[..1]) == if AcceptedBy(m, es[0]) then 1 else 0;
  }

  /** The promise of one signal a command is not kept for every server: from a master just opened, one
      command to slave 1, its successful response, and then a message of zeros from that slave give two
      signals for the one command. */
  lemma SpuriousSignalExists()
    ensures exists es: seq<Event> ::
              && (forall k :: 0 <= k < |es| ==> EventOk(es[k]))
              && CommandsAccepted(Opened(), es) == 1 && |Run(Opened(), es).log| == 2
  {
    hide Run, CommandsAccepted, After;
    var issue, answer, stray := Issue(WRITE_SINGLE_REGISTER, 1, false, Params(0, 0, 0, 0, 0, [], [])), SuccessOf6(),
        Zeros();
    var es := [issue, answer, stray];
    CommandAndStray(issue);
    RunOfThree(Opened(), es);
    assert (forall k :: 0 <= k < |es| ==> EventOk(es[k])) && CommandsAccepted(Opened(), es) == 1
        && |Run(Opened(), es).log| == 2;
  }
}
