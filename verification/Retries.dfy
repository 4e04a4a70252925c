/** A whole command over the line, try by try: what the master's link holds, and what the line still owes
    it, goes from each try to the next. */
module Retries {
  import opened Bytes
  import opened Modbus
  import F = AsciiFrame
  import opened AsciiLink
  import S = AsciiStream
  import opened Oversized
  import opened Listening
  import opened Slave
  import opened SlaveProperties
  import opened RegisterFile
  import M = Master
  import opened EndToEnd

  /** Between two tries: the master and the buffer of its client, the slave's application and all callbacks
      run so far, the master's link, and the characters the slave wrote that the link has not read. */
  datatype Wire<A> = Wire(
    master: M.Master, buffer: seq<byte>, app: A, calls: seq<Call>, link: Link, owed: seq<byte>)

  /** What a request that was written does at the slave, and what the slave writes. */
  datatype Reply<A> = Reply(app: A, calls: seq<Call>, written: seq<byte>)

  function Answered<A>(cmd: Callbacks<A>, app: A, request: F.Msg): Reply<A> {
    match F.Receive(F.Frame(request))
    case None => Reply(app, [], [])
    case Some(req) =>
      if req.pdu == [] then Reply(app, [], [])
      else
        var served := Serve(cmd, app, req.pdu);
        Reply(served.app, served.calls, S.Flatten(Emitted(F.Msg(req.id, served.reply))))
  }

  /** Milliseconds in ticks. */
  function Ticks(ms: nat, timeBase: nat): nat
    requires timeBase > 0
  {
    ms / timeBase
  }

  /** A command with tries left. */
  predicate TriesLeft(m: M.Master) {
    M.Sound(m) && m.cmd != 0 && m.retryCount > 0
  }

  /** The master in its next try. */
  function NextTry(m: M.Master): (t: M.Master)
    requires TriesLeft(m)
    ensures t == m.(retryCount := m.retryCount - 1) && M.Sound(t)
  {
    M.Tried(m)
  }

  predicate Fine<A>(w: Wire<A>) {
    M.Sound(w.master) && |w.link.live| <= F.MAX_LENGTH && |w.buffer| == BUFFER_SIZE
  }

  /** One try: the request is written, over what the link holds, and the slave answers; the polls bring
      characters of the line until something is reported. What the polls not made would have brought is
      owed to the next try. */
  function Try<A>(w: Wire<A>, cmd: Callbacks<A>, polls: seq<seq<byte>>, reload: nat): (w': Wire<A>)
    requires Fine(w) && TriesLeft(w.master)
    ensures Fine(w') && w'.master.retryCount == w.master.retryCount - 1
  {
    var t := NextTry(w.master);
    var reply := Answered(cmd, w.app, RequestOf(t));
    var heard := Listen(Overwritten(w.link, t), polls, reload);
    match heard.msg
    case None =>
      Wire(t, Overlay(w.buffer, M.Request(t)), reply.app, w.calls + reply.calls, heard.link, S.Flatten(heard.rest))
    case Some(msg) =>
      Wire(Judged(t, msg, w.buffer), Held(w.buffer, t, msg), reply.app, w.calls + reply.calls, heard.link,
           S.Flatten(heard.rest))
  }

  /** The master after a message of its link. */
  function Judged(m: M.Master, msg: F.Msg, before: seq<byte>): (m': M.Master)
    requires M.Sound(m) && |before| == BUFFER_SIZE
    ensures M.Sound(m') && m'.retryCount == m.retryCount
  {
    M.Response(m, msg.id, Held(before, m, msg), |msg.pdu|)
  }

  /** The line during a try: as many polls as the response timeout allows, each of no more characters than
      are asked for, bring what is owed and what the slave writes, in any pieces and with any pauses. The
      first poll follows the request at once and brings nothing that is not owed. */
  predicate HandsOver<A>(w: Wire<A>, cmd: Callbacks<A>, polls: seq<seq<byte>>, timeBase: nat)
    requires TriesLeft(w.master) && |w.link.live| <= F.MAX_LENGTH && timeBase > 0
  {
    var t := NextTry(w.master);
    && |polls| == Ticks(t.respTimeout, timeBase) + 1
    && polls != [] && (w.owed == [] ==> polls[0] == [])
    && S.Flatten(polls) == w.owed + Answered(cmd, w.app, RequestOf(t)).written
    && Readable(Overwritten(w.link, t), polls, Ticks(1000, timeBase))
  }

  /** All tries of a command, with the polls of each, until the command ends. */
  function Tries<A>(w: Wire<A>, cmd: Callbacks<A>, script: seq<seq<seq<byte>>>, timeBase: nat): Wire<A>
    requires Fine(w) && timeBase > 0
    decreases |script|
  {
    if w.master.cmd == 0 then w
    else if w.master.retryCount == 0 then w.(master := M.Tried(w.master))
    else if script == [] then w
    else Tries(Try(w, cmd, script[0], Ticks(1000, timeBase)), cmd, script[1..], timeBase)
  }

  predicate LineHandsOver<A>(w: Wire<A>, cmd: Callbacks<A>, script: seq<seq<seq<byte>>>, timeBase: nat)
    requires Fine(w) && timeBase > 0
    decreases |script|
  {
    w.master.cmd == 0 || w.master.retryCount == 0
    || (&& script != [] && HandsOver(w, cmd, script[0], timeBase)
        && LineHandsOver(Try(w, cmd, script[0], Ticks(1000, timeBase)), cmd, script[1..], timeBase))
  }

  /** What the slave does with a request short enough to be heard. */
  lemma AnsweredByLength<A(!new)>(cmd: Callbacks<A>, app: A, request: F.Msg)
    requires request.pdu != [] && Contract(cmd)
    ensures var served, reply := Serve(cmd, app, request.pdu), Answered(cmd, app, request);
            reply == if |request.pdu| > 60 then Reply(app, [], [])
                     else Reply(served.app, served.calls, F.Frame(F.Msg(request.id, served.reply)))
    ensures Fits(F.Msg(request.id, Serve(cmd, app, request.pdu).reply))
  {
    hide Serve, F.Frame, F.Receive, Contract;
    F.RoundTripIff(request);
    ReplyShape(cmd, app, request.pdu, request.id);
    var f := F.Frame(F.Msg(request.id, Serve(cmd, app, request.pdu).reply));
    var one: seq<seq<byte>> := [f];
    assert one[..0] == [] && S.Flatten(one) == f;
  }

  // Long replies.

  /** A message whose frame is not reported and has the length of a reply of `quantity` registers. */
  predicate LongReply(msg: F.Msg, quantity: nat) {
    TooLong(msg) && |msg.pdu| == 2 + 2 * quantity
  }

  ghost predicate HoldsReply(l: Link, quantity: nat) {
    l.timeOut > 0 && exists g: F.Msg :: LongReply(g, quantity) && l.live == F.Frame(g)
  }

  ghost predicate OwesReply(owed: seq<byte>, quantity: nat) {
    exists g: F.Msg :: LongReply(g, quantity) && owed == F.Frame(g)
  }

  /** Between two tries of a long read: nothing on link and line, or a reply on one of them. */
  ghost predicate Between<A>(w: Wire<A>) {
    || (w.owed == [] && (w.link.live == [] || HoldsReply(w.link, w.master.quantityR)))
    || (w.link.live == [] && OwesReply(w.owed, w.master.quantityR))
  }

  /** A pending read of 30 to 125 registers whose request is short enough to be heard by the slave. */
  predicate LongRead(m: M.Master) {
    && M.Sound(m) && M.IsRead(m.cmd) && 30 <= m.quantityR <= 125
    && (m.cmd == READ_WRITE_MULTIPLE_REGISTERS ==> 1 <= m.quantityW <= 25)
  }

  lemma AskedAgain(m: M.Master)
    requires TriesLeft(m)
    ensures M.Request(NextTry(m)) == M.Request(m) && RequestOf(NextTry(m)) == RequestOf(m)
  {
  }

  /** A long read asks in at most 60 bytes, and hears itself by the lengths of its frames. */
  lemma HearsByLength(m: M.Master, g: F.Msg)
    requires LongRead(m) && LongReply(g, m.quantityR)
    ensures 1 <= |M.Request(m)| <= 60
    ensures HearsItself(m) <==> |F.Frame(RequestOf(m))| <= ToInt8(|F.Frame(g)|)
  {
    hide M.Request, F.Frame, ToInt8;
    RequestHead(m);
    F.FrameLength(RequestOf(m));
    F.FrameLength(g);
    ShortLength(2 * |g.pdu| + 7);
  }

  /** What a long read leaves of one try. */
  ghost predicate TriedLong<A>(w: Wire<A>, w': Wire<A>, served: Served<A>)
    requires TriesLeft(w.master)
  {
    && w'.app == served.app && w'.calls == w.calls + served.calls && Between(w')
    && if HearsItself(w.master) && w.link.live != [] then
         w'.master == NextTry(w.master).(exc := E_PDU_RECEIVED_WRONG) && w'.link.live == []
       else
         w'.master == NextTry(w.master) && w'.link.live != []
  }

  /** A link that hears nothing of a stream of long replies holds the last of them. */
  lemma StreamHeld(l: Link, ms: seq<F.Msg>, polls: seq<seq<byte>>, reload: nat, quantity: nat)
    requires ms != [] && (forall i :: 0 <= i < |ms| ==> LongReply(ms[i], quantity))
    requires |l.live| < F.MAX_LENGTH && F.CompleteLength(l.live) == -1 && |polls| <= reload
    requires S.Flatten(polls) == Frames(ms) && Readable(l, polls, reload)
    ensures var h := Listen(l, polls, reload);
            h.msg == None && h.rest == [] && HoldsReply(h.link, quantity) && h.link.live != []
  {
    hide F.Frame, F.CompleteLength, Tick, Recv, F.Receive, Listen, Readable, TooLong;
    ListenLong(l, ms, polls, reload);
    F.FrameLength(ms[|ms| - 1]);
  }

  /** Nothing is heard, or the request itself. */
  predicate OnlyItself<A>(w: Wire<A>, polls: seq<seq<byte>>, reload: nat)
    requires Fine(w) && TriesLeft(w.master)
  {
    Listen(Overwritten(w.link, NextTry(w.master)), polls, reload).msg in {None, Some(RequestOf(w.master))}
  }

  /** A try of a long read, whatever the link holds and the line owes. */
  lemma LongTry<A(!new)>(w: Wire<A>, cmd: Callbacks<A>, polls: seq<seq<byte>>, timeBase: nat)
    requires Fine(w) && TriesLeft(w.master) && LongRead(w.master) && Between(w) && Contract(cmd)
    requires timeBase > 0 && Ticks(w.master.respTimeout, timeBase) < Ticks(1000, timeBase)
    requires HandsOver(w, cmd, polls, timeBase)
    requires M.Request(w.master) != [] && |Serve(cmd, w.app, M.Request(w.master)).reply| == 2 + 2 * w.master.quantityR
    ensures TriedLong(w, Try(w, cmd, polls, Ticks(1000, timeBase)), Serve(cmd, w.app, M.Request(w.master)))
    ensures OnlyItself(w, polls, Ticks(1000, timeBase))
  {
    hide F.Frame, F.CompleteLength, Tick, Recv, F.Receive, Listen, Readable, Serve, M.Request, M.Response, Contract,
         Ticks, Answered, Judged, ToInt8, HearsItself;
    var m, reload := w.master, Ticks(1000, timeBase);
    var f := F.Msg(m.slaveId, Serve(cmd, w.app, M.Request(m)).reply);
    AskedAgain(m);
    RequestHead(m);
    AnsweredByLength(cmd, w.app, RequestOf(m));
    assert LongReply(f, m.quantityR);
    if w.link.live == [] {
      EmptyIncomplete();
      StaysEmpty(w.link, NextTry(m));
      if w.owed == [] {
        OneFrame(f);
        StreamHeld(w.link, [f], polls, reload, m.quantityR);
      } else {
        var g: F.Msg :| LongReply(g, m.quantityR) && w.owed == F.Frame(g);
        TwoFrames(g, f);
        StreamHeld(w.link, [g, f], polls, reload, m.quantityR);
      }
    } else {
      var g: F.Msg :| LongReply(g, m.quantityR) && w.link.live == F.Frame(g);
      HearsByLength(m, g);
      if HearsItself(m) {
        OwnRequestHeard(w.link, RequestOf(m), g, polls, reload);
        FlattenFirst(polls);
        OwnJudged(NextTry(m), w.buffer);
        assert [] + S.Flatten(polls[1..]) == S.Flatten(polls[1..]) && w.owed + F.Frame(f) == F.Frame(f);
      } else {
        OverlaidIncomplete(w.link, RequestOf(m), g);
        OneFrame(f);
        assert w.owed + F.Frame(f) == F.Frame(f);
        StreamHeld(Overwritten(w.link, NextTry(m)), [f], polls, reload, m.quantityR);
      }
    }
  }

  lemma StaysEmpty(l: Link, m: M.Master)
    requires l.live == [] && M.Sound(m)
    ensures Overwritten(l, m) == l
  {
  }

  lemma OneFrame(f: F.Msg)
    ensures Frames([f]) == F.Frame(f)
  {
    hide F.Frame;
    assert [f][1..] == [];
    assert F.Frame(f) + [] == F.Frame(f);
  }

  lemma TwoFrames(g: F.Msg, f: F.Msg)
    ensures Frames([g, f]) == F.Frame(g) + F.Frame(f)
  {
    hide F.Frame;
    assert [g, f][1..] == [f];
    OneFrame(f);
  }

  lemma OwnJudged(m: M.Master, before: seq<byte>)
    requires LongRead(m) && |before| == BUFFER_SIZE && 1 <= |M.Request(m)| <= 60
    ensures Judged(m, RequestOf(m), before) == m.(exc := E_PDU_RECEIVED_WRONG)
  {
    hide M.Request, M.Response, Held;
    HeldStarts(before, m, RequestOf(m));
    OwnRequestJudged(m, Held(before, m, RequestOf(m)));
  }

  // Whole commands on a bank of registers.

  /** The ranges of a read or read-write lie inside the bank. */
  predicate Inside(m: M.Master, regs: Bank) {
    && 1 <= m.quantityR <= 125 && m.startR + m.quantityR <= |regs|
    && (m.cmd == READ_WRITE_MULTIPLE_REGISTERS ==> 1 <= m.quantityW && m.startW + m.quantityW <= |regs|)
  }

  /** The callbacks a read or read-write runs when the slave hears it. */
  function CommandCalls(m: M.Master): seq<Call>
    requires m.quantityW <= |m.wordsW|
  {
    if m.cmd == READ_WRITE_MULTIPLE_REGISTERS then ReadWriteCalls(m) else [Read(m.cmd, m.startR, m.quantityR)]
  }

  /** What it leaves of the bank. */
  ghost predicate CarriedOut(m: M.Master, regs: Bank, regs': Bank)
    requires m.quantityW <= |m.wordsW|
  {
    if m.cmd == READ_WRITE_MULTIPLE_REGISTERS then WrittenBy(m, regs, regs') else regs' == regs
  }

  lemma BankAnswers(m: M.Master, regs: Bank)
    requires M.Sound(m) && M.IsRead(m.cmd) && Inside(m, regs)
    requires m.cmd == READ_WRITE_MULTIPLE_REGISTERS ==> m.quantityW <= 25
    ensures M.Request(m) != [] && |M.Request(m)| <= 60
    ensures var s := Serve(BANK, regs, M.Request(m));
            && |s.reply| == 2 + 2 * m.quantityR && s.calls == CommandCalls(m) && CarriedOut(m, regs, s.app)
            && m.startR + m.quantityR <= |s.app|
            && s.reply == [m.cmd, ToUint8(2 * m.quantityR)] + Unwords(s.app[m.startR..m.startR + m.quantityR])
  {
    hide M.Request, Serve, Written, Unwords;
    RequestHead(m);
    RequestWellFormed(m);
    if m.cmd == READ_WRITE_MULTIPLE_REGISTERS {
      ReadWriteRequest(m);
      ReadWriteOutcome(regs, M.Request(m));
      WrittenByRequest(m, regs);
    } else {
      ReadRequest(m);
      ServeReadOfBank(regs, M.Request(m));
      ReadCallOfBank(regs, M.Request(m));
    }
  }

  lemma ReadCallOfBank(regs: Bank, pdu: seq<byte>)
    requires |pdu| == 5 && pdu[0] in {READ_HOLDING_REGISTERS, READ_INPUT_REGISTERS} && 1 <= WordAt(pdu, 3) <= 125
    ensures Serve(BANK, regs, pdu).calls == [Read(pdu[0], WordAt(pdu, 1), WordAt(pdu, 3))]
  {
  }

  /** `calls`, `n` times over. */
  function Repeated(calls: seq<Call>, n: nat): seq<Call> {
    if n == 0 then [] else calls + Repeated(calls, n - 1)
  }

  /** The exception code a long read ends with: the code for a wrong response exactly if a try hears its
      own request, which takes a long reply in the link when the request is written over it, left there by
      the try before or held from the start. */
  function EndCode(m: M.Master, l: Link): byte {
    if HearsItself(m) && m.retryCount > 0 && (l.live != [] || m.retryCount > 1) then E_PDU_RECEIVED_WRONG
    else if m.exc != E_NO_ERROR then m.exc
    else E_SLAVE_NOT_RESPOND
  }

  /** The end of a command that no response completed. */
  function GivenUp(m: M.Master, code: byte): M.Master {
    M.Complete(m.(retryCount := 0, exc := code))
  }

  /** MAIN: the whole of a read or read-write of 30 to 125 registers, over every line that brings each
      reply within its try, in any pieces: the slave carries it out on every try, the caller gets nothing,
      and the command ends with `EndCode`. The response timeout is shorter than the one of the link, as the
      300 and 1000 milliseconds of the code are. */
  lemma {:induction false} LongReadEnds(w: Wire<Bank>, script: seq<seq<seq<byte>>>, timeBase: nat)
    requires Fine(w) && w.master.cmd != 0 && LongRead(w.master) && Inside(w.master, w.app) && Between(w)
    requires timeBase > 0 && Ticks(w.master.respTimeout, timeBase) < Ticks(1000, timeBase)
    requires LineHandsOver(w, BANK, script, timeBase)
    ensures var m, x := w.master, Tries(w, BANK, script, timeBase);
            && x.master == GivenUp(m, EndCode(m, w.link))
            && x.calls == w.calls + Repeated(CommandCalls(m), m.retryCount)
            && if m.retryCount > 0 then CarriedOut(m, w.app, x.app) else x.app == w.app
    decreases w.master.retryCount
  {
    hide OnlyItself, Try, HandsOver, Serve, M.Request, Ticks, HearsItself, Between, CommandCalls;
    var m := w.master;
    if m.retryCount == 0 {
      LastTried(m);
      assert w.calls + [] == w.calls;
    } else {
      var w' := Try(w, BANK, script[0], Ticks(1000, timeBase));
      BankMeetsContract();
      BankAnswers(m, w.app);
      LongTry(w, BANK, script[0], timeBase);
      SameCommand(m, w'.master);
      LongReadEnds(w', script[1..], timeBase);
      assert w.calls + CommandCalls(m) + Repeated(CommandCalls(m), m.retryCount - 1) ==
             w.calls + (CommandCalls(m) + Repeated(CommandCalls(m), m.retryCount - 1));
    }
  }

  lemma LastTried(m: M.Master)
    requires m.cmd != 0 && m.retryCount == 0
    ensures M.Tried(m) == GivenUp(m, if m.exc != E_NO_ERROR then m.exc else E_SLAVE_NOT_RESPOND)
  {
  }

  /** What a try changes of the master does not change the command. */
  lemma SameCommand(m: M.Master, m': M.Master)
    requires m' == m.(retryCount := m'.retryCount, exc := m'.exc) && m.quantityW <= |m.wordsW|
    ensures CommandCalls(m') == CommandCalls(m) && HearsItself(m') == HearsItself(m)
  {
  }

  // Tries on a quiet line.

  /** Nothing held and nothing owed. */
  predicate Quiet<A>(w: Wire<A>) {
    w.link.live == [] && w.owed == []
  }

  /** On a quiet line a try is an exchange, unless the reply is long; and it leaves the line quiet. */
  lemma TryIsExchange<A(!new)>(w: Wire<A>, cmd: Callbacks<A>, polls: seq<seq<byte>>, timeBase: nat)
    requires Fine(w) && TriesLeft(w.master) && Quiet(w) && Contract(cmd) && M.Request(w.master) != []
    requires timeBase > 0 && Ticks(w.master.respTimeout, timeBase) < Ticks(1000, timeBase)
    requires HandsOver(w, cmd, polls, timeBase)
    requires |M.Request(w.master)| > 60 || |Serve(cmd, w.app, M.Request(w.master)).reply| <= 60
    ensures var w', x := Try(w, cmd, polls, Ticks(1000, timeBase)), Exchange(NextTry(w.master), cmd, w.app, w.buffer);
            w'.master == x.master && w'.app == x.app && w'.calls == w.calls + x.calls && Quiet(w')
  {
    hide F.Frame, F.CompleteLength, Tick, Recv, F.Receive, Listen, Readable, Serve, M.Request, M.Response, Contract,
         Ticks, Answered, Exchange, Held;
    var m, reload := w.master, Ticks(1000, timeBase);
    AskedAgain(m);
    StaysEmpty(w.link, NextTry(m));
    EmptyIncomplete();
    AnsweredByLength(cmd, w.app, RequestOf(m));
    ExchangeByLength(NextTry(m), cmd, w.app, w.buffer);
    if |M.Request(m)| > 60 {
      ListenLong(w.link, [], polls, reload);
    } else {
      var f := F.Msg(m.slaveId, Serve(cmd, w.app, M.Request(m)).reply);
      ReplyShape(cmd, w.app, M.Request(m), m.slaveId);
      F.FrameLength(f);
      assert w.owed + F.Frame(f) == F.Frame(f) == F.Frame(f)[0..];
      ListenShort(w.link, f, 0, polls, reload);
    }
  }

  /** A pending read or read-write over ranges inside the bank, without an exception so far. */
  predicate PendingRead(m: M.Master, regs: Bank) {
    TriesLeft(m) && M.IsRead(m.cmd) && m.exc == E_NO_ERROR && Inside(m, regs)
  }

  /** A request that does not reach the slave leaves everything alone until the tries are used up. */
  lemma {:induction false} UnheardEnds(w: Wire<Bank>, script: seq<seq<seq<byte>>>, timeBase: nat)
    requires Fine(w) && w.master.cmd != 0 && w.master.exc == E_NO_ERROR && Quiet(w) && |M.Request(w.master)| > 60
    requires timeBase > 0 && Ticks(w.master.respTimeout, timeBase) < Ticks(1000, timeBase)
    requires LineHandsOver(w, BANK, script, timeBase)
    ensures var x := Tries(w, BANK, script, timeBase);
            x.master == GivenUp(w.master, E_SLAVE_NOT_RESPOND) && x.app == w.app && x.calls == w.calls
    decreases w.master.retryCount
  {
    hide Try, HandsOver, Serve, M.Request, Ticks, Exchange;
    var m := w.master;
    if m.retryCount == 0 {
      LastTried(m);
    } else {
      var w' := Try(w, BANK, script[0], Ticks(1000, timeBase));
      BankMeetsContract();
      TryIsExchange(w, BANK, script[0], timeBase);
      AskedAgain(m);
      ExchangeByLength(NextTry(m), BANK, w.app, w.buffer);
      assert w.calls + [] == w.calls;
      UnheardEnds(w', script[1..], timeBase);
    }
  }

  /** MAIN: the whole of a read or read-write command that finds a quiet line, over every line that brings
      each reply within its try, in any pieces. With up to 25 registers written and 29 read the first try
      completes it. With more to write the slave never hears of it and the command ends with the code for
      a missing response. With more to read the slave carries it out on every try, and that code or the one
      for a wrong response ends it, by `EndCode`. */
  lemma ReadCommandEnds(w: Wire<Bank>, script: seq<seq<seq<byte>>>, timeBase: nat)
    requires Fine(w) && PendingRead(w.master, w.app) && Quiet(w)
    requires timeBase > 0 && Ticks(w.master.respTimeout, timeBase) < Ticks(1000, timeBase)
    requires LineHandsOver(w, BANK, script, timeBase)
    ensures var m, x := w.master, Tries(w, BANK, script, timeBase);
            if m.cmd == READ_WRITE_MULTIPLE_REGISTERS && m.quantityW > 25 then
              x.master == GivenUp(m, E_SLAVE_NOT_RESPOND) && x.app == w.app && x.calls == w.calls
            else if m.quantityR > 29 then
              && x.master == GivenUp(m, EndCode(m, w.link)) && CarriedOut(m, w.app, x.app)
              && x.calls == w.calls + Repeated(CommandCalls(m), m.retryCount)
            else
              && CarriedOut(m, w.app, x.app) && x.calls == w.calls + CommandCalls(m)
              && m.startR + m.quantityR <= |x.app|
              && CallerHas(m.wordsR, x.master.wordsR, x.app[m.startR..m.startR + m.quantityR])
              && x.master == M.Complete(m.(retryCount := m.retryCount - 1,
                                           wordsR := Stored(m.wordsR, x.app[m.startR..m.startR + m.quantityR])))
  {
    hide Try, HandsOver, Serve, M.Request, Ticks, Exchange, Repeated, Between, EndCode, CallerHas;
    var m := w.master;
    if m.cmd == READ_WRITE_MULTIPLE_REGISTERS && m.quantityW > 25 {
      RequestHead(m);
      UnheardEnds(w, script, timeBase);
    } else if m.quantityR > 29 {
      QuietBetween(w);
      LongReadEnds(w, script, timeBase);
    } else {
      BankMeetsContract();
      BankAnswers(m, w.app);
      TryIsExchange(w, BANK, script[0], timeBase);
      CompletedExchange(m, w.app, w.buffer);
    }
  }

  lemma QuietBetween<A>(w: Wire<A>)
    requires Quiet(w)
    ensures Between(w)
  {
  }

  /** The exchange of a short read or read-write. */
  lemma CompletedExchange(m: M.Master, regs: Bank, before: seq<byte>)
    requires PendingRead(m, regs) && |before| == BUFFER_SIZE && m.quantityR <= 29
    requires m.cmd == READ_WRITE_MULTIPLE_REGISTERS ==> m.quantityW <= 25
    ensures var x := Exchange(NextTry(m), BANK, regs, before);
            && CarriedOut(m, regs, x.app) && x.calls == CommandCalls(m) && m.startR + m.quantityR <= |x.app|
            && CallerHas(m.wordsR, x.master.wordsR, x.app[m.startR..m.startR + m.quantityR])
            && x.master == M.Complete(m.(retryCount := m.retryCount - 1,
                                         wordsR := Stored(m.wordsR, x.app[m.startR..m.startR + m.quantityR])))
  {
    hide Serve, M.Request, Exchange, Stored, CallerHas;
    var t := NextTry(m);
    SameCommand(m, t);
    if m.cmd == READ_WRITE_MULTIPLE_REGISTERS {
      ReadWriteEndToEnd(t, regs, before);
    } else {
      ReadEndToEnd(t, regs, before);
      BankMeetsContract();
      BankAnswers(t, regs);
      ExchangeByLength(t, BANK, regs, before);
    }
  }

  // Such lines exist.

  function Silence(n: nat): seq<seq<byte>> {
    seq(n, i => [])
  }

  lemma RoomLeft(l: Link)
    requires |l.live| < F.MAX_LENGTH
    ensures Room(l) >= F.MAX_LENGTH - |l.live|
  {
  }

  lemma {:induction false} SilenceReadable(l: Link, n: nat, reload: nat)
    requires |l.live| <= F.MAX_LENGTH
    ensures Readable(l, Silence(n), reload) && S.Flatten(Silence(n)) == []
    decreases n
  {
    hide Tick, Recv, Room;
    if n > 0 {
      assert Silence(n)[1..] == Silence(n - 1);
      PollBound(l, [], reload);
      SilenceReadable(Recv(Tick(l, [], reload)), n - 1, reload);
      FlattenFirst(Silence(n));
    }
  }

  /** A long frame can come in two pieces and silence. */
  lemma PiecesReadable(l: Link, f: F.Msg, n: nat, reload: nat)
    requires |l.live| < F.MAX_LENGTH && TooLong(f)
    ensures |F.Frame(f)| > 1
    ensures var pieces: seq<seq<byte>> := [F.Frame(f)[..1], F.Frame(f)[1..]] + Silence(n);
            Readable(l, pieces, reload) && S.Flatten(pieces) == F.Frame(f)
  {
    hide F.Frame, Tick, Recv, Room, TooLong;
    F.FrameLength(f);
    BeginIncomplete(f, 1);
    var chars := F.Frame(f);
    var pieces: seq<seq<byte>> := [chars[..1], chars[1..]] + Silence(n);
    RoomLeft(l);
    FrameBegins(l, [], f, 1, reload);
    assert [] + chars[..1] == chars[..1];
    var l1 := Link(chars[..1], reload);
    RoomLeft(l1);
    PollBound(l1, chars[1..], reload);
    SilenceReadable(Recv(Tick(l1, chars[1..], reload)), n, reload);
    assert pieces[1..][1..] == Silence(n) && pieces[1..][0] == chars[1..];
    FlattenFirst(pieces);
    FlattenFirst(pieces[1..]);
    assert chars[..1] + (chars[1..] + []) == chars;
  }

  /** A try whose polls bring what is owed first, then the reply in two pieces. */
  lemma PollsExist<A(!new)>(w: Wire<A>, cmd: Callbacks<A>, timeBase: nat) returns (polls: seq<seq<byte>>)
    requires TriesLeft(w.master) && LongRead(w.master) && Between(w) && Contract(cmd)
    requires timeBase > 0 && Ticks(w.master.respTimeout, timeBase) >= 2
    requires M.Request(w.master) != [] && |Serve(cmd, w.app, M.Request(w.master)).reply| == 2 + 2 * w.master.quantityR
    ensures |w.link.live| < F.MAX_LENGTH && HandsOver(w, cmd, polls, timeBase)
  {
    hide F.Frame, F.CompleteLength, Tick, Recv, F.Receive, Serve, M.Request, Contract, Ticks, Answered, Room, TooLong,
         Silence;
    var m, reload := w.master, Ticks(1000, timeBase);
    var f := F.Msg(m.slaveId, Serve(cmd, w.app, M.Request(m)).reply);
    AskedAgain(m);
    RequestHead(m);
    AnsweredByLength(cmd, w.app, RequestOf(m));
    LongByLength(f);
    F.FrameLength(f);
    BetweenShort(w);
    var n := Ticks(m.respTimeout, timeBase) - 2;
    var pieces: seq<seq<byte>> := [F.Frame(f)[..1], F.Frame(f)[1..]] + Silence(n);
    SilenceLength(n);
    var l0 := Overwritten(w.link, NextTry(m));
    var l1 := Recv(Tick(l0, w.owed, reload));
    FirstPoll(l0, w.owed, reload, m.quantityR);
    PiecesReadable(l1, f, n, reload);
    polls := [w.owed] + pieces;
    assert polls[1..] == pieces && polls[0] == w.owed;
    FlattenFirst(polls);
  }

  lemma SilenceLength(n: nat)
    ensures |Silence(n)| == n
  {
  }

  lemma LongByLength(f: F.Msg)
    ensures |f.pdu| > 60 && Fits(f) ==> TooLong(f)
  {
  }

  lemma BetweenShort<A>(w: Wire<A>)
    requires Between(w)
    ensures |w.link.live| < F.MAX_LENGTH
    ensures w.owed == [] || (w.link.live == [] && OwesReply(w.owed, w.master.quantityR))
  {
    hide F.Frame;
    if w.link.live != [] {
      var g: F.Msg :| LongReply(g, w.master.quantityR) && w.link.live == F.Frame(g);
      BeginIncomplete(g, 0);
    }
  }

  lemma FirstPoll(l: Link, owed: seq<byte>, reload: nat, quantity: nat)
    requires |l.live| < F.MAX_LENGTH && (owed == [] || (l.live == [] && OwesReply(owed, quantity)))
    ensures |owed| <= Room(l) && |Recv(Tick(l, owed, reload)).live| < F.MAX_LENGTH
  {
    hide F.Frame, F.CompleteLength, F.Receive, LastStart, FromLastStart;
    if owed != [] {
      var g: F.Msg :| LongReply(g, quantity) && owed == F.Frame(g);
      BeginIncomplete(g, 0);
      RoomLeft(l);
      FrameBegins(l, [], g, |F.Frame(g)|, reload);
      assert [] + F.Frame(g)[..|F.Frame(g)|] == F.Frame(g);
    }
  }

  /** For every long read there is a line as `LongReadEnds` asks for. */
  lemma {:induction false} LineExists(w: Wire<Bank>, timeBase: nat) returns (script: seq<seq<seq<byte>>>)
    requires Fine(w) && w.master.cmd != 0 && LongRead(w.master) && Inside(w.master, w.app) && Between(w)
    requires timeBase > 0 && 2 <= Ticks(w.master.respTimeout, timeBase) < Ticks(1000, timeBase)
    ensures LineHandsOver(w, BANK, script, timeBase)
    decreases w.master.retryCount
  {
    hide Try, HandsOver, Serve, M.Request, Ticks, Between, CommandCalls;
    if w.master.retryCount == 0 {
      script := [];
    } else {
      BankMeetsContract();
      BankAnswers(w.master, w.app);
      var polls := PollsExist(w, BANK, timeBase);
      LongTry(w, BANK, polls, timeBase);
      var rest := LineExists(Try(w, BANK, polls, Ticks(1000, timeBase)), timeBase);
      script := [polls] + rest;
      assert script[1..] == rest;
    }
  }

  /** 70 registers read and one written, with the tries and the timeout a master has after its opening. */
  function SeventyRead(): (m: M.Master)
    ensures TriesLeft(m) && LongRead(m) && m.retryCount == 3 && m.respTimeout == 300
  {
    M.Started(M.Opened().(quantityR := 70, quantityW := 1, wordsR := seq(70, i => 0), wordsW := [7]),
              READ_WRITE_MULTIPLE_REGISTERS, 1, false)
  }

  /** MAIN: a command that ends with the code for a wrong response although its slave answered every try
      and answered rightly: 70 registers read and one written, at 5 milliseconds a tick. */
  lemma WrongCodeExists(regs: Bank, before: seq<byte>)
    requires |regs| >= 70 && |before| == BUFFER_SIZE
    ensures var w := Wire(SeventyRead(), before, regs, [], Link([], 0), []);
            exists script ::
              && LineHandsOver(w, BANK, script, 5)
              && Tries(w, BANK, script, 5).master == GivenUp(SeventyRead(), E_PDU_RECEIVED_WRONG)
              && Tries(w, BANK, script, 5).calls == Repeated(ReadWriteCalls(SeventyRead()), 3)
  {
    hide LineHandsOver, Tries, ReadWriteCalls, Repeated, GivenUp;
    var w := Wire(SeventyRead(), before, regs, [], Link([], 0), []);
    var script := LineExists(w, 5);
    LongReadEnds(w, script, 5);
    assert [] + Repeated(CommandCalls(SeventyRead()), 3) == Repeated(CommandCalls(SeventyRead()), 3);
  }
}
