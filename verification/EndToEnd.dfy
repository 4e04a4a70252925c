/** Master and slave over MODBUS ASCII: what one exchange of a request and a response does to the
    master, to the memory of its caller, and to the registers of the slave. */
module EndToEnd {
  import opened Bytes
  import opened Modbus
  import F = AsciiFrame
  import L = Lrc
  import opened Slave
  import opened SlaveProperties
  import opened RegisterFile
  import M = Master

  /** The master, the state of the slave's application, and the callbacks run. */
  datatype Exchanged<A> = Exchanged(master: M.Master, app: A, calls: seq<Call>)

  /** A frame that is not reported as a message has no effect. `before` is the buffer of the master's
      client, which holds the request while the response comes in. */
  function Exchange<A>(m: M.Master, cmd: Callbacks<A>, app: A, before: seq<byte>): Exchanged<A>
    requires M.Sound(m) && |before| == BUFFER_SIZE
  {
    match F.Receive(F.Frame(F.Msg(m.slaveId, M.Request(m))))
    case None => Exchanged(m, app, [])
    case Some(req) =>
      if req.pdu == [] then Exchanged(m, app, [])
      else
        var served := Serve(cmd, app, req.pdu);
        match F.Receive(F.Frame(F.Msg(req.id, served.reply)))
        case None => Exchanged(m, served.app, served.calls)
        case Some(rsp) => Exchanged(M.Response(m, rsp.id, Held(before, m, rsp), |rsp.pdu|), served.app, served.calls)
  }

  /** The client's buffer after a message was copied over the request, check byte included. */
  function Held(before: seq<byte>, m: M.Master, rsp: F.Msg): seq<byte>
    requires m.quantityW <= |m.wordsW| && |before| == BUFFER_SIZE
  {
    Overlay(Overlay(before, M.Request(m)), rsp.pdu + [L.CheckByte([rsp.id] + rsp.pdu)])
  }

  /** The exchange by the lengths of its two messages: 60 bytes are the limit for each. */
  lemma ExchangeByLength<A(!new)>(m: M.Master, cmd: Callbacks<A>, app: A, before: seq<byte>)
    requires M.Sound(m) && m.cmd != 0 && |before| == BUFFER_SIZE && Contract(cmd)
    ensures M.Request(m) != []
    ensures var served := Serve(cmd, app, M.Request(m));
            var held := Held(before, m, F.Msg(m.slaveId, served.reply));
            Exchange(m, cmd, app, before) ==
              if |M.Request(m)| > 60 then Exchanged(m, app, [])
              else if |served.reply| > 60 then Exchanged(m, served.app, served.calls)
              else Exchanged(M.Response(m, m.slaveId, held, |served.reply|), served.app, served.calls)
  {
    hide Serve, F.Frame, F.Receive, M.Response, Held;
    var served := Serve(cmd, app, M.Request(m));
    ReplyShape(cmd, app, M.Request(m), m.slaveId);
    F.RoundTripIff(F.Msg(m.slaveId, M.Request(m)));
    F.RoundTripIff(F.Msg(m.slaveId, served.reply));
  }

  lemma HeldStarts(before: seq<byte>, m: M.Master, rsp: F.Msg)
    requires M.Sound(m) && |before| == BUFFER_SIZE && |rsp.pdu| <= 60
    ensures |Held(before, m, rsp)| == BUFFER_SIZE && rsp.pdu <= Held(before, m, rsp)
  {
  }

  // What the requests say.

  lemma ReadRequest(m: M.Master)
    requires m.quantityW <= |m.wordsW| && m.cmd in {READ_HOLDING_REGISTERS, READ_INPUT_REGISTERS}
    ensures var pdu := M.Request(m);
            |pdu| == 5 && pdu[0] == m.cmd && WordAt(pdu, 1) == m.startR && WordAt(pdu, 3) == m.quantityR
  {
    ReadWriteInt(m.startR);
    ReadWriteInt(m.quantityR);
  }

  lemma WriteRequest(m: M.Master)
    requires M.Sound(m) && m.cmd == WRITE_MULTIPLE_REGISTERS
    ensures var pdu := M.Request(m);
            && |pdu| == 6 + 2 * m.quantityW && pdu[0] == m.cmd && WordAt(pdu, 1) == m.startW
               && WordAt(pdu, 3) == m.quantityW
            && pdu[5] == 2 * m.quantityW && pdu[6..] == Unwords(m.wordsW[..m.quantityW])
  {
    hide Unwords, WriteInt, WordAt, ReadInt;
    ReadWriteInt(m.startW);
    ReadWriteInt(m.quantityW);
    SixBytesBefore(m.cmd, WriteInt(m.startW), WriteInt(m.quantityW), ToUint8(2 * m.quantityW),
                   Unwords(m.wordsW[..m.quantityW]));
  }

  lemma SixBytesBefore(code: byte, a: seq<byte>, b: seq<byte>, n: byte, data: seq<byte>)
    requires |a| == |b| == 2
    ensures var pdu := [code] + a + b + [n] + data;
            && |pdu| == 6 + |data| && pdu[0] == code && pdu[5] == n && pdu[6..] == data
            && WordAt(pdu, 1) == ReadInt(a[0], a[1]) && WordAt(pdu, 3) == ReadInt(b[0], b[1])
  {
    hide ReadInt;
    assert [code] + a + b + [n] == [code, a[0], a[1], b[0], b[1], n];
    Behind([code] + a + b + [n], data);
  }

  lemma ReadWriteRequest(m: M.Master)
    requires M.Sound(m) && m.cmd == READ_WRITE_MULTIPLE_REGISTERS
    ensures var pdu := M.Request(m);
            && |pdu| == 10 + 2 * m.quantityW && pdu[0] == m.cmd && WordAt(pdu, 1) == m.startR
               && WordAt(pdu, 3) == m.quantityR
            && WordAt(pdu, 5) == m.startW && WordAt(pdu, 7) == m.quantityW
            && pdu[9] == 2 * m.quantityW && pdu[10..] == Unwords(m.wordsW[..m.quantityW])
  {
    hide Unwords, WriteInt, WordAt, ReadInt;
    ReadWriteInt(m.startR);
    ReadWriteInt(m.quantityR);
    ReadWriteInt(m.startW);
    ReadWriteInt(m.quantityW);
    TenBytesBefore(m.cmd, WriteInt(m.startR), WriteInt(m.quantityR), WriteInt(m.startW), WriteInt(m.quantityW),
        ToUint8(2 * m.quantityW),
                   Unwords(m.wordsW[..m.quantityW]));
  }

  lemma TenBytesBefore(code: byte, a: seq<byte>, b: seq<byte>, c: seq<byte>, d: seq<byte>, n: byte, data: seq<byte>)
    requires |a| == |b| == |c| == |d| == 2
    ensures var pdu := [code] + a + b + c + d + [n] + data;
            && |pdu| == 10 + |data| && pdu[0] == code && pdu[9] == n && pdu[10..] == data
            && WordAt(pdu, 1) == ReadInt(a[0], a[1]) && WordAt(pdu, 3) == ReadInt(b[0], b[1])
            && WordAt(pdu, 5) == ReadInt(c[0], c[1]) && WordAt(pdu, 7) == ReadInt(d[0], d[1])
  {
    hide ReadInt;
    TenBytes(code, a, b, c, d, n);
    Behind([code] + a + b + c + d + [n], data);
  }

  lemma TenBytes(code: byte, a: seq<byte>, b: seq<byte>, c: seq<byte>, d: seq<byte>, n: byte)
    requires |a| == |b| == |c| == |d| == 2
    ensures [code] + a + b + c + d + [n] == [code, a[0], a[1], b[0], b[1], c[0], c[1], d[0], d[1], n]
  {
  }

  lemma Behind(head: seq<byte>, data: seq<byte>)
    ensures (head + data)[|head|..] == data
    ensures forall k :: 0 <= k < |head| ==> (head + data)[k] == head[k]
  {
  }

  lemma SingleRequest(m: M.Master)
    requires m.quantityW <= |m.wordsW| && m.cmd in {WRITE_SINGLE_COIL, WRITE_SINGLE_REGISTER}
    ensures var pdu := M.Request(m);
            && |pdu| == 5 && pdu[0] == m.cmd && WordAt(pdu, 1) == m.startW && WordAt(pdu, 3) == ToUint16(m.dataW)
            && pdu[3..5] == WriteInt(m.dataW) && pdu[3] == WriteInt(m.dataW)[0] && pdu[4] == WriteInt(m.dataW)[1]
  {
    ReadWriteInt(m.startW);
    ReadWriteInt(m.dataW);
  }

  /** The values the master writes to a coil. */
  predicate CoilValue(m: M.Master) {
    m.cmd == WRITE_SINGLE_COIL ==> m.dataW == 0 || m.dataW == ToInt16(0xFF00)
  }

  /** Every command with quantities in range is well formed for the slave. */
  lemma RequestWellFormed(m: M.Master)
    requires M.Sound(m) && M.Known(m.cmd) && CoilValue(m)
    requires M.IsRead(m.cmd) ==> 1 <= m.quantityR <= 125
    requires m.cmd == WRITE_MULTIPLE_REGISTERS ==> 1 <= m.quantityW <= 123
    requires m.cmd == READ_WRITE_MULTIPLE_REGISTERS ==> 1 <= m.quantityW <= 121
    ensures M.Request(m) != [] && M.Request(m)[0] == m.cmd && WellFormed(M.Request(m))
  {
    hide M.Request;
    if m.cmd == WRITE_MULTIPLE_REGISTERS {
      WriteRequest(m);
    } else if m.cmd == READ_WRITE_MULTIPLE_REGISTERS {
      ReadWriteRequest(m);
    } else if M.IsRead(m.cmd) {
      ReadRequest(m);
    } else {
      SingleRequest(m);
      if m.cmd == WRITE_SINGLE_COIL {
        CoilBytes(m.dataW);
      }
    }
  }

  /** The bytes of a coil's value. */
  lemma CoilBytes(value: short)
    requires value == 0 || value == ToInt16(0xFF00)
    ensures WriteInt(value) == [if value == 0 then 0x00 else 0xFF, 0x00]
  {
  }

  // What the responses do.

  /** The caller's memory after `quantity` values were stored. */
  function Stored(wordsR: seq<short>, values: seq<word>): seq<short>
    requires |values| <= |wordsR|
  {
    seq(|values|, i requires 0 <= i < |values| => ToInt16(values[i])) + wordsR[|values|..]
  }

  /** Read as unsigned words, the first values of the caller's memory are `regs`, and the rest is as before. */
  ghost predicate CallerHas(before: seq<short>, after: seq<short>, regs: seq<word>) {
    && |regs| <= |before| == |after|
    && (forall i :: 0 <= i < |regs| ==> ToUint16(after[i]) == regs[i])
    && forall i :: |regs| <= i < |before| ==> after[i] == before[i]
  }

  lemma StoredForCaller(wordsR: seq<short>, values: seq<word>)
    requires |values| <= |wordsR|
    ensures CallerHas(wordsR, Stored(wordsR, values), values)
  {
    hide ToInt16, ToUint16;
    forall i | 0 <= i < |values|
      ensures ToUint16(Stored(wordsR, values)[i]) == values[i]
    {
      SignedOfWord(values[i]);
    }
  }

  /** A reply to a read that spells `values` ends the command and stores them. */
  lemma ReadResponse(m: M.Master, values: seq<word>, held: seq<byte>)
    requires M.Sound(m) && M.IsRead(m.cmd) && |values| == m.quantityR <= 125 && |held| == BUFFER_SIZE
    requires [m.cmd, ToUint8(2 * m.quantityR)] + Unwords(values) <= held
    ensures M.Response(m, m.slaveId, held, 2 + 2 * m.quantityR) ==
            M.Complete(m.(exc := E_NO_ERROR, wordsR := Stored(m.wordsR, values)))
    ensures CallerHas(m.wordsR, M.Response(m, m.slaveId, held, 2 + 2 * m.quantityR).wordsR, values)
  {
    hide Unwords, WordAt, ToInt16, CallerHas;
    StoredForCaller(m.wordsR, values);
    assert held[0] == m.cmd && held[1] == 2 * m.quantityR;
    forall i | 0 <= i < m.quantityR
      ensures WordAt(held, 2 + 2 * i) == values[i]
    {
      WordHeld([m.cmd, ToUint8(2 * m.quantityR)], values, held, i);
    }
    assert M.Received(held, m.quantityR) + m.wordsR[m.quantityR..] == Stored(m.wordsR, values);
  }

  lemma WriteResponse(m: M.Master, held: seq<byte>)
    requires M.Sound(m) && m.cmd == WRITE_MULTIPLE_REGISTERS && |held| == BUFFER_SIZE
    requires M.Request(m)[..5] <= held
    ensures M.Response(m, m.slaveId, held, 5) == M.Complete(m.(exc := E_NO_ERROR))
  {
    var request := M.Request(m);
    WriteRequest(m);
    assert forall k :: 0 <= k < 5 ==> held[k] == request[..5][k] == request[k];
  }

  lemma SingleResponse(m: M.Master, held: seq<byte>)
    requires M.Sound(m) && m.cmd in {WRITE_SINGLE_COIL, WRITE_SINGLE_REGISTER} && |held| == BUFFER_SIZE
    requires M.Request(m) <= held
    ensures M.Response(m, m.slaveId, held, 5) == M.Complete(m.(exc := E_NO_ERROR))
  {
    hide M.Request;
    var request := M.Request(m);
    SingleRequest(m);
    assert forall k :: 0 <= k < 5 ==> held[k] == request[k];
  }

  // The exchanges of a master with a slave that keeps a bank of registers.

  /** `regs` with the values of the command in place. */
  ghost predicate WrittenBy(m: M.Master, regs: Bank, regs': Bank)
    requires m.quantityW <= |m.wordsW|
  {
    && |regs'| == |regs|
    && forall a :: 0 <= a < |regs| ==>
         regs'[a] == if m.startW <= a < m.startW + m.quantityW then ToUint16(m.wordsW[a - m.startW]) else regs[a]
  }

  lemma WrittenByRequest(m: M.Master, regs: Bank)
    requires M.Sound(m) && m.startW + m.quantityW <= |regs|
    ensures |Unwords(m.wordsW[..m.quantityW])| == 2 * m.quantityW
    ensures |Written(regs, m.startW, Unwords(m.wordsW[..m.quantityW]))| == |regs|
    ensures WrittenBy(m, regs, Written(regs, m.startW, Unwords(m.wordsW[..m.quantityW])))
  {
    hide Words, Unwords, ToUint16;
    WordsOfUnwords(m.wordsW[..m.quantityW]);
  }

  lemma ServeReadOfBank(regs: Bank, pdu: seq<byte>)
    requires |pdu| == 5 && pdu[0] in {READ_HOLDING_REGISTERS, READ_INPUT_REGISTERS} && 1 <= WordAt(pdu, 3) <= 125
    requires WordAt(pdu, 1) + WordAt(pdu, 3) <= |regs|
    ensures var s, start, quantity := Serve(BANK, regs, pdu), WordAt(pdu, 1), WordAt(pdu, 3);
            s.app == regs && s.reply == [pdu[0], ToUint8(2 * quantity)] + Unwords(regs[start..start + quantity])
  {
  }

  lemma ServeWriteOfBank(regs: Bank, pdu: seq<byte>)
    requires pdu != [] && pdu[0] == WRITE_MULTIPLE_REGISTERS && WellFormed(pdu)
             && WordAt(pdu, 1) + WordAt(pdu, 3) <= |regs|
    ensures var s := Serve(BANK, regs, pdu); s.app == Written(regs, WordAt(pdu, 1), pdu[6..]) && s.reply == pdu[..5]
  {
  }

  /** MAIN: a read of 1 to 125 registers gives the caller the slave's registers, completed without
      error, exactly up to 29 registers; beyond, the reply is never reported and nothing happens. */
  lemma ReadEndToEnd(m: M.Master, regs: Bank, before: seq<byte>)
    requires M.Sound(m) && m.cmd in {READ_HOLDING_REGISTERS, READ_INPUT_REGISTERS} && |before| == BUFFER_SIZE
    requires 1 <= m.quantityR <= 125 && m.startR + m.quantityR <= |regs|
    ensures var x := Exchange(m, BANK, regs, before);
            && x.app == regs
            && (m.quantityR <= 29 ==>
                  CallerHas(m.wordsR, x.master.wordsR, regs[m.startR..m.startR + m.quantityR]))
            && x.master == if m.quantityR <= 29 then
                             M.Complete(m.(exc := E_NO_ERROR,
                                 wordsR := Stored(m.wordsR, regs[m.startR..m.startR + m.quantityR])))
                           else m
  {
    hide M.Request, M.Response, Serve, Exchange, Held, Stored, CallerHas;
    BankMeetsContract();
    ExchangeByLength(m, BANK, regs, before);
    ReadRequest(m);
    ServeReadOfBank(regs, M.Request(m));
    var values := regs[m.startR..m.startR + m.quantityR];
    var reply := [m.cmd, ToUint8(2 * m.quantityR)] + Unwords(values);
    assert |reply| == 2 + 2 * m.quantityR;
    if m.quantityR <= 29 {
      HeldStarts(before, m, F.Msg(m.slaveId, reply));
      ReadResponse(m, values, Held(before, m, F.Msg(m.slaveId, reply)));
    }
  }

  /** MAIN: a write of one register or more changes the slave's registers to the caller's values, and
      nothing else, and completes without error, exactly up to 27 registers; beyond, the request is
      never reported and nothing happens. */
  lemma WriteEndToEnd(m: M.Master, regs: Bank, before: seq<byte>)
    requires M.Sound(m) && m.cmd == WRITE_MULTIPLE_REGISTERS && |before| == BUFFER_SIZE
    requires 1 <= m.quantityW && m.startW + m.quantityW <= |regs|
    ensures var x := Exchange(m, BANK, regs, before);
            if m.quantityW <= 27 then WrittenBy(m, regs, x.app) && x.master == M.Complete(m.(exc := E_NO_ERROR))
            else x == Exchanged(m, regs, [])
  {
    hide M.Request, M.Response, Serve, Exchange, Held, WrittenBy;
    BankMeetsContract();
    ExchangeByLength(m, BANK, regs, before);
    WriteRequest(m);
    WrittenByRequest(m, regs);
    if m.quantityW <= 27 {
      RequestWellFormed(m);
      ServeWriteOfBank(regs, M.Request(m));
      HeldStarts(before, m, F.Msg(m.slaveId, M.Request(m)[..5]));
      WriteResponse(m, Held(before, m, F.Msg(m.slaveId, M.Request(m)[..5])));
    }
  }

  /** The callbacks of a read-write: the write, then the read. */
  function ReadWriteCalls(m: M.Master): seq<Call>
    requires m.quantityW <= |m.wordsW|
  {
    [Write(m.cmd, m.startW, m.quantityW, Unwords(m.wordsW[..m.quantityW])), Read(m.cmd, m.startR, m.quantityR)]
  }

  /** MAIN: a read-write writes the slave's registers exactly up to 25 registers written, and then
      completes with the registers as they are after that write exactly up to 29 registers read. With
      more to read the write is done and the master never told. */
  lemma ReadWriteEndToEnd(m: M.Master, regs: Bank, before: seq<byte>)
    requires M.Sound(m) && m.cmd == READ_WRITE_MULTIPLE_REGISTERS && |before| == BUFFER_SIZE
    requires 1 <= m.quantityR <= 125 && m.startR + m.quantityR <= |regs|
    requires 1 <= m.quantityW && m.startW + m.quantityW <= |regs|
    ensures var x := Exchange(m, BANK, regs, before);
            if m.quantityW > 25 then x == Exchanged(m, regs, [])
            else
              && WrittenBy(m, regs, x.app) && x.calls == ReadWriteCalls(m)
              && (m.quantityR <= 29 ==>
                    CallerHas(m.wordsR, x.master.wordsR, x.app[m.startR..m.startR + m.quantityR]))
              && x.master == if m.quantityR <= 29 then
                               M.Complete(m.(exc := E_NO_ERROR,
                                   wordsR := Stored(m.wordsR, x.app[m.startR..m.startR + m.quantityR])))
                             else m
  {
    hide M.Request, M.Response, Serve, Exchange, Held, Stored, WrittenBy, Written, CallerHas;
    BankMeetsContract();
    ExchangeByLength(m, BANK, regs, before);
    ReadWriteRequest(m);
    WrittenByRequest(m, regs);
    if m.quantityW <= 25 {
      RequestWellFormed(m);
      ReadWriteOutcome(regs, M.Request(m));
    }
    var regs' := Written(regs, m.startW, Unwords(m.wordsW[..m.quantityW]));
    var values := regs'[m.startR..m.startR + m.quantityR];
    var reply := [m.cmd, ToUint8(2 * m.quantityR)] + Unwords(values);
    if m.quantityW <= 25 && m.quantityR <= 29 {
      HeldStarts(before, m, F.Msg(m.slaveId, reply));
      ReadResponse(m, values, Held(before, m, F.Msg(m.slaveId, reply)));
    }
  }

  /** An exception reply reaches the master as the exception code of a command still pending, with the
      caller's memory as it was. */
  lemma ExceptionEndToEnd<A(!new)>(m: M.Master, cmd: Callbacks<A>, app: A, before: seq<byte>)
    requires M.Sound(m) && m.cmd != 0 && |before| == BUFFER_SIZE && Contract(cmd) && |M.Request(m)| <= 60
    requires M.Request(m) != [] && M.Request(m)[0] == m.cmd
    requires |Serve(cmd, app, M.Request(m)).reply| == 2
    ensures var x, served := Exchange(m, cmd, app, before), Serve(cmd, app, M.Request(m));
            served.reply[1] != E_NO_ERROR && x == Exchanged(m.(exc := served.reply[1]), served.app, served.calls)
  {
    hide M.Request, Serve, Exchange, Held;
    ExchangeByLength(m, cmd, app, before);
    ReplyShape(cmd, app, M.Request(m), m.slaveId);
    var rsp := F.Msg(m.slaveId, Serve(cmd, app, M.Request(m)).reply);
    HeldStarts(before, m, rsp);
    var held := Held(before, m, rsp);
    assert held[0] == rsp.pdu[0] && held[1] == rsp.pdu[1];
  }

  /** The callback of a single write. */
  function SingleWrite<A>(cmd: Callbacks<A>, code: byte): Option<SingleWriteCallback<A>> {
    if code == WRITE_SINGLE_COIL then cmd.writeSingleCoil else cmd.writeSingleRegister
  }

  lemma ServeSingle<A>(cmd: Callbacks<A>, app: A, pdu: seq<byte>)
    requires pdu != [] && pdu[0] in {WRITE_SINGLE_COIL, WRITE_SINGLE_REGISTER} && WellFormed(pdu)
    requires SingleWrite(cmd, pdu[0]).Some?
    ensures SingleServed(SingleWrite(cmd, pdu[0]).value, app, pdu, Serve(cmd, app, pdu))
  {
    hide ServeRead, ServeWriteSingle, ServeWriteMultiple, ServeReadWrite, SingleServed;
    ServeWriteSingleValue(SingleWrite(cmd, pdu[0]), pdu[0] == WRITE_SINGLE_COIL, app, pdu);
  }

  /** What a single write leaves: the callback's state, one call, and the request as the reply if the
      callback raised no exception. */
  ghost predicate SingleServed<A>(write: SingleWriteCallback<A>, app: A, pdu: seq<byte>, s: Served<A>)
    requires |pdu| == 5
  {
    var w := write(app, WordAt(pdu, 1), pdu[3..5]);
    && s.app == w.app && s.calls == [Write(pdu[0], WordAt(pdu, 1), 1, pdu[3..5])]
    && s.reply == if w.exc == E_NO_ERROR then pdu else [ErrorCode(pdu[0]), w.exc]
  }

  lemma ServeWriteSingleValue<A>(cb: Option<SingleWriteCallback<A>>, bits: bool, app: A, pdu: seq<byte>)
    requires cb.Some? && |pdu| == 5 && (bits ==> pdu[3] in {0x00, 0xFF} && pdu[4] == 0)
    ensures SingleServed(cb.value, app, pdu, ServeWriteSingle(cb, bits, app, pdu))
  {
  }

  /** MAIN: a single write of a coil or a register, for every application: its callback runs once in the
      exchange, with the address and the value the caller gave, and the command completes without error
      exactly if it raised none; otherwise the master holds its exception code and the command is still pending. */
  lemma SingleWriteEndToEnd<A(!new)>(m: M.Master, cmd: Callbacks<A>, app: A, before: seq<byte>)
    requires M.Sound(m) && m.cmd in {WRITE_SINGLE_COIL, WRITE_SINGLE_REGISTER} && CoilValue(m)
             && |before| == BUFFER_SIZE
    requires Contract(cmd) && SingleWrite(cmd, m.cmd).Some?
    ensures var x, w := Exchange(m, cmd, app, before), SingleWrite(cmd, m.cmd).value(app, m.startW, WriteInt(m.dataW));
            && x.app == w.app && x.calls == [Write(m.cmd, m.startW, 1, WriteInt(m.dataW))]
            && x.master == if w.exc == E_NO_ERROR then M.Complete(m.(exc := E_NO_ERROR)) else m.(exc := w.exc)
  {
    hide M.Request, M.Response, Serve, Exchange, Held, WriteInt, SingleWrite, Contract;
    SingleRequest(m);
    RequestWellFormed(m);
    ServeSingle(cmd, app, M.Request(m));
    ExchangeByLength(m, cmd, app, before);
    if SingleWrite(cmd, m.cmd).value(app, m.startW, WriteInt(m.dataW)).exc == E_NO_ERROR {
      HeldStarts(before, m, F.Msg(m.slaveId, M.Request(m)));
      SingleResponse(m, Held(before, m, F.Msg(m.slaveId, M.Request(m))));
    } else {
      ExceptionEndToEnd(m, cmd, app, before);
    }
  }

  /** ... so over a bank the one register has the caller's value, or the command has exception 2. */
  lemma RegisterWriteEndToEnd(m: M.Master, regs: Bank, before: seq<byte>)
    requires M.Sound(m) && m.cmd == WRITE_SINGLE_REGISTER && |before| == BUFFER_SIZE
    ensures var x := Exchange(m, BANK, regs, before);
            if m.startW < |regs| then
              x.app == regs[m.startW := ToUint16(m.dataW)] && x.master == M.Complete(m.(exc := E_NO_ERROR))
            else
              x.app == regs && x.master == m.(exc := 2)
  {
    hide M.Response, M.Complete, Exchange, WriteInt;
    BankMeetsContract();
    SingleWriteEndToEnd(m, BANK, regs, before);
    ReadWriteInt(m.dataW);
    assert m.startW < |regs| ==> Words(WriteInt(m.dataW)) == [ToUint16(m.dataW)];
  }
}
