/** What every answer of the slave satisfies, for every application that meets the callback contract. */
module SlaveProperties {
  import opened Bytes
  import opened Modbus
  import opened Slave
  import F = AsciiFrame
  import L = AsciiLink

  /** The callbacks a function code needs. */
  predicate Supported<A>(cmd: Callbacks<A>, code: byte) {
    match code
    case 0x01 => cmd.readCoils.Some?
    case 0x02 => cmd.readDiscreteInputs.Some?
    case 0x03 => cmd.readHoldingReg.Some?
    case 0x04 => cmd.readInputReg.Some?
    case 0x05 => cmd.writeSingleCoil.Some?
    case 0x06 => cmd.writeSingleRegister.Some?
    case 0x0F => cmd.writeMultipleCoils.Some?
    case 0x10 => cmd.writeMultipleReg.Some?
    case 0x17 => cmd.readHoldingReg.Some? && cmd.writeMultipleReg.Some?
    case _ => false
  }

  /** The form of a request (MODBUS Application Protocol V1.1b3, sections 6.1 to 6.17): quantities in
      range and a length that is exactly the one they call for. */
  predicate WellFormed(pdu: seq<byte>)
    requires pdu != []
  {
    match pdu[0]
    case 0x01 => |pdu| == 5 && 1 <= WordAt(pdu, 3) <= 2000
    case 0x02 => |pdu| == 5 && 1 <= WordAt(pdu, 3) <= 2000
    case 0x03 => |pdu| == 5 && 1 <= WordAt(pdu, 3) <= 125
    case 0x04 => |pdu| == 5 && 1 <= WordAt(pdu, 3) <= 125
    case 0x05 => |pdu| == 5 && pdu[3] in {0x00, 0xFF} && pdu[4] == 0
    case 0x06 => |pdu| == 5
    case 0x0F => |pdu| >= 6 && 1 <= WordAt(pdu, 3) <= 1968 && pdu[5] == BitBytes(WordAt(pdu, 3)) == |pdu| - 6
    case 0x10 => |pdu| >= 6 && 1 <= WordAt(pdu, 3) <= 123 && pdu[5] == 2 * WordAt(pdu, 3) == |pdu| - 6
    case 0x17 => |pdu| >= 10 && 1 <= WordAt(pdu, 3) <= 125 && 1 <= WordAt(pdu, 7) <= 121
                 && pdu[9] == 2 * WordAt(pdu, 7) == |pdu| - 10
    case _ => false
  }

  /** A request that ran a callback if it was due, and was refused without a trace otherwise. */
  ghost predicate RanIff<A>(due: bool, supported: bool, code: byte, app: A, s: Served<A>) {
    if due then s.calls != []
    else s == Served([ErrorCode(code), if supported then E_WRONG_REG_QTY else E_FNC_NOT_SUPPORTED], app, [])
  }

  lemma ReadRunsIff<A>(cb: Option<ReadCallback<A>>, bits: bool, max: nat, app: A, pdu: seq<byte>)
    requires pdu != []
    ensures RanIff(cb.Some? && |pdu| == 5 && 1 <= WordAt(pdu, 3) <= max,
                   cb.Some?, pdu[0], app, ServeRead(cb, bits, max, app, pdu))
  {
  }

  lemma SingleRunsIff<A>(cb: Option<SingleWriteCallback<A>>, bits: bool, app: A, pdu: seq<byte>)
    requires pdu != []
    ensures RanIff(cb.Some? && |pdu| == 5 && (bits ==> pdu[3] in {0x00, 0xFF} && pdu[4] == 0),
                   cb.Some?, pdu[0], app, ServeWriteSingle(cb, bits, app, pdu))
  {
  }

  lemma MultipleRunsIff<A>(cb: Option<MultipleWriteCallback<A>>, bits: bool, max: nat, app: A, pdu: seq<byte>)
    requires pdu != []
    ensures RanIff(cb.Some? && |pdu| >= 6 && 1 <= WordAt(pdu, 3) <= max
                   && pdu[5] == DataBytes(bits, WordAt(pdu, 3)) == |pdu| - 6,
                   cb.Some?, pdu[0], app, ServeWriteMultiple(cb, bits, max, app, pdu))
  {
  }

  lemma ReadWriteRunsIff<A>(cmd: Callbacks<A>, app: A, pdu: seq<byte>)
    requires pdu != []
    ensures RanIff(cmd.readHoldingReg.Some? && cmd.writeMultipleReg.Some?
                   && |pdu| >= 10 && 1 <= WordAt(pdu, 3) <= MAX_READ_REGS && 1 <= WordAt(pdu, 7) <= MAX_READ_WRITE_REGS
                   && pdu[9] == 2 * WordAt(pdu, 7) == |pdu| - 10,
                   cmd.readHoldingReg.Some? && cmd.writeMultipleReg.Some?, pdu[0], app, ServeReadWrite(cmd, app, pdu))
  {
  }

  /** MAIN: a callback runs exactly for supported, well-formed requests. Every other request leaves the
      application alone and is answered with exception 1 (unsupported) or 3 (malformed). */
  lemma CallbackRunsIff<A>(cmd: Callbacks<A>, app: A, pdu: seq<byte>)
    requires pdu != []
    ensures var s := Serve(cmd, app, pdu);
            if Supported(cmd, pdu[0]) && WellFormed(pdu) then s.calls != []
            else s.calls == [] && s.app == app &&
                 s.reply == [ErrorCode(pdu[0]), if Supported(cmd, pdu[0]) then 3 else 1]
  {
    hide ServeRead, ServeWriteSingle, ServeWriteMultiple, ServeReadWrite;
    match pdu[0]
    case 0x01 => ReadRunsIff(cmd.readCoils, true, MAX_READ_BITS, app, pdu);
    case 0x02 => ReadRunsIff(cmd.readDiscreteInputs, true, MAX_READ_BITS, app, pdu);
    case 0x03 => ReadRunsIff(cmd.readHoldingReg, false, MAX_READ_REGS, app, pdu);
    case 0x04 => ReadRunsIff(cmd.readInputReg, false, MAX_READ_REGS, app, pdu);
    case 0x05 => SingleRunsIff(cmd.writeSingleCoil, true, app, pdu);
    case 0x06 => SingleRunsIff(cmd.writeSingleRegister, false, app, pdu);
    case 0x0F => MultipleRunsIff(cmd.writeMultipleCoils, true, MAX_WRITE_BITS, app, pdu);
    case 0x10 => MultipleRunsIff(cmd.writeMultipleReg, false, MAX_WRITE_REGS, app, pdu);
    case 0x17 => ReadWriteRunsIff(cmd, app, pdu);
    case _ =>
  }

  /** The arguments of a call spelled the way a request carries them. */
  function Spelled(call: Call): seq<byte> {
    match call
    case Read(_, start, quantity) => WriteInt(start) + WriteInt(quantity)
    case Write(code, start, quantity, data) =>
      if code == WRITE_SINGLE_COIL || code == WRITE_SINGLE_REGISTER then WriteInt(start) + data
      else WriteInt(start) + WriteInt(quantity) + [ToUint8(|data|)] + data
  }

  lemma WordSpelled(pdu: seq<byte>, i: nat)
    requires i + 1 < |pdu|
    ensures WriteInt(WordAt(pdu, i)) == pdu[i..i + 2]
  {
    WriteReadInt(pdu[i], pdu[i + 1]);
  }

  lemma ReadSpelled(pdu: seq<byte>)
    requires |pdu| == 5
    ensures WriteInt(WordAt(pdu, 1)) + WriteInt(WordAt(pdu, 3)) == pdu[1..]
  {
    WordSpelled(pdu, 1);
    WordSpelled(pdu, 3);
  }

  lemma MultipleWriteSpelled(pdu: seq<byte>, at: nat)
    requires at + 5 <= |pdu| <= at + 255 && pdu[at + 4] == |pdu| - (at + 5)
    ensures WriteInt(WordAt(pdu, at)) + WriteInt(WordAt(pdu, at + 2)) + [ToUint8(|pdu[at + 5..]|)]
            + pdu[at + 5..] == pdu[at..]
  {
    hide WriteInt, WordAt;
    WordSpelled(pdu, at);
    WordSpelled(pdu, at + 2);
    assert pdu[at..] == pdu[at..at + 2] + pdu[at + 2..at + 4] + [pdu[at + 4]] + pdu[at + 5..];
  }

  lemma ReadCallSpelled<A>(cb: Option<ReadCallback<A>>, bits: bool, max: nat, app: A, pdu: seq<byte>)
    requires cb.Some? && |pdu| == 5 && 1 <= WordAt(pdu, 3) <= max
    ensures var calls := ServeRead(cb, bits, max, app, pdu).calls;
            |calls| == 1 && calls[0].code == pdu[0] && Spelled(calls[0]) == pdu[1..]
  {
    ReadSpelled(pdu);
  }

  lemma SingleCallSpelled<A>(cb: Option<SingleWriteCallback<A>>, bits: bool, app: A, pdu: seq<byte>)
    requires cb.Some? && |pdu| == 5 && SingleValueOk(bits, WordAt(pdu, 3))
             && pdu[0] in {WRITE_SINGLE_COIL, WRITE_SINGLE_REGISTER}
    ensures var calls := ServeWriteSingle(cb, bits, app, pdu).calls;
            |calls| == 1 && calls[0].code == pdu[0] && Spelled(calls[0]) == pdu[1..]
  {
    hide WriteInt;
    WordSpelled(pdu, 1);
    assert pdu[1..] == pdu[1..3] + pdu[3..5];
  }

  lemma MultipleCallSpelled<A>(cb: Option<MultipleWriteCallback<A>>, bits: bool, max: nat, app: A, pdu: seq<byte>)
    requires cb.Some? && 6 <= |pdu| <= 256 && 1 <= WordAt(pdu, 3) <= max
             && pdu[5] == DataBytes(bits, WordAt(pdu, 3)) == |pdu| - 6
    requires pdu[0] !in {WRITE_SINGLE_COIL, WRITE_SINGLE_REGISTER}
    ensures var calls := ServeWriteMultiple(cb, bits, max, app, pdu).calls;
            |calls| == 1 && calls[0].code == pdu[0] && Spelled(calls[0]) == pdu[1..]
  {
    hide WriteInt;
    MultipleWriteSpelled(pdu, 1);
  }

  lemma ReadWriteCallsSpelled<A>(cmd: Callbacks<A>, app: A, pdu: seq<byte>)
    requires pdu != [] && Supported(cmd, pdu[0]) && WellFormed(pdu) && pdu[0] == READ_WRITE_MULTIPLE_REGISTERS
    ensures var calls := ServeReadWrite(cmd, app, pdu).calls;
            && 1 <= |calls| <= 2 && calls[0].Write? && calls[0].code == pdu[0] && Spelled(calls[0]) == pdu[5..]
            && (|calls| == 2 ==> calls[1].Read? && calls[1].code == pdu[0] && Spelled(calls[1]) == pdu[1..5])
  {
    hide WriteInt;
    MultipleWriteSpelled(pdu, 5);
    ReadSpelled(pdu[..5]);
    assert pdu[..5][1..] == pdu[1..5];
  }

  /** MAIN: the callbacks get exactly what the request says: the calls spell the request back. Function
      0x17 writes first and reads after a write without an exception (`ReadAfterWriteIff`). */
  lemma CallsSpellRequest<A>(cmd: Callbacks<A>, app: A, pdu: seq<byte>)
    requires pdu != [] && Supported(cmd, pdu[0]) && WellFormed(pdu)
    ensures var calls := Serve(cmd, app, pdu).calls;
            && (forall i :: 0 <= i < |calls| ==> calls[i].code == pdu[0])
            && if pdu[0] == READ_WRITE_MULTIPLE_REGISTERS then
                 && 1 <= |calls| <= 2 && calls[0].Write? && Spelled(calls[0]) == pdu[5..]
                 && (|calls| == 2 ==> calls[1].Read? && Spelled(calls[1]) == pdu[1..5])
               else |calls| == 1 && Spelled(calls[0]) == pdu[1..]
  {
    hide ServeRead, ServeWriteSingle, ServeWriteMultiple, ServeReadWrite, Spelled;
    match pdu[0]
    case 0x01 => ReadCallSpelled(cmd.readCoils, true, MAX_READ_BITS, app, pdu);
    case 0x02 => ReadCallSpelled(cmd.readDiscreteInputs, true, MAX_READ_BITS, app, pdu);
    case 0x03 => ReadCallSpelled(cmd.readHoldingReg, false, MAX_READ_REGS, app, pdu);
    case 0x04 => ReadCallSpelled(cmd.readInputReg, false, MAX_READ_REGS, app, pdu);
    case 0x05 => SingleCallSpelled(cmd.writeSingleCoil, true, app, pdu);
    case 0x06 => SingleCallSpelled(cmd.writeSingleRegister, false, app, pdu);
    case 0x0F => MultipleCallSpelled(cmd.writeMultipleCoils, true, MAX_WRITE_BITS, app, pdu);
    case 0x10 => MultipleCallSpelled(cmd.writeMultipleReg, false, MAX_WRITE_REGS, app, pdu);
    case 0x17 => ReadWriteCallsSpelled(cmd, app, pdu);
  }

  /** MAIN: function 0x17 reads exactly if its write raised no exception; a failed write leaves the state
      it left and is answered with its exception. */
  lemma ReadAfterWriteIff<A>(cmd: Callbacks<A>, app: A, pdu: seq<byte>)
    requires pdu != [] && pdu[0] == READ_WRITE_MULTIPLE_REGISTERS && Supported(cmd, pdu[0]) && WellFormed(pdu)
    ensures var s := Serve(cmd, app, pdu);
            var w := cmd.writeMultipleReg.value(app, WordAt(pdu, 5), WordAt(pdu, 7), pdu[10..]);
            && (|s.calls| == 2 <==> w.exc == E_NO_ERROR)
            && (w.exc != E_NO_ERROR ==> |s.calls| == 1 && s.app == w.app && s.reply == [ErrorCode(pdu[0]), w.exc])
            && (w.exc == E_NO_ERROR ==>
                  s.app == cmd.readHoldingReg.value(w.app, WordAt(pdu, 1), WordAt(pdu, 3)).app)
  {
  }

  // What the callbacks return, and what the reply makes of it.

  /** The 16-bit field at `i`, high byte first. */
  function Field(pdu: seq<byte>, i: nat): word
    requires i + 1 < |pdu|
  {
    256 * (pdu[i] as int) + pdu[i + 1]
  }

  /** State and reply of a read: the callback's, with its data behind their length, or its exception. */
  ghost predicate ReadAnswered<A>(cb: Option<ReadCallback<A>>, app: A, code: byte, start: word, quantity: word, app': A,
      reply: seq<byte>)
    requires code < 0x80
  {
    && cb.Some?
    && var r := cb.value(app, start, quantity);
       && app' == r.app
       && if r.exc != 0 then reply == [code + 0x80, r.exc]
          else |reply| >= 2 && reply[0] == code && reply[1] == |r.data| && reply[2..] == r.data
  }

  /** State and reply of a write: the callback's, and the first five bytes of the request, or its exception. */
  ghost predicate WriteAnswered<A>(w: WriteResult<A>, pdu: seq<byte>, app': A, reply: seq<byte>)
    requires |pdu| >= 5 && pdu[0] < 0x80
  {
    app' == w.app && reply == if w.exc != 0 then [pdu[0] + 0x80, w.exc] else pdu[..5]
  }

  lemma ReadIsAnswered<A(!new)>(cb: Option<ReadCallback<A>>, bits: bool, max: nat, app: A, pdu: seq<byte>)
    requires |pdu| == 5 && pdu[0] < 0x80 && 1 <= Field(pdu, 3) <= max && cb.Some?
    requires ReadsAsAsked(cb, bits, max) && DataBytes(bits, max) <= 250
    ensures var s := ServeRead(cb, bits, max, app, pdu);
            ReadAnswered(cb, app, pdu[0], Field(pdu, 1), Field(pdu, 3), s.app, s.reply)
  {
    DataBytesMonotone(bits, Field(pdu, 3), max);
  }

  lemma MultipleIsAnswered<A>(cb: Option<MultipleWriteCallback<A>>, bits: bool, max: nat, app: A, pdu: seq<byte>)
    requires |pdu| >= 6 && pdu[0] < 0x80 && 1 <= Field(pdu, 3) <= max && cb.Some?
    requires pdu[5] == DataBytes(bits, Field(pdu, 3)) == |pdu| - 6
    ensures var s := ServeWriteMultiple(cb, bits, max, app, pdu);
            WriteAnswered(cb.value(app, Field(pdu, 1), Field(pdu, 3), pdu[6..]), pdu, s.app, s.reply)
  {
  }

  lemma SingleIsAnswered<A>(cb: Option<SingleWriteCallback<A>>, bits: bool, app: A, pdu: seq<byte>)
    requires |pdu| == 5 && pdu[0] < 0x80 && (bits ==> pdu[3] in {0x00, 0xFF} && pdu[4] == 0) && cb.Some?
    ensures var s := ServeWriteSingle(cb, bits, app, pdu);
            WriteAnswered(cb.value(app, Field(pdu, 1), pdu[3..5]), pdu, s.app, s.reply)
  {
    assert pdu[..5] == pdu;
  }

  /** State and reply of function 0x17: of its read, in the state its write left, or of its failed write. */
  ghost predicate ReadWriteAnswered<A>(cmd: Callbacks<A>, app: A, pdu: seq<byte>, app': A, reply: seq<byte>)
    requires |pdu| >= 10 && pdu[0] < 0x80
  {
    && cmd.writeMultipleReg.Some?
    && var w := cmd.writeMultipleReg.value(app, Field(pdu, 5), Field(pdu, 7), pdu[10..]);
       if w.exc != 0 then WriteAnswered(w, pdu, app', reply)
       else ReadAnswered(cmd.readHoldingReg, w.app, pdu[0], Field(pdu, 1), Field(pdu, 3), app', reply)
  }

  lemma ReadWriteIsAnswered<A(!new)>(cmd: Callbacks<A>, app: A, pdu: seq<byte>)
    requires pdu != [] && pdu[0] == 0x17 && Supported(cmd, pdu[0]) && WellFormed(pdu) && Contract(cmd)
    ensures var s := ServeReadWrite(cmd, app, pdu); ReadWriteAnswered(cmd, app, pdu, s.app, s.reply)
  {
  }

  /** MAIN: for every function code, the callback it names, run on the request's fields, decides the new state
      of the application and the reply. */
  lemma CallbackDecides<A(!new)>(cmd: Callbacks<A>, app: A, pdu: seq<byte>)
    requires pdu != [] && Supported(cmd, pdu[0]) && WellFormed(pdu) && Contract(cmd)
    ensures var s := Serve(cmd, app, pdu);
            match pdu[0]
            case 0x01 => ReadAnswered(cmd.readCoils, app, 0x01, Field(pdu, 1), Field(pdu, 3), s.app, s.reply)
            case 0x02 => ReadAnswered(cmd.readDiscreteInputs, app, 0x02, Field(pdu, 1), Field(pdu, 3), s.app, s.reply)
            case 0x03 => ReadAnswered(cmd.readHoldingReg, app, 0x03, Field(pdu, 1), Field(pdu, 3), s.app, s.reply)
            case 0x04 => ReadAnswered(cmd.readInputReg, app, 0x04, Field(pdu, 1), Field(pdu, 3), s.app, s.reply)
            case 0x05 => WriteAnswered(cmd.writeSingleCoil.value(app, Field(pdu, 1), pdu[3..5]), pdu, s.app, s.reply)
            case 0x06 =>
              WriteAnswered(cmd.writeSingleRegister.value(app, Field(pdu, 1), pdu[3..5]), pdu, s.app, s.reply)
            case 0x0F =>
              WriteAnswered(cmd.writeMultipleCoils.value(app, Field(pdu, 1), Field(pdu, 3), pdu[6..]), pdu, s.app,
                            s.reply)
            case 0x10 =>
              WriteAnswered(cmd.writeMultipleReg.value(app, Field(pdu, 1), Field(pdu, 3), pdu[6..]), pdu, s.app,
                            s.reply)
            case 0x17 => ReadWriteAnswered(cmd, app, pdu, s.app, s.reply)
  {
    hide ServeRead, ServeWriteSingle, ServeWriteMultiple, ServeReadWrite, ReadAnswered, WriteAnswered,
         ReadWriteAnswered, ReadsAsAsked;
    match pdu[0]
    case 0x01 => ReadIsAnswered(cmd.readCoils, true, MAX_READ_BITS, app, pdu);
    case 0x02 => ReadIsAnswered(cmd.readDiscreteInputs, true, MAX_READ_BITS, app, pdu);
    case 0x03 => ReadIsAnswered(cmd.readHoldingReg, false, MAX_READ_REGS, app, pdu);
    case 0x04 => ReadIsAnswered(cmd.readInputReg, false, MAX_READ_REGS, app, pdu);
    case 0x05 => SingleIsAnswered(cmd.writeSingleCoil, true, app, pdu);
    case 0x06 => SingleIsAnswered(cmd.writeSingleRegister, false, app, pdu);
    case 0x0F => MultipleIsAnswered(cmd.writeMultipleCoils, true, MAX_WRITE_BITS, app, pdu);
    case 0x10 => MultipleIsAnswered(cmd.writeMultipleReg, false, MAX_WRITE_REGS, app, pdu);
    case 0x17 => ReadWriteIsAnswered(cmd, app, pdu);
  }

  /** The reply of a read that met its contract. */
  lemma ReadReplyShape<A(!new)>(cb: Option<ReadCallback<A>>, bits: bool, max: nat, app: A, pdu: seq<byte>)
    requires pdu != [] && ReadsAsAsked(cb, bits, max) && DataBytes(bits, max) <= 250
    ensures Shaped(pdu[0], ServeRead(cb, bits, max, app, pdu).reply)
  {
    if cb.Some? && |pdu| == 5 && 1 <= WordAt(pdu, 3) <= max {
      DataBytesMonotone(bits, WordAt(pdu, 3), max);
    }
  }

  lemma ReadWriteReplyShape<A(!new)>(cmd: Callbacks<A>, app: A, pdu: seq<byte>)
    requires pdu != [] && Contract(cmd)
    ensures Shaped(pdu[0], ServeReadWrite(cmd, app, pdu).reply)
  {
  }

  /** An answer under the request's own code, or an exception of exactly two bytes. */
  predicate Shaped(code: byte, reply: seq<byte>) {
    && 2 <= |reply| <= 252
    && (reply[0] == code || (reply[0] == ErrorCode(code) && |reply| == 2 && reply[1] != E_NO_ERROR))
    && (|reply| == 2 ==> reply[0] == ErrorCode(code) && reply[1] != E_NO_ERROR)
  }

  /** MAIN: whatever the request, the reply has 2 to 252 bytes, starts with the function code or is
      an exception of two bytes with a non-zero code, and the ASCII layer never drops it. */
  lemma ReplyShape<A(!new)>(cmd: Callbacks<A>, app: A, pdu: seq<byte>, id: byte)
    requires pdu != [] && Contract(cmd)
    ensures Shaped(pdu[0], Serve(cmd, app, pdu).reply)
    ensures L.Emitted(F.Msg(id, Serve(cmd, app, pdu).reply)) == [F.Frame(F.Msg(id, Serve(cmd, app, pdu).reply))]
  {
    hide F.Frame;
    var code := pdu[0];
    if code == READ_COILS {
      ReadReplyShape(cmd.readCoils, true, MAX_READ_BITS, app, pdu);
    } else if code == READ_DISCRETE_INPUTS {
      ReadReplyShape(cmd.readDiscreteInputs, true, MAX_READ_BITS, app, pdu);
    } else if code == READ_HOLDING_REGISTERS {
      ReadReplyShape(cmd.readHoldingReg, false, MAX_READ_REGS, app, pdu);
    } else if code == READ_INPUT_REGISTERS {
      ReadReplyShape(cmd.readInputReg, false, MAX_READ_REGS, app, pdu);
    } else if code == READ_WRITE_MULTIPLE_REGISTERS {
      ReadWriteReplyShape(cmd, app, pdu);
    }
  }
}
