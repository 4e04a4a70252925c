/** The slave: validates a request PDU, runs the application's callbacks and turns the request in the
    caller's buffer into the reply. */
module Slave {
  import opened Bytes
  import opened Modbus

  // The application: its state, and the callbacks that act on it.

  /** A read: new state, number of items delivered, exception code, bytes stored from `buf` on. */
  datatype ReadResult<A> = ReadResult(app: A, count: word, exc: byte, data: seq<byte>)

  datatype WriteResult<A> = WriteResult(app: A, exc: byte)

  type ReadCallback<!A> = (A, word, word) -> ReadResult<A>
  type SingleWriteCallback<!A> = (A, word, seq<byte>) -> WriteResult<A>
  type MultipleWriteCallback<!A> = (A, word, word, seq<byte>) -> WriteResult<A>

  datatype Callbacks<!A> = Callbacks(
    readCoils: Option<ReadCallback<A>>,
    readDiscreteInputs: Option<ReadCallback<A>>,
    readHoldingReg: Option<ReadCallback<A>>,
    readInputReg: Option<ReadCallback<A>>,
    writeSingleCoil: Option<SingleWriteCallback<A>>,
    writeSingleRegister: Option<SingleWriteCallback<A>>,
    writeMultipleCoils: Option<MultipleWriteCallback<A>>,
    writeMultipleReg: Option<MultipleWriteCallback<A>>)

  const MAX_READ_BITS: nat := 0x07D0
  const MAX_READ_REGS: nat := 0x007D
  const MAX_WRITE_BITS: nat := 0x07B0
  const MAX_WRITE_REGS: nat := 0x007B
  const MAX_READ_WRITE_REGS: nat := 0x0079

  /** Bytes that hold `quantity` items: bits or registers. */
  function DataBytes(bits: bool, quantity: nat): nat {
    if bits then BitBytes(quantity) else 2 * quantity
  }

  /** What the application promises of a read: it never stores more than the quantity asked for, and
      without an exception it reports and stores exactly that. */
  ghost predicate ReadsAsAsked<A(!new)>(cb: Option<ReadCallback<A>>, bits: bool, max: nat) {
    cb.Some? ==>
      forall app: A, start: word, quantity: word :: 1 <= quantity <= max ==>
        var r := cb.value(app, start, quantity);
        && |r.data| <= DataBytes(bits, quantity)
        && (r.exc == E_NO_ERROR ==> r.count == quantity && |r.data| == DataBytes(bits, quantity))
  }

  ghost predicate Contract<A(!new)>(cmd: Callbacks<A>) {
    && ReadsAsAsked(cmd.readCoils, true, MAX_READ_BITS)
    && ReadsAsAsked(cmd.readDiscreteInputs, true, MAX_READ_BITS)
    && ReadsAsAsked(cmd.readHoldingReg, false, MAX_READ_REGS)
    && ReadsAsAsked(cmd.readInputReg, false, MAX_READ_REGS)
  }

  // What a request is answered with.

  /** One run of a callback, with the arguments it got. */
  datatype Call =
    | Read(code: byte, start: word, quantity: word)
    | Write(code: byte, start: word, quantity: word, data: seq<byte>)

  datatype Served<A> = Served(reply: seq<byte>, app: A, calls: seq<Call>)

  function Failed<A>(code: byte, exc: byte, app: A, calls: seq<Call>): Served<A> {
    Served([ErrorCode(code), exc], app, calls)
  }

  function Finished<A>(code: byte, exc: byte, reply: seq<byte>, app: A, calls: seq<Call>): Served<A> {
    if exc != E_NO_ERROR then Failed(code, exc, app, calls) else Served(reply, app, calls)
  }

  function ServeRead<A>(cb: Option<ReadCallback<A>>, bits: bool, max: nat, app: A, pdu: seq<byte>): Served<A>
    requires pdu != []
  {
    var code := pdu[0];
    if cb.None? then Failed(code, E_FNC_NOT_SUPPORTED, app, [])
    else if |pdu| != 5 || !(1 <= WordAt(pdu, 3) <= max) then Failed(code, E_WRONG_REG_QTY, app, [])
    else
      var r := cb.value(app, WordAt(pdu, 1), WordAt(pdu, 3));
      Finished(code, r.exc, [code, ToUint8(|r.data|)] + r.data, r.app, [Read(code, WordAt(pdu, 1), WordAt(pdu, 3))])
  }

  /** A coil is written as 0x0000 or 0xFF00; a register takes any value. */
  predicate SingleValueOk(bits: bool, value: word) {
    bits ==> value == 0x0000 || value == 0xFF00
  }

  function ServeWriteSingle<A>(cb: Option<SingleWriteCallback<A>>, bits: bool, app: A, pdu: seq<byte>): Served<A>
    requires pdu != []
  {
    var code := pdu[0];
    if cb.None? then Failed(code, E_FNC_NOT_SUPPORTED, app, [])
    else if |pdu| != 5 || !SingleValueOk(bits, WordAt(pdu, 3)) then Failed(code, E_WRONG_REG_QTY, app, [])
    else
      var w := cb.value(app, WordAt(pdu, 1), pdu[3..5]);
      Finished(code, w.exc, pdu, w.app, [Write(code, WordAt(pdu, 1), 1, pdu[3..5])])
  }

  function ServeWriteMultiple<A>(cb: Option<MultipleWriteCallback<A>>, bits: bool, max: nat, app: A,
      pdu: seq<byte>): Served<A>
    requires pdu != []
  {
    var code := pdu[0];
    if cb.None? then Failed(code, E_FNC_NOT_SUPPORTED, app, [])
    else if |pdu| < 6 then Failed(code, E_WRONG_REG_QTY, app, [])
    else
      var start, quantity := WordAt(pdu, 1), WordAt(pdu, 3);
      var count := DataBytes(bits, quantity);
      if !(1 <= quantity <= max) || pdu[5] != count || |pdu| != 6 + count then Failed(code, E_WRONG_REG_QTY, app, [])
      else
        var w := cb.value(app, start, quantity, pdu[6..]);
        Finished(code, w.exc, pdu[..5], w.app, [Write(code, start, quantity, pdu[6..])])
  }

  /** Write first, then read the state the write left; no read after a failed write. */
  function ServeReadWrite<A>(cmd: Callbacks<A>, app: A, pdu: seq<byte>): Served<A>
    requires pdu != []
  {
    var code := pdu[0];
    if cmd.readHoldingReg.None? || cmd.writeMultipleReg.None? then Failed(code, E_FNC_NOT_SUPPORTED, app, [])
    else if |pdu| < 10 then Failed(code, E_WRONG_REG_QTY, app, [])
    else
      var startR, quantityR := WordAt(pdu, 1), WordAt(pdu, 3);
      var startW, quantityW := WordAt(pdu, 5), WordAt(pdu, 7);
      if !(1 <= quantityR <= MAX_READ_REGS) || !(1 <= quantityW <= MAX_READ_WRITE_REGS)
         || pdu[9] != 2 * quantityW || |pdu| != 10 + 2 * quantityW then
        Failed(code, E_WRONG_REG_QTY, app, [])
      else
        var w := cmd.writeMultipleReg.value(app, startW, quantityW, pdu[10..]);
        var calls := [Write(code, startW, quantityW, pdu[10..])];
        if w.exc != E_NO_ERROR then Failed(code, w.exc, w.app, calls)
        else
          var r := cmd.readHoldingReg.value(w.app, startR, quantityR);
          Finished(code, r.exc, [code, ToUint8(|r.data|)] + r.data, r.app, calls + [Read(code, startR, quantityR)])
  }

  function Serve<A>(cmd: Callbacks<A>, app: A, pdu: seq<byte>): Served<A>
    requires pdu != []
  {
    var code := pdu[0];
    if code == READ_COILS then ServeRead(cmd.readCoils, true, MAX_READ_BITS, app, pdu)
    else if code == READ_DISCRETE_INPUTS then ServeRead(cmd.readDiscreteInputs, true, MAX_READ_BITS, app, pdu)
    else if code == READ_HOLDING_REGISTERS then ServeRead(cmd.readHoldingReg, false, MAX_READ_REGS, app, pdu)
    else if code == READ_INPUT_REGISTERS then ServeRead(cmd.readInputReg, false, MAX_READ_REGS, app, pdu)
    else if code == WRITE_SINGLE_COIL then ServeWriteSingle(cmd.writeSingleCoil, true, app, pdu)
    else if code == WRITE_SINGLE_REGISTER then ServeWriteSingle(cmd.writeSingleRegister, false, app, pdu)
    else if code == WRITE_MULTIPLE_COILS then ServeWriteMultiple(cmd.writeMultipleCoils, true, MAX_WRITE_BITS, app, pdu)
    else if code == WRITE_MULTIPLE_REGISTERS
        then ServeWriteMultiple(cmd.writeMultipleReg, false, MAX_WRITE_REGS, app, pdu)
    else if code == READ_WRITE_MULTIPLE_REGISTERS then ServeReadWrite(cmd, app, pdu)
    else Failed(code, E_FNC_NOT_SUPPORTED, app, [])
  }

  class SlaveObj<A(!new)> {
    const cmd: Callbacks<A>
    const id: byte
    var app: A
    var buf: array?<byte>
    var size: nat
    /** Every run of a callback. */
    ghost var calls: seq<Call>

    ghost predicate Valid()
      reads this
    {
      Contract(cmd) && (buf != null ==> buf.Length == BUFFER_SIZE && size <= BUFFER_SIZE)
    }

    constructor (cmd: Callbacks<A>, id: byte, app: A)
      requires Contract(cmd)
      ensures Valid() && this.cmd == cmd && this.id == id && this.app == app && buf == null && size == 0 && calls == []
    {
      this.cmd, this.id, this.app := cmd, id, app;
      buf, size, calls := null, 0, [];
    }

    /** Keeps a reference to the caller's buffer, not a copy of the message. */
    method SendMsg(pdu: array<byte>, n: nat)
      requires Valid() && pdu.Length == BUFFER_SIZE && n <= BUFFER_SIZE
      modifies this`buf, this`size
      ensures Valid() && buf == pdu && size == n
    {
      buf := pdu;
      size := n;
    }

    method RecvMsg(pdu: array<byte>) returns (id: byte, n: nat)
      requires Valid() && pdu.Length == BUFFER_SIZE && buf != null
      modifies pdu
      ensures id == this.id && n == size
      ensures pdu[..] == Overlay(old(pdu[..]), old(buf[..size]))
    {
      id := this.id;
      var loopi := 0;
      while loopi < size
        invariant 0 <= loopi <= size
        invariant forall j :: 0 <= j < loopi ==> pdu[j] == old(buf[j])
        invariant forall j :: loopi <= j < BUFFER_SIZE ==> pdu[j] == old(pdu[j])
        invariant buf != pdu ==> buf[..] == old(buf[..])
      {
        pdu[loopi] := buf[loopi];
        loopi := loopi + 1;
      }
      n := size;
    }

    /** Answers the request of `size` bytes at the start of the buffer in place. The answer depends on
        those bytes alone, although fields behind a short request are read. */
    method Task()
      requires Valid() && buf != null
      modifies this`size, this`app, this`calls, buf
      ensures Valid() && buf == old(buf)
      ensures old(size) == 0 ==> size == 0 && app == old(app) && calls == old(calls) && buf[..] == old(buf[..])
      ensures old(size) > 0 ==>
                var s := Serve(cmd, old(app), old(buf[..size]));
                buf[..size] == s.reply && app == s.app && calls == old(calls) + s.calls
    {
      var exceptioncode: byte, ret: nat := E_NO_ERROR, 0;
      if size != 0 {
        var code := buf[0];
        ret, exceptioncode := Dispatch(code);
        if exceptioncode != E_NO_ERROR {
          buf[0] := ErrorCode(buf[0]);
          buf[1] := exceptioncode;
          ret := 2;
          assert buf[..2] == [ErrorCode(code), exceptioncode];
        }
      }
      size := ret;
    }

    /** The switch on the function code. */
    method Dispatch(code: byte) returns (ret: nat, exceptioncode: byte)
      requires Valid() && buf != null && size > 0 && code == buf[0]
      modifies this`app, this`calls, buf
      ensures CaseDone(code, ret, exceptioncode, Serve(cmd, old(app), old(buf[..size])))
    {
      ret, exceptioncode := 0, E_NO_ERROR;
      match code {
        case 0x01 => ret, exceptioncode := ReadItems(cmd.readCoils, true, MAX_READ_BITS);
        case 0x02 => ret, exceptioncode := ReadItems(cmd.readDiscreteInputs, true, MAX_READ_BITS);
        case 0x03 => ret, exceptioncode := ReadItems(cmd.readHoldingReg, false, MAX_READ_REGS);
        case 0x04 => ret, exceptioncode := ReadItems(cmd.readInputReg, false, MAX_READ_REGS);
        case 0x05 => ret, exceptioncode := WriteSingle(cmd.writeSingleCoil, true);
        case 0x06 => ret, exceptioncode := WriteSingle(cmd.writeSingleRegister, false);
        case 0x0F => ret, exceptioncode := WriteMultiple(cmd.writeMultipleCoils, true, MAX_WRITE_BITS);
        case 0x10 => ret, exceptioncode := WriteMultiple(cmd.writeMultipleReg, false, MAX_WRITE_REGS);
        case 0x17 => ret, exceptioncode := ReadWrite();
        case _ => exceptioncode := E_FNC_NOT_SUPPORTED;
      }
    }

    /** How a case of the switch leaves things: the reply in place, or an exception code to report. */
    twostate predicate CaseDone(code: byte, ret: nat, exceptioncode: byte, s: Served<A>)
      requires buf != null && buf.Length == BUFFER_SIZE
      reads this, buf
    {
      && app == s.app && calls == old(calls) + s.calls && buf[0] == code
      && if exceptioncode == E_NO_ERROR then ret <= BUFFER_SIZE && buf[..ret] == s.reply
         else s.reply == [ErrorCode(code), exceptioncode]
    }

    /** The callback stores its data behind the byte count; the count is then derived from the number
        of items it reports. */
    method Deliver(r: ReadResult<A>, bits: bool) returns (ret: nat)
      requires buf != null && buf.Length == BUFFER_SIZE && |r.data| <= 250
      modifies buf
      ensures buf[0] == old(buf[0])
      ensures r.exc == E_NO_ERROR && |r.data| == DataBytes(bits, r.count) ==>
                ret <= BUFFER_SIZE && buf[..ret] == [buf[0], ToUint8(|r.data|)] + r.data
    {
      for i := 0 to |r.data|
        invariant buf[2..2 + i] == r.data[..i]
        invariant buf[0] == old(buf[0])
      {
        buf[2 + i] := r.data[i];
      }
      var count: int := DataBytes(bits, r.count);
      buf[1] := ToUint8(count);
      ret := 2 + count % 0x100;
      if r.exc == E_NO_ERROR && |r.data| == count {
        assert buf[..ret] == [buf[0], buf[1]] + buf[2..2 + count];
      }
    }

    method ReadItems(cb: Option<ReadCallback<A>>, bits: bool, max: nat) returns (ret: nat, exceptioncode: byte)
      requires Valid() && buf != null && size > 0 && ReadsAsAsked(cb, bits, max) && DataBytes(bits, max) <= 250
      modifies this`app, this`calls, buf
      ensures CaseDone(old(buf[0]), ret, exceptioncode, ServeRead(cb, bits, max, old(app), old(buf[..size])))
    {
      ret, exceptioncode := 0, E_NO_ERROR;
      if cb.None? {
        exceptioncode := E_FNC_NOT_SUPPORTED;
      } else {
        var quantity := ReadInt(buf[3], buf[4]);
        if max < quantity || 1 > quantity || 5 != size {
          exceptioncode := E_WRONG_REG_QTY;
        } else {
          var address := ReadInt(buf[1], buf[2]);
          ret, exceptioncode := Perform(cb, bits, max, address, quantity);
        }
      }
    }

    /** Runs a read callback on the buffer behind the byte count. */
    method Perform(cb: Option<ReadCallback<A>>, bits: bool, max: nat, address: word, quantity: word)
      returns (ret: nat, exceptioncode: byte)
      requires Valid() && buf != null && cb.Some? && ReadsAsAsked(cb, bits, max)
      requires 1 <= quantity <= max && DataBytes(bits, max) <= 250
      modifies this`app, this`calls, buf
      ensures var r := cb.value(old(app), address, quantity);
              && app == r.app && exceptioncode == r.exc && calls == old(calls) + [Read(old(buf[0]), address, quantity)]
              && buf[0] == old(buf[0])
              && (r.exc == E_NO_ERROR ==> ret <= BUFFER_SIZE && buf[..ret] == [buf[0], ToUint8(|r.data|)] + r.data)
    {
      var r := cb.value(app, address, quantity);
      app, exceptioncode := r.app, r.exc;
      calls := calls + [Read(buf[0], address, quantity)];
      DataBytesMonotone(bits, quantity, max);
      ret := Deliver(r, bits);
    }

    method WriteSingle(cb: Option<SingleWriteCallback<A>>, bits: bool) returns (ret: nat, exceptioncode: byte)
      requires Valid() && buf != null && size > 0
      modifies this`app, this`calls
      ensures CaseDone(old(buf[0]), ret, exceptioncode, ServeWriteSingle(cb, bits, old(app), old(buf[..size])))
    {
      ret, exceptioncode := 0, E_NO_ERROR;
      if cb.None? {
        exceptioncode := E_FNC_NOT_SUPPORTED;
      } else {
        var value := ReadInt(buf[3], buf[4]);
        if !SingleValueOk(bits, value) || 5 != size {
          exceptioncode := E_WRONG_REG_QTY;
        } else {
          var address := ReadInt(buf[1], buf[2]);
          assert buf[..size][3..5] == buf[3..5];
          var w := cb.value(app, address, buf[3..5]);
          app, exceptioncode := w.app, w.exc;
          calls := calls + [Write(buf[0], address, 1, buf[3..5])];
          ret := 5;
        }
      }
    }

    method WriteMultiple(cb: Option<MultipleWriteCallback<A>>, bits: bool, max: nat) returns (ret: nat,
        exceptioncode: byte)
      requires Valid() && buf != null && size > 0 && DataBytes(bits, max) <= 246
      modifies this`app, this`calls
      ensures CaseDone(old(buf[0]), ret, exceptioncode, ServeWriteMultiple(cb, bits, max, old(app), old(buf[..size])))
    {
      ret, exceptioncode := 0, E_NO_ERROR;
      if cb.None? {
        exceptioncode := E_FNC_NOT_SUPPORTED;
      } else {
        var address := ReadInt(buf[1], buf[2]);
        var quantity := ReadInt(buf[3], buf[4]);
        var byteCount := ToUint16(DataBytes(bits, quantity));
        ByteCountExact(bits, quantity, max);
        if max < quantity || 1 > quantity || byteCount != buf[5] || 6 + byteCount != size {
          exceptioncode := E_WRONG_REG_QTY;
        } else {
          assert buf[..size][6..] == buf[6..6 + byteCount];
          var w := cb.value(app, address, quantity, buf[6..6 + byteCount]);
          app, exceptioncode := w.app, w.exc;
          calls := calls + [Write(buf[0], address, quantity, buf[6..6 + byteCount])];
          ret := 5;
          assert buf[..size][..5] == buf[..5];
        }
      }
    }

    method ReadWrite() returns (ret: nat, exceptioncode: byte)
      requires Valid() && buf != null && size > 0
      modifies this`app, this`calls, buf
      ensures CaseDone(old(buf[0]), ret, exceptioncode, ServeReadWrite(cmd, old(app), old(buf[..size])))
    {
      hide ReadsAsAsked;
      ret, exceptioncode := 0, E_NO_ERROR;
      if cmd.readHoldingReg.None? || cmd.writeMultipleReg.None? {
        exceptioncode := E_FNC_NOT_SUPPORTED;
      } else {
        var address, quantity := ReadInt(buf[1], buf[2]), ReadInt(buf[3], buf[4]);
        var addressW, quantityW := ReadInt(buf[5], buf[6]), ReadInt(buf[7], buf[8]);
        var byteCount := ToUint16(2 * (quantityW as int));
        if MAX_READ_REGS < quantity || 1 > quantity || MAX_READ_WRITE_REGS < quantityW || 1 > quantityW
           || byteCount != buf[9] || 10 + byteCount != size {
          exceptioncode := E_WRONG_REG_QTY;
        } else {
          assert buf[..size][10..] == buf[10..10 + byteCount];
          var w := cmd.writeMultipleReg.value(app, addressW, quantityW, buf[10..10 + byteCount]);
          app, exceptioncode := w.app, w.exc;
          calls := calls + [Write(buf[0], addressW, quantityW, buf[10..10 + byteCount])];
          if exceptioncode == E_NO_ERROR {
            ret, exceptioncode := Perform(cmd.readHoldingReg, false, MAX_READ_REGS, address, quantity);
          }
        }
      }
    }
  }

  /** The 16-bit byte count can wrap only for quantities that are refused anyway. */
  lemma ByteCountExact(bits: bool, quantity: word, max: nat)
    requires DataBytes(bits, max) <= 246
    ensures quantity <= max ==> ToUint16(DataBytes(bits, quantity)) == DataBytes(bits, quantity) <= 246
  {
    if quantity <= max {
      DataBytesMonotone(bits, quantity, max);
    }
  }

  lemma DataBytesMonotone(bits: bool, quantity: nat, max: nat)
    requires quantity <= max
    ensures DataBytes(bits, quantity) <= DataBytes(bits, max)
  {
  }
}
