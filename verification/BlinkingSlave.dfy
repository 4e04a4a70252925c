/** The example application: two registers, the digital inputs at address 0 (read only) and the
    digital outputs at address 1. */
module BlinkingSlave {
  import opened Bytes
  import opened Modbus
  import opened Slave
  import opened SlaveProperties

  datatype Board = Board(inputs: byte, outputs: byte)

  const ADDRESS_INPUTS: word := 0
  const ADDRESS_OUTPUTS: word := 1

  /** The registers the application offers, in address order. */
  function Registers(b: Board): seq<word> {
    [b.inputs, b.outputs]
  }

  /** A read delivers a range inside the two registers; otherwise it stores what precedes the first
      wrong address, raises exception 2 and reports -1 as an unsigned count. */
  function BoardRead(b: Board, start: word, quantity: word): ReadResult<Board> {
    var n := if quantity == 0 then 1 else quantity;
    if start + n <= 2 then ReadResult(b, n, E_NO_ERROR, Unwords(Registers(b)[start..start + n]))
    else ReadResult(b, 0xFFFF, E_WRONG_STR_ADDR, Unwords(if start < 2 then Registers(b)[start..] else []))
  }

  /** A write stores the low byte of the first word if it starts at the outputs; a range that goes on
      behind them raises exception 2 after that, and the inputs raise exception 4. */
  function BoardWrite(b: Board, start: word, quantity: word, data: seq<byte>): WriteResult<Board>
    requires |data| >= 2
  {
    if start == ADDRESS_INPUTS then WriteResult(b, E_FNC_ERROR)
    else if start == ADDRESS_OUTPUTS then
      WriteResult(b.(outputs := data[1]), if quantity == 1 then E_NO_ERROR else E_WRONG_STR_ADDR)
    else WriteResult(b, E_WRONG_STR_ADDR)
  }

  const CALLBACKS: Callbacks<Board> :=
    Callbacks(None, None, Some((b: Board, s: word, q: word) => BoardRead(b, s, q)), None, None, None, None,
              Some((b: Board, s: word, q: word, d: seq<byte>) =>
                     if |d| >= 2 then BoardWrite(b, s, q, d) else WriteResult(b, E_FNC_ERROR)))

  method Cmd0x03ReadHoldingReg(b: Board, start0: word, quantity: word, buf: array<byte>)
    returns (ret: int, exceptioncode: byte)
    requires buf.Length >= 4
    modifies buf
    ensures var r := BoardRead(b, start0, quantity);
            ToUint16(ret) == r.count && exceptioncode == r.exc && buf[..] == Overlay(old(buf[..]), r.data)
  {
    hide Unwords, Overlay, BoardRead;
    ret, exceptioncode := 0, E_NO_ERROR;
    var start: nat, more, at := start0, true, 0;
    ghost var before, done: seq<word> := buf[..], [];
    NothingStored(before);
    while more
      invariant 0 <= |done| <= 2 && at == 2 * |done| && buf[..] == Overlay(before, Unwords(done))
      invariant ReadSoFar(b, start0, start, done)
      invariant exceptioncode == E_NO_ERROR ==> ret == |done| && (more || (ret > 0 && ret >= quantity))
      invariant exceptioncode == E_NO_ERROR && ret > 0 ==> start <= 2 && (ret == 1 || ret <= quantity)
      invariant exceptioncode == E_NO_ERROR && more && ret > 0 ==> ret < quantity
      invariant exceptioncode != E_NO_ERROR ==> exceptioncode == E_WRONG_STR_ADDR && !more && ret == -1
      invariant exceptioncode != E_NO_ERROR ==> start >= 2 && (|done| == 0 || |done| < quantity)
      decreases more, 3 - ret
    {
      var processed := 1;
      if start == ADDRESS_INPUTS {
        buf[at], buf[at + 1] := 0, b.inputs;
        StoredWord(before, done, b.inputs);
      } else if start == ADDRESS_OUTPUTS {
        buf[at], buf[at + 1] := 0, b.outputs;
        StoredWord(before, done, b.outputs);
      } else {
        exceptioncode := E_WRONG_STR_ADDR;
        processed := -1;
      }
      if processed > 0 {
        NextRegister(b, start0, start, done);
        done := done + [Registers(b)[start]];
        at := at + 2 * processed;
        start := start + processed;
        ret := ret + processed;
      } else {
        ret := -1;
      }
      more := ret > 0 && ret < quantity;
    }
    ReadEnds(b, start0, quantity, start, done, ret, exceptioncode);
  }

  /** `done` holds the registers from `start0` on that were read before `start`. */
  ghost predicate ReadSoFar(b: Board, start0: word, start: nat, done: seq<word>) {
    && start == start0 + |done|
    && if start0 < 2 then start <= 2 && done == Registers(b)[start0..start] else done == []
  }

  lemma NextRegister(b: Board, start0: word, start: nat, done: seq<word>)
    requires ReadSoFar(b, start0, start, done) && start < 2
    ensures |Registers(b)| == 2 && Registers(b) == [b.inputs, b.outputs]
    ensures ReadSoFar(b, start0, start + 1, done + [Registers(b)[start]])
  {
  }

  /** What the read loop leaves is what a read delivers. */
  lemma ReadEnds(b: Board, start0: word, quantity: word, start: nat, done: seq<word>, ret: int, exc: byte)
    requires ReadSoFar(b, start0, start, done)
    requires exc == E_NO_ERROR ==> ret == |done| && ret > 0 && ret >= quantity && (ret == 1 || ret <= quantity)
    requires exc == E_NO_ERROR ==> start <= 2
    requires exc != E_NO_ERROR ==> exc == E_WRONG_STR_ADDR && ret == -1
    requires exc != E_NO_ERROR ==> start >= 2 && (|done| == 0 || |done| < quantity)
    ensures BoardRead(b, start0, quantity) == ReadResult(b, ToUint16(ret), exc, Unwords(done))
  {
    hide Unwords;
    if exc == E_NO_ERROR {
      assert start0 < 2 && |done| == if quantity == 0 then 1 else quantity;
    } else {
      assert done == if start0 < 2 then Registers(b)[start0..] else [];
    }
  }

  lemma NothingStored(before: seq<byte>)
    ensures Overlay(before, Unwords([])) == before
  {
  }

  /** Storing a byte as a 16-bit value behind the ones stored so far. */
  lemma StoredWord(before: seq<byte>, done: seq<word>, value: byte)
    requires 2 * |done| + 2 <= |before|
    ensures |Overlay(before, Unwords(done))| == |before|
    ensures Overlay(before, Unwords(done))[2 * |done| := 0][2 * |done| + 1 := value] ==
            Overlay(before, Unwords(done + [value]))
  {
    UnwordsAppend(done, value);
    OverlayExtend(before, Unwords(done), 0, value);
  }

  method Cmd0x10WriteMultipleReg(b: Board, start0: word, quantity0: word, buf: seq<byte>)
    returns (b': Board, exceptioncode: byte)
    requires quantity0 >= 1 && |buf| >= 2 * quantity0
    ensures WriteResult(b', exceptioncode) == BoardWrite(b, start0, quantity0, buf)
  {
    b', exceptioncode := b, E_NO_ERROR;
    var start: nat, quantity: word, at := start0, quantity0, 0;
    while 0 < quantity
      invariant quantity == 0 ==> WriteResult(b', exceptioncode) == BoardWrite(b, start0, quantity0, buf)
      invariant quantity > 0 ==> exceptioncode == E_NO_ERROR && (at == 0 || at == 2)
      invariant quantity > 0 && at == 0 ==> b' == b && start == start0 && quantity == quantity0
      invariant quantity > 0 && at == 2
                ==> b' == b.(outputs := buf[1]) && start0 == ADDRESS_OUTPUTS && start == 2 && quantity == quantity0 - 1
      decreases quantity
    {
      var processed := 1;
      if start == ADDRESS_INPUTS {
        exceptioncode := E_FNC_ERROR;
        processed := -1;
      } else if start == ADDRESS_OUTPUTS {
        var hrValue := ReadInt(buf[at], buf[at + 1]);
        b' := b'.(outputs := hrValue % 0x100);
      } else {
        exceptioncode := E_WRONG_STR_ADDR;
        processed := -1;
      }
      if processed > 0 {
        at := at + 2 * processed;
        start := start + processed;
        quantity := quantity - processed;
      } else {
        quantity := 0;
      }
    }
  }

  lemma BoardMeetsContract()
    ensures Contract(CALLBACKS)
  {
    forall b: Board, start: word, quantity: word | 1 <= quantity <= MAX_READ_REGS
      ensures var r := BoardRead(b, start, quantity);
              && |r.data| <= 2 * quantity
              && (r.exc == E_NO_ERROR ==> r.count == quantity && |r.data| == 2 * quantity)
    {
    }
  }

  /** A read of registers 0 and 1 is answered with the inputs and the outputs, every other one with exception 2;
      no read changes the board. */
  lemma BoardAnswersRead(b: Board, pdu: seq<byte>)
    requires pdu != [] && pdu[0] == READ_HOLDING_REGISTERS && WellFormed(pdu)
    ensures var s, start, quantity := Serve(CALLBACKS, b, pdu), Field(pdu, 1), Field(pdu, 3);
            && s.app == b
            && s.reply == if start == 0 && quantity == 1 then [0x03, 2, 0, b.inputs]
                          else if start == 1 && quantity == 1 then [0x03, 2, 0, b.outputs]
                          else if start == 0 && quantity == 2 then [0x03, 4, 0, b.inputs, 0, b.outputs]
                          else [0x83, 2]
  {
    hide BoardRead, Unwords, Serve, Contract;
    BoardReads(b, Field(pdu, 1), Field(pdu, 3));
    BoardMeetsContract();
    CallbackDecides(CALLBACKS, b, pdu);
    var reply, r := Serve(CALLBACKS, b, pdu).reply, BoardRead(b, Field(pdu, 1), Field(pdu, 3));
    if r.exc == 0 {
      assert reply == reply[..2] + reply[2..] == [reply[0], reply[1]] + r.data;
    }
  }

  lemma BoardReads(b: Board, start: word, quantity: word)
    requires quantity >= 1
    ensures var r := BoardRead(b, start, quantity);
            && r.app == b
            && if start == 0 && quantity == 1 then r.exc == 0 && r.data == [0, b.inputs]
               else if start == 1 && quantity == 1 then r.exc == 0 && r.data == [0, b.outputs]
               else if start == 0 && quantity == 2 then r.exc == 0 && r.data == [0, b.inputs, 0, b.outputs]
               else r.exc == 2
  {
    hide Unwords;
    if start <= 1 && quantity == 1 {
      var value := if start == 0 then b.inputs else b.outputs;
      assert Registers(b)[start..start + 1] == [value];
      RegisterBytes(value);
    } else if start == 0 && quantity == 2 {
      assert Registers(b)[0..2] == [b.inputs] + [b.outputs];
      RegisterBytes(b.inputs);
      RegisterBytes(b.outputs);
      UnwordsAppend([b.inputs], b.outputs);
    }
  }

  lemma RegisterBytes(value: byte)
    ensures Unwords([value]) == [0, value] && WriteInt(value) == [0, value]
  {
    UnwordsAppend([], value);
  }

  /** A write that is answered with an exception changes the outputs exactly if it starts at them and
      asks for more than one register: writes are not all-or-nothing. */
  lemma FailedWriteChangesOutputsIff(b: Board, pdu: seq<byte>)
    requires pdu != [] && pdu[0] == WRITE_MULTIPLE_REGISTERS && WellFormed(pdu)
    ensures var s := Serve(CALLBACKS, b, pdu);
            s.reply[0] == 0x90 ==>
              && s.reply == [0x90, if Field(pdu, 1) == 0 then 4 else 2]
              && s.app.inputs == b.inputs
              && (s.app != b <==> Field(pdu, 1) == 1 && Field(pdu, 3) > 1 && pdu[7] != b.outputs)
  {
    assert pdu[6..][1] == pdu[7];
  }

  /** ... and a write that is answered without one wrote exactly the outputs. */
  lemma SuccessfulWriteIff(b: Board, pdu: seq<byte>)
    requires pdu != [] && pdu[0] == WRITE_MULTIPLE_REGISTERS && WellFormed(pdu)
    ensures var s := Serve(CALLBACKS, b, pdu);
            (s.reply[0] == 0x10 <==> Field(pdu, 1) == 1 && Field(pdu, 3) == 1)
            && (s.reply[0] == 0x10 ==> s.app == Board(b.inputs, pdu[7]) && s.reply == pdu[..5])
  {
    assert pdu[6..][1] == pdu[7];
  }
}
