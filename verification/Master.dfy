/** The master: one pending command at a time, built into a request for every try, checked against
    the response, and completed with one signal. Register commands and the single coil. */
module Master {
  import opened Bytes
  import opened Modbus

  /** The event set, or the callback run, at the end of a command. */
  datatype Completion = Completion(callback: bool, slaveId: byte, code: byte, exc: byte)

  datatype Master = Master(
    cmd: byte, slaveId: byte, exc: byte, callback: bool,
    retryCount: nat, retryComm: nat, respTimeout: nat,
    startR: word, quantityR: word, startW: word, quantityW: word, dataW: short,
    /** what the pointers of the caller point to */
    wordsR: seq<short>, wordsW: seq<short>,
    log: seq<Completion>)

  /** The commands issued by the functions of this model. */
  predicate Known(cmd: byte) {
    cmd in {READ_HOLDING_REGISTERS, READ_INPUT_REGISTERS, WRITE_SINGLE_COIL, WRITE_SINGLE_REGISTER,
            WRITE_MULTIPLE_REGISTERS, READ_WRITE_MULTIPLE_REGISTERS}
  }

  /** The request of a multiple write of `quantity` registers fits the gateway's buffer. */
  predicate FitsBuffer(cmd: byte, quantity: nat) {
    && (cmd == WRITE_MULTIPLE_REGISTERS ==> 6 + 2 * quantity <= BUFFER_SIZE)
    && (cmd == READ_WRITE_MULTIPLE_REGISTERS ==> 10 + 2 * quantity <= BUFFER_SIZE)
  }

  /** A pending command is known, its data is there, and its request fits the gateway's buffer. */
  predicate Sound(m: Master) {
    && (m.cmd == 0 || (Known(m.cmd) && m.slaveId != 0))
    && m.quantityW <= |m.wordsW| && m.quantityR <= |m.wordsR|
    && FitsBuffer(m.cmd, m.quantityW)
  }

  /** A master after its opening, with the default timeout and number of tries. */
  function Opened(): Master {
    Master(0, 0, E_NO_ERROR, false, 0, 3, 300, 0, 0, 0, 0, 0, [], [], [])
  }

  /** A new command is accepted only if none is pending and the slave id is not 0. */
  predicate Accepts(m: Master, slaveId: byte) {
    m.cmd == 0 && slaveId != 0
  }

  function Started(m: Master, cmd: byte, slaveId: byte, callback: bool): Master {
    m.(cmd := cmd, slaveId := slaveId, exc := E_NO_ERROR, callback := callback, retryCount := m.retryComm)
  }

  /** The request of the pending command. */
  function Request(m: Master): seq<byte>
    requires m.quantityW <= |m.wordsW|
  {
    match m.cmd
    case 0x03 => [m.cmd] + WriteInt(m.startR) + WriteInt(m.quantityR)
    case 0x04 => [m.cmd] + WriteInt(m.startR) + WriteInt(m.quantityR)
    case 0x05 => [m.cmd] + WriteInt(m.startW) + WriteInt(m.dataW)
    case 0x06 => [m.cmd] + WriteInt(m.startW) + WriteInt(m.dataW)
    case 0x10 => [m.cmd] + WriteInt(m.startW) + WriteInt(m.quantityW) + [ToUint8(2 * m.quantityW)]
      + Unwords(m.wordsW[..m.quantityW])
    case 0x17 => [m.cmd] + WriteInt(m.startR) + WriteInt(m.quantityR) + WriteInt(m.startW) + WriteInt(m.quantityW)
                 + [ToUint8(2 * m.quantityW)] + Unwords(m.wordsW[..m.quantityW])
    case _ => []
  }

  /** The end of a command: one signal, and no command pending any more. */
  function Complete(m: Master): Master {
    m.(log := m.log + [Completion(m.callback, m.slaveId, m.cmd, m.exc)], cmd := 0)
  }

  /** One try less, or the end of a command that has none left. */
  function Tried(m: Master): Master {
    if m.cmd == 0 then m
    else if m.retryCount > 0 then m.(retryCount := m.retryCount - 1)
    else Complete(if m.exc == E_NO_ERROR then m.(exc := E_SLAVE_NOT_RESPOND) else m)
  }

  /** The registers a read response carries. */
  function Received(pdu: seq<byte>, quantity: nat): seq<short>
    requires 2 + 2 * quantity <= |pdu|
  {
    seq(quantity, i requires 0 <= i < quantity => ToInt16(WordAt(pdu, 2 + 2 * i)))
  }

  predicate IsRead(cmd: byte) {
    cmd in {READ_HOLDING_REGISTERS, READ_INPUT_REGISTERS, READ_WRITE_MULTIPLE_REGISTERS}
  }

  /** Whether a response under the command's own code is the expected one. Responses to writes are
      judged by five bytes of the buffer whatever the size of the message. */
  predicate Expected(m: Master, pdu: seq<byte>, size: nat)
    requires |pdu| == BUFFER_SIZE
  {
    if IsRead(m.cmd) then pdu[1] == 2 * m.quantityR && size == 2 + 2 * m.quantityR
    else if m.cmd == WRITE_MULTIPLE_REGISTERS then WordAt(pdu, 1) == m.startW && WordAt(pdu, 3) == m.quantityW
    else WordAt(pdu, 1) == m.startW && WordAt(pdu, 3) == ToUint16(m.dataW)
  }

  /** The exception code after a message from the slave asked. */
  function Verdict(m: Master, pdu: seq<byte>, size: nat): byte
    requires |pdu| == BUFFER_SIZE
  {
    if pdu[0] == m.cmd then
      if m.cmd == 0 then m.exc
      else if Expected(m, pdu, size) then E_NO_ERROR else E_PDU_RECEIVED_WRONG
    else if pdu[0] == ErrorCode(m.cmd) then pdu[1]
    else E_PDU_RECEIVED_WRONG
  }

  /** A message for the master: ignored from another slave; otherwise judged, and the end of the
      command if it is without error. */
  function Response(m: Master, id: byte, pdu: seq<byte>, size: nat): Master
    requires |pdu| == BUFFER_SIZE && m.quantityR <= |m.wordsR|
  {
    if id != m.slaveId then m
    else
      var data := if pdu[0] == m.cmd && IsRead(m.cmd) && Expected(m, pdu, size) then
                    Received(pdu, m.quantityR) + m.wordsR[m.quantityR..]
                  else m.wordsR;
      var judged := m.(exc := Verdict(m, pdu, size), wordsR := data);
      if judged.exc == E_NO_ERROR then Complete(judged) else judged
  }

  lemma Placed(before: seq<byte>, head: seq<byte>, after: seq<byte>)
    requires |head| <= |before| && after == head + before[|head|..]
    ensures after == Overlay(before, head)
  {
  }

  class MasterObj {
    var cmd: byte
    var slaveId: byte
    var exceptioncode: byte
    var cbEndComm: bool
    var retryCount: nat
    var retryComm: nat
    var respTimeout: nat
    var startAddressR: word
    var quantityR: word
    var startAddressW: word
    var quantityW: word
    var dataW: short
    var pDataR: array<short>
    var pDataW: array<short>
    /** The signals given to the tasks that issued commands. */
    var log: seq<Completion>

    ghost predicate Valid()
      reads this, pDataR, pDataW
    {
      Sound(Value())
    }

    ghost function Value(): Master
      reads this, pDataR, pDataW
    {
      Master(cmd, slaveId, exceptioncode, cbEndComm, retryCount, retryComm, respTimeout,
             startAddressR, quantityR, startAddressW, quantityW, dataW, pDataR[..], pDataW[..], log)
    }

    /** The object after its opening. */
    constructor ()
      ensures Valid() && Value() == Opened()
    {
      cmd, slaveId, exceptioncode, cbEndComm := 0, 0, E_NO_ERROR, false;
      respTimeout, retryComm, retryCount := 300, 3, 0;
      startAddressR, quantityR, startAddressW, quantityW, dataW := 0, 0, 0, 0, 0;
      pDataR := new short[0];
      pDataW := new short[0];
      log := [];
    }

    /** Functions 0x03 and 0x04. */
    method Read(startAddress: word, quantity: word, pData: array<short>, id: byte, code: byte,
        cb: bool) returns (ret: int)
      requires Valid() && quantity <= pData.Length && code in {READ_HOLDING_REGISTERS, READ_INPUT_REGISTERS}
      modifies this
      ensures Valid()
      ensures ret == if Accepts(old(Value()), id) then 0 else -1
      ensures Value() == if ret == 0 then
                           Started(old(Value()).(startR := startAddress, quantityR := quantity, wordsR := pData[..]),
                               code, id, cb)
                         else old(Value())
    {
      ret := -1;
      if cmd == 0 && id != 0 {
        startAddressR := startAddress;
        quantityR := quantity;
        pDataR := pData;
        Start(code, id, cb);
        ret := 0;
      }
    }

    method Start(code: byte, id: byte, cb: bool)
      modifies this`exceptioncode, this`slaveId, this`retryCount, this`cbEndComm, this`cmd
      ensures Value() == Started(old(Value()), code, id, cb)
    {
      exceptioncode := 0;
      slaveId := id;
      retryCount := retryComm;
      cbEndComm := cb;
      cmd := code;
    }

    /** Functions 0x05 (0xFF00 or 0x0000 as a signed value) and 0x06. */
    method WriteSingle(startAddress: word, value: short, id: byte, code: byte, cb: bool) returns (ret: int)
      requires Valid() && (code == WRITE_SINGLE_REGISTER
               || (code == WRITE_SINGLE_COIL && (value == 0 || value == ToInt16(0xFF00))))
      modifies this
      ensures Valid()
      ensures ret == if Accepts(old(Value()), id) then 0 else -1
      ensures Value() == if ret == 0 then Started(old(Value()).(startW := startAddress, dataW := value), code, id, cb)
              else old(Value())
    {
      ret := -1;
      if cmd == 0 && id != 0 {
        startAddressW := startAddress;
        dataW := value;
        Start(code, id, cb);
        ret := 0;
      }
    }

    /** Function 0x10. */
    method WriteMultiple(startAddress: word, quantity: word, hrValue: array<short>, id: byte,
        cb: bool) returns (ret: int)
      requires Valid() && quantity <= hrValue.Length && FitsBuffer(WRITE_MULTIPLE_REGISTERS, quantity)
      modifies this
      ensures Valid()
      ensures ret == if Accepts(old(Value()), id) then 0 else -1
      ensures Value() == if ret == 0 then
                           Started(old(Value()).(startW := startAddress, quantityW := quantity, wordsW := hrValue[..]),
                               WRITE_MULTIPLE_REGISTERS, id, cb)
                         else old(Value())
    {
      ret := -1;
      if cmd == 0 && id != 0 {
        startAddressW := startAddress;
        quantityW := quantity;
        pDataW := hrValue;
        Start(WRITE_MULTIPLE_REGISTERS, id, cb);
        ret := 0;
      }
    }

    /** Function 0x17. */
    method ReadWrite(startR: word, quantR: word, hrValueR: array<short>, startW: word, quantW: word,
        hrValueW: array<short>,
                     id: byte, cb: bool) returns (ret: int)
      requires Valid() && quantR <= hrValueR.Length && quantW <= hrValueW.Length
      requires FitsBuffer(READ_WRITE_MULTIPLE_REGISTERS, quantW)
      modifies this
      ensures Valid()
      ensures ret == if Accepts(old(Value()), id) then 0 else -1
      ensures Value() == if ret == 0 then
                           Started(old(Value()).(startR := startR, quantityR := quantR, wordsR := hrValueR[..],
                                                 startW := startW, quantityW := quantW, wordsW := hrValueW[..]),
                                   READ_WRITE_MULTIPLE_REGISTERS, id, cb)
                         else old(Value())
    {
      ret := -1;
      if cmd == 0 && id != 0 {
        startAddressR, startAddressW := startR, startW;
        quantityR, quantityW := quantR, quantW;
        pDataR, pDataW := hrValueR, hrValueW;
        Start(READ_WRITE_MULTIPLE_REGISTERS, id, cb);
        ret := 0;
      }
    }

    method Task()
      requires Valid()
      modifies this`retryCount, this`exceptioncode, this`log, this`cmd
      ensures Valid() && Value() == Tried(old(Value()))
    {
      if cmd != 0 {
        if retryCount > 0 {
          retryCount := retryCount - 1;
        } else {
          if exceptioncode == E_NO_ERROR {
            exceptioncode := E_SLAVE_NOT_RESPOND;
          }
          Signal();
          cmd := 0;
        }
      }
    }

    /** SetEvent, or the callback. */
    method Signal()
      modifies this`log
      ensures log == old(log) + [Completion(cbEndComm, slaveId, cmd, exceptioncode)]
    {
      log := log + [Completion(cbEndComm, slaveId, cmd, exceptioncode)];
    }

    /** Builds the request of the pending command; leaves everything alone if there is none. */
    method RecvMsg(id0: byte, pdu: array<byte>, size0: nat) returns (id: byte, size: nat)
      requires Valid() && pdu.Length == BUFFER_SIZE
      modifies pdu
      ensures if cmd == 0 then id == id0 && size == size0 && pdu[..] == old(pdu[..])
              else id == slaveId && size == |Request(Value())| && pdu[..] == Overlay(old(pdu[..]), Request(Value()))
    {
      hide Unwords, WriteInt, Overlay;
      id, size := id0, size0;
      if cmd != 0 {
        id := slaveId;
        ghost var before := pdu[..];
        pdu[0] := cmd;
        assert pdu[..] == [cmd] + before[1..];
        if cmd == READ_HOLDING_REGISTERS || cmd == READ_INPUT_REGISTERS {
          PutPair(pdu, 1, startAddressR, quantityR, before, [cmd]);
          size := 5;
        } else if cmd == WRITE_SINGLE_COIL || cmd == WRITE_SINGLE_REGISTER {
          PutPair(pdu, 1, startAddressW, dataW, before, [cmd]);
          size := 5;
        } else if cmd == WRITE_MULTIPLE_REGISTERS {
          size := PutWrite(pdu, before);
        } else {
          size := PutReadWrite(pdu, before);
        }
        Placed(before, Request(Value()), pdu[..]);
      }
    }

    /** The request of function 0x10 behind its code. */
    method PutWrite(pdu: array<byte>, ghost before: seq<byte>) returns (size: nat)
      requires Valid() && cmd == WRITE_MULTIPLE_REGISTERS
      requires |before| == BUFFER_SIZE == pdu.Length && pdu[..] == [cmd] + before[1..]
      modifies pdu
      ensures size == |Request(Value())| && pdu[..] == Request(Value()) + before[size..]
    {
      hide Unwords, WriteInt;
      PutPair(pdu, 1, startAddressW, quantityW, before, [cmd]);
      PutWords(pdu, 5, before, [cmd] + WriteInt(startAddressW) + WriteInt(quantityW));
      size := 6 + 2 * quantityW;
    }

    /** The request of function 0x17 behind its code. */
    method PutReadWrite(pdu: array<byte>, ghost before: seq<byte>) returns (size: nat)
      requires Valid() && cmd == READ_WRITE_MULTIPLE_REGISTERS
      requires |before| == BUFFER_SIZE == pdu.Length && pdu[..] == [cmd] + before[1..]
      modifies pdu
      ensures size == |Request(Value())| && pdu[..] == Request(Value()) + before[size..]
    {
      hide Unwords, WriteInt;
      PutPair(pdu, 1, startAddressR, quantityR, before, [cmd]);
      ghost var head := [cmd] + WriteInt(startAddressR) + WriteInt(quantityR);
      PutPair(pdu, 5, startAddressW, quantityW, before, head);
      PutWords(pdu, 9, before, head + WriteInt(startAddressW) + WriteInt(quantityW));
      size := 10 + 2 * quantityW;
    }

    /** Stores an address and a quantity, or an address and a value. */
    static method PutPair(pdu: array<byte>, at: nat, first: int, second: int, ghost before: seq<byte>,
        ghost head: seq<byte>)
      requires |head| == at && at + 4 <= pdu.Length == |before| && pdu[..] == head + before[at..]
      modifies pdu
      ensures pdu[..] == head + WriteInt(first) + WriteInt(second) + before[at + 4..]
    {
      hide WriteInt;
      PutInt(pdu, at, first, before, head);
      PutInt(pdu, at + 2, second, before, head + WriteInt(first));
    }

    /** Stores a big-endian 16-bit value behind what has been stored. */
    static method PutInt(pdu: array<byte>, at: nat, num: int, ghost before: seq<byte>, ghost head: seq<byte>)
      requires |head| == at && at + 2 <= pdu.Length == |before| && pdu[..] == head + before[at..]
      modifies pdu
      ensures pdu[..] == head + WriteInt(num) + before[at + 2..]
    {
      pdu[at] := WriteInt(num)[0];
      pdu[at + 1] := WriteInt(num)[1];
    }

    /** Stores the byte count and the values to write behind what has been stored. */
    method PutWords(pdu: array<byte>, at: nat, ghost before: seq<byte>, ghost head: seq<byte>)
      requires quantityW <= pDataW.Length
      requires |head| == at && at + 1 + 2 * quantityW <= pdu.Length == |before| && pdu[..] == head + before[at..]
      modifies pdu
      ensures pdu[..] == head + [ToUint8(2 * quantityW)] + Unwords(pDataW[..quantityW])
              + before[at + 1 + 2 * quantityW..]
    {
      hide WriteInt, Unwords;
      pdu[at] := ToUint8(2 * quantityW);
      ghost var counted := head + [ToUint8(2 * quantityW)];
      assert pdu[..] == counted + Unwords(pDataW[..0]) + before[at + 1..];
      var loopi := 0;
      while loopi < quantityW
        invariant 0 <= loopi <= quantityW
        invariant pdu[..] == counted + Unwords(pDataW[..loopi]) + before[at + 1 + 2 * loopi..]
      {
        UnwordsAppend(pDataW[..loopi], pDataW[loopi]);
        assert pDataW[..loopi + 1] == pDataW[..loopi] + [pDataW[loopi]];
        PutInt(pdu, at + 1 + 2 * loopi, pDataW[loopi], before, counted + Unwords(pDataW[..loopi]));
        loopi := loopi + 1;
      }
    }

    /** A message from a slave. */
    method SendMsg(id: byte, pdu: array<byte>, size: nat)
      requires Valid() && pdu.Length == BUFFER_SIZE
      modifies this`exceptioncode, this`log, this`cmd, pDataR
      ensures Valid()
      ensures var m := Response(old(Value()), id, old(pdu[..]), size);
              Value() == if pDataR == pDataW then m.(wordsW := m.wordsR) else m
    {
      hide Received, WriteInt, Request, Expected;
      if id == slaveId {
        if pdu[0] == cmd {
          if IsRead(cmd) {
            exceptioncode := ProcessRead(pdu, size);
          } else if cmd == WRITE_MULTIPLE_REGISTERS {
            exceptioncode := ProcessMultiple(pdu, size);
          } else if cmd != 0 {
            exceptioncode := ProcessSingle(pdu, size);
          }
        } else if pdu[0] == ErrorCode(cmd) {
          exceptioncode := pdu[1];
        } else {
          exceptioncode := E_PDU_RECEIVED_WRONG;
        }
        if exceptioncode == E_NO_ERROR {
          Signal();
          cmd := 0x00;
        }
      }
    }

    /** Checks the response to a single write. */
    method ProcessSingle(pdu: array<byte>, ghost size: nat) returns (ret: byte)
      requires Valid() && pdu.Length == BUFFER_SIZE && cmd in {WRITE_SINGLE_COIL, WRITE_SINGLE_REGISTER}
      ensures ret == if Expected(Value(), pdu[..], size) then E_NO_ERROR else E_PDU_RECEIVED_WRONG
    {
      ret := E_PDU_RECEIVED_WRONG;
      if ReadInt(pdu[1], pdu[2]) == startAddressW && ReadInt(pdu[3], pdu[4]) == ToUint16(dataW) {
        ret := E_NO_ERROR;
      }
    }

    /** Checks the response to a multiple write. */
    method ProcessMultiple(pdu: array<byte>, ghost size: nat) returns (ret: byte)
      requires Valid() && pdu.Length == BUFFER_SIZE && cmd == WRITE_MULTIPLE_REGISTERS
      ensures ret == if Expected(Value(), pdu[..], size) then E_NO_ERROR else E_PDU_RECEIVED_WRONG
    {
      ret := E_PDU_RECEIVED_WRONG;
      if ReadInt(pdu[1], pdu[2]) == startAddressW && ReadInt(pdu[3], pdu[4]) == quantityW {
        ret := E_NO_ERROR;
      }
    }

    /** Checks the response to a read and copies its registers to the caller. */
    method ProcessRead(pdu: array<byte>, size: nat) returns (ret: byte)
      requires Valid() && pdu.Length == BUFFER_SIZE && IsRead(cmd)
      modifies pDataR
      ensures ret == if Expected(old(Value()), old(pdu[..]), size) then E_NO_ERROR else E_PDU_RECEIVED_WRONG
      ensures pDataR[..] == if ret == E_NO_ERROR then Received(old(pdu[..]), quantityR) + old(pDataR[quantityR..])
              else old(pDataR[..])
      ensures ret == E_NO_ERROR ==>
                forall i :: 0 <= i < quantityR ==> ToUint16(pDataR[i]) == WordAt(old(pdu[..]), 2 + 2 * i)
    {
      hide ToInt16, ToUint16;
      if pdu[1] == 2 * quantityR && size == 2 + 2 * quantityR {
        var loopi := 0;
        while loopi < quantityR
          invariant 0 <= loopi <= quantityR
          invariant forall j :: 0 <= j < loopi ==>
                      pDataR[j] == Received(pdu[..], quantityR)[j] && ToUint16(pDataR[j]) == WordAt(pdu[..], 2 + 2 * j)
          invariant forall j :: loopi <= j < pDataR.Length ==> pDataR[j] == old(pDataR[j])
        {
          SignedOfWord(WordAt(pdu[..], 2 + 2 * loopi));
          pDataR[loopi] := ToInt16(ReadInt(pdu[2 + 2 * loopi], pdu[3 + 2 * loopi]));
          loopi := loopi + 1;
        }
        ret := E_NO_ERROR;
      } else {
        ret := E_PDU_RECEIVED_WRONG;
      }
    }
  }
}
