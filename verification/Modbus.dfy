/** Codes shared by master and slave (MODBUS Application Protocol V1.1b3, sections 6 and 7). */
module Modbus {
  import opened Bytes

  const E_NO_ERROR: byte := 0x00
  const E_FNC_NOT_SUPPORTED: byte := 0x01
  const E_WRONG_STR_ADDR: byte := 0x02
  const E_WRONG_REG_QTY: byte := 0x03
  const E_FNC_ERROR: byte := 0x04
  const E_SLAVE_NOT_RESPOND: byte := 0x10
  const E_PDU_RECEIVED_WRONG: byte := 0x11

  const READ_COILS: byte := 0x01
  const READ_DISCRETE_INPUTS: byte := 0x02
  const READ_HOLDING_REGISTERS: byte := 0x03
  const READ_INPUT_REGISTERS: byte := 0x04
  const WRITE_SINGLE_COIL: byte := 0x05
  const WRITE_SINGLE_REGISTER: byte := 0x06
  const WRITE_MULTIPLE_COILS: byte := 0x0F
  const WRITE_MULTIPLE_REGISTERS: byte := 0x10
  const READ_WRITE_MULTIPLE_REGISTERS: byte := 0x17

  /** Cells of a client buffer of the gateway. */
  const BUFFER_SIZE: nat := 256

  /** Function code of an exception reply: the code with its top bit set. */
  function ErrorCode(code: byte): byte {
    if code < 0x80 then code + 0x80 else code
  }

  /** The top bit is set and the other seven are those of the code. */
  lemma ErrorCodeSetsTopBit(code: byte)
    ensures ErrorCode(code) >= 0x80 && ErrorCode(code) % 0x80 == code % 0x80
  {
  }

  /** Number of bytes that hold `quantity` bits. */
  function BitBytes(quantity: nat): nat {
    quantity / 8 + (if quantity % 8 != 0 then 1 else 0)
  }

  /** As many bytes as are needed for the bits, and no more. */
  lemma BitBytesHold(quantity: nat)
    ensures 8 * BitBytes(quantity) - 8 < quantity <= 8 * BitBytes(quantity)
  {
  }

  /** The big-endian word at position `i` of a PDU. */
  function WordAt(pdu: seq<byte>, i: nat): word
    requires i + 1 < |pdu|
  {
    ReadInt(pdu[i], pdu[i + 1])
  }
}
